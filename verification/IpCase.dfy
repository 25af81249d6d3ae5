/** What the digits of an address stand for: parseIP (core/src/ipparser.ts) on texts in any case. */
module IpCase {
  import opened Bytes
  import opened Text
  import opened IpText

  const LOWER_DIGITS := "0123456789abcdef"
  const UPPER_DIGITS := "0123456789ABCDEF"

  /**
   * The hexadecimal digits, in either case, stand for their place in the list of digits; nothing else
   * is a digit.
   */
  lemma DigitsInOrder(d: nat)
    requires d < 16
    ensures IsHex(LOWER_DIGITS[d]) && Digit(LOWER_DIGITS[d]) == d
    ensures IsHex(UPPER_DIGITS[d]) && Digit(UPPER_DIGITS[d]) == d
    ensures forall c: char :: IsHex(c) && Digit(c) == d ==> c == LOWER_DIGITS[d] || c == UPPER_DIGITS[d]
  {
  }

  /** The letters A to F in lower case. */
  function Plain(c: char): char {
    if 'A' <= c <= 'F' then c - 'A' + 'a' else c
  }

  predicate SameDigit(c: char, d: char) {
    Plain(c) == Plain(d)
  }

  /** The same text but for the case of the letters a to f. */
  predicate SameDigits(s: string, t: string) {
    |s| == |t| && forall i :: 0 <= i < |s| ==> SameDigit(s[i], t[i])
  }

  lemma DigitSame(c: char, d: char)
    requires SameDigit(c, d)
    ensures IsDec(c) == IsDec(d) && IsHex(c) == IsHex(d)
    ensures IsHex(c) ==> Digit(c) == Digit(d)
    ensures !IsHex(c) || IsDec(c) ==> c == d
  {
  }

  lemma Slices(s: string, t: string, k: nat)
    requires SameDigits(s, t) && k <= |s|
    ensures SameDigits(s[..k], t[..k]) && SameDigits(s[k..], t[k..])
  {
  }

  lemma HexSame(s: string, t: string)
    requires SameDigits(s, t) && AllHex(s)
    ensures AllHex(t)
  {
    forall i | 0 <= i < |t|
      ensures IsHex(t[i])
    {
      DigitSame(s[i], t[i]);
    }
  }

  /** The value of a numeral does not depend on the case of its letters. */
  lemma {:induction false} ValueSame(s: string, t: string, base: nat)
    requires SameDigits(s, t) && AllHex(s) && AllHex(t)
    ensures Value(s, base) == Value(t, base)
  {
    if s != [] {
      hide SameDigit, Digit;
      var n := |s| - 1;
      Slices(s, t, n);
      ValueSame(s[..n], t[..n], base);
      DigitSame(s[n], t[n]);
    }
  }

  lemma {:induction false} SpanSame(s: string, t: string, hex: bool)
    requires SameDigits(s, t)
    ensures Span(s, hex) == Span(t, hex)
  {
    if s != [] {
      hide SameDigit, IsHex, IsDec;
      DigitSame(s[0], t[0]);
      Slices(s, t, 1);
      SpanSame(s[1..], t[1..], hex);
    }
  }

  /** A numeral at the front: the same length and value, and the same behind it. */
  lemma NumeralSame(s: string, t: string, hex: bool, base: nat)
    requires SameDigits(s, t)
    ensures var k := Span(s, hex);
            k == Span(t, hex) && Value(s[..k], base) == Value(t[..k], base) && SameDigits(s[k..], t[k..])
  {
    hide SameDigits, Value;
    SpanSame(s, t, hex);
    var k := Span(s, hex);
    SliceSame(s, t, k);
    ValueSame(s[..k], t[..k], base);
  }

  lemma SliceSame(s: string, t: string, k: nat)
    requires SameDigits(s, t) && k <= |s|
    ensures |s| == |t| && SameDigits(s[..k], t[..k]) && SameDigits(s[k..], t[k..])
  {
    Slices(s, t, k);
  }

  /** Dots and colons are themselves. */
  lemma MarkSame(s: string, t: string, i: nat)
    requires SameDigits(s, t) && i < |s|
    ensures |s| == |t| && (s[i] == '.' <==> t[i] == '.') && (s[i] == ':' <==> t[i] == ':')
  {
    assert SameDigit(s[i], t[i]);
  }

  lemma {:induction false} DottedSame(i: nat, s: string, t: string)
    requires i <= 4 && SameDigits(s, t)
    ensures Dotted(i, s) == Dotted(i, t)
    decreases 4 - i
  {
    if i < 4 && s != [] {
      MarkSame(s, t, 0);
      SliceSame(s, t, 1);
      hide SameDigits, Value;
      if SkipDot(i, s).Some? {
        var s1, t1 := SkipDot(i, s).value, SkipDot(i, t).value;
        assert SameDigits(s1, t1);
        NumeralSame(s1, t1, false, 10);
        if ReadPart(s1).Some? {
          DottedSame(i + 1, ReadPart(s1).value.1, ReadPart(t1).value.1);
        }
      }
    }
  }

  lemma {:induction false} AfterGroupSame(written: bytes, ellipsis: int, s: string, t: string)
    requires SameDigits(s, t)
    ensures AfterGroup(written, ellipsis, s) == AfterGroup(written, ellipsis, t)
    decreases |s|
  {
    if s != [] {
      MarkSame(s, t, 0);
      SliceSame(s, t, 1);
      if |s| > 1 {
        MarkSame(s, t, 1);
        SliceSame(s, t, 2);
      }
      hide SameDigits, Groups;
      if s[0] == ':' && |s| > 1 {
        if s[1] != ':' {
          GroupsSame(written, ellipsis, s[1..], t[1..]);
        } else if ellipsis < 0 && |s| > 2 {
          GroupsSame(written, |written|, s[2..], t[2..]);
        }
      }
    }
  }

  lemma {:induction false} GroupsSame(written: bytes, ellipsis: int, s: string, t: string)
    requires SameDigits(s, t)
    ensures Groups(written, ellipsis, s) == Groups(written, ellipsis, t)
    decreases |s|
  {
    assert |s| == |t|;
    if |written| < 16 {
      NumeralSame(s, t, true, 16);
      var k := Span(s, true);
      if k < |s| {
        MarkSame(s, t, k);
      }
      DottedSame(0, s, t);
      hide SameDigits, Value, Dotted, AfterGroup;
      if k > 0 && Value(s[..k], 16) <= 0xFFFF {
        AfterGroupSame(written + Word(Value(s[..k], 16)), ellipsis, s[k..], t[k..]);
      }
    }
  }

  lemma V6Same(s: string, t: string)
    requires SameDigits(s, t)
    ensures ParseIPv6(s) == ParseIPv6(t)
  {
    if |s| >= 2 {
      MarkSame(s, t, 0);
      MarkSame(s, t, 1);
      SliceSame(s, t, 2);
      GroupsSame([], 0, s[2..], t[2..]);
    }
    GroupsSame([], -1, s, t);
    hide SameDigits, Groups, Expand;
  }

  lemma {:induction false} DispatchSame(rest: string, rest1: string, s: string, t: string)
    requires SameDigits(rest, rest1) && SameDigits(s, t)
    ensures Dispatch(rest, s) == Dispatch(rest1, t)
  {
    if rest != [] {
      MarkSame(rest, rest1, 0);
      SliceSame(rest, rest1, 1);
      hide SameDigits, ParseIPv6, Dotted;
      DottedSame(0, s, t);
      V6Same(s, t);
      DispatchSame(rest[1..], rest1[1..], s, t);
    }
  }

  /** parseIP reads every text alike in lower, upper and mixed case. */
  lemma CaseDoesNotMatter(s: string, t: string)
    requires SameDigits(s, t)
    ensures ParseIP(s) == ParseIP(t)
  {
    DispatchSame(s, t, s, t);
  }

  /** Every address printed as eight groups, in any mix of cases, is parsed back. */
  lemma AnyCaseRoundTrip(ip: bytes, s: string)
    requires |ip| == 16 && SameDigits(s, Print(Form(GroupsOf(ip), false, [], NoTail)))
    ensures ParseIP(s) == Some(ip)
  {
    hide ParseIP, GroupsOf, Print, SameDigits;
    AddressRoundTrip(ip);
    CaseDoesNotMatter(s, Print(Form(GroupsOf(ip), false, [], NoTail)));
  }

  // ----- dotted addresses

  /** Four bytes in decimal. */
  function DottedOf(v4: bytes): seq<string>
    requires |v4| == 4
  {
    [Decimal(v4[0] as int), Decimal(v4[1] as int), Decimal(v4[2] as int), Decimal(v4[3] as int)]
  }

  /** Every four bytes printed with dots are parsed back, as the address they are mapped to. */
  lemma DottedRoundTrip(v4: bytes)
    requires |v4| == 4
    ensures ParseIP(DottedText(DottedOf(v4))) == Some(Mapped(v4))
    ensures |Mapped(v4)| == 16 && Mapped(v4)[12..] == v4 && Mapped(v4)[10] == Mapped(v4)[11] == 0xFF
    ensures forall i :: 0 <= i < 10 ==> Mapped(v4)[i] == 0
  {
    var parts := DottedOf(v4);
    forall i | 0 <= i < 4
      ensures Part(parts[i]) && Value(parts[i], 10) == v4[i] as int
    {
      DecimalValue(v4[i] as int);
    }
    var t := DottedTail(parts, []);
    assert DottedText(parts) + [] == DottedText(parts);
    hide ParseIP, Decimal, Value;
    DottedParses(t);
    assert TailBytes(t) == v4;
  }
}
