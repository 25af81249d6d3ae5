/** The loops of core/src/ipparser.ts, against the functions of IpText. */
module IpParser {
  import opened Bytes
  import opened IpText
  import opened Text

  const IPv4LEN := 4
  const IPv6LEN := 16

  lemma TimesGrows(v: nat, base: nat)
    requires base >= 1
    ensures v * base >= v
  {
  }

  /** A numeral is no smaller than a prefix of it. */
  lemma {:induction false} ValueGrows(s: string, i: nat, base: nat)
    requires i <= |s| && AllHex(s) && base >= 1
    ensures Value(s[..i], base) <= Value(s, base)
    decreases |s|
  {
    if i == |s| {
      assert s[..i] == s;
    } else {
      var n := |s| - 1;
      var v := Value(s[..n], base);
      assert Value(s, base) == v * base + Digit(s[n]);
      hide Value, Digit;
      ValueGrows(s[..n], i, base);
      assert s[..n][..i] == s[..i];
      TimesGrows(v, base);
    }
  }

  /** The length of the digits, found by going forward. */
  lemma {:induction false} SpanFrom(s: string, i: nat, hex: bool)
    requires i <= |s| && forall j :: 0 <= j < i ==> if hex then IsHex(s[j]) else IsDec(s[j])
    ensures Span(s, hex) >= i
    ensures i == |s| || (if hex then !IsHex(s[i]) else !IsDec(s[i])) ==> Span(s, hex) == i
  {
    if i > 0 {
      SpanFrom(s[1..], i - 1, hex);
    }
  }

  /** One more digit. */
  lemma NextDigit(s: string, i: nat, base: nat)
    requires i < |s| && AllHex(s[..i]) && IsHex(s[i])
    ensures AllHex(s[..i + 1]) && Value(s[..i + 1], base) == Value(s[..i], base) * base + Digit(s[i])
  {
    assert s[..i + 1][..i] == s[..i];
  }

  method Dtoi(s: string) returns (n: nat, c: nat, ok: bool)
    ensures ok <==> Span(s, false) > 0 && Value(s[..Span(s, false)], 10) < BIG
    ensures ok ==> c == Span(s, false) && n == Value(s[..c], 10)
  {
    assert Value([], 10) == 0;
    hide Value, Span;
    var i := 0;
    n := 0;
    while i < |s| && IsDec(s[i])
      invariant 0 <= i <= |s| && AllDec(s[..i]) && AllHex(s[..i])
      invariant n == Value(s[..i], 10) && n < BIG
      invariant forall j :: 0 <= j < i ==> IsDec(s[j])
    {
      NextDigit(s, i, 10);
      n := n * 10 + Digit(s[i]);
      if n >= BIG {
        SpanFrom(s, i + 1, false);
        ghost var t := s[..Span(s, false)];
        ValueGrows(t, i + 1, 10);
        assert t[..i + 1] == s[..i + 1];
        return BIG, i, false;
      }
      i := i + 1;
    }
    SpanFrom(s, i, false);
    if i == 0 {
      return 0, 0, false;
    }
    return n, i, true;
  }

  method Xtoi(s: string) returns (n: nat, c: nat, ok: bool)
    ensures ok <==> Span(s, true) > 0 && Value(s[..Span(s, true)], 16) < BIG
    ensures ok ==> c == Span(s, true) && n == Value(s[..c], 16)
  {
    assert Value([], 16) == 0;
    hide Value, Span;
    var i := 0;
    n := 0;
    while i < |s|
      invariant 0 <= i <= |s| && AllHex(s[..i])
      invariant n == Value(s[..i], 16) && n < BIG
      invariant forall j :: 0 <= j < i ==> IsHex(s[j])
    {
      if !IsHex(s[i]) {
        break;
      }
      NextDigit(s, i, 16);
      n := n * 16;
      if IsDec(s[i]) {
        n := n + (s[i] as int - '0' as int);
      } else if 'a' <= s[i] <= 'f' {
        n := n + (s[i] as int - 'a' as int) + 10;
      } else {
        n := n + (s[i] as int - 'A' as int) + 10;
      }
      assert n == Value(s[..i + 1], 16);
      if n >= BIG {
        SpanFrom(s, i + 1, true);
        ghost var t := s[..Span(s, true)];
        ValueGrows(t, i + 1, 16);
        assert t[..i + 1] == s[..i + 1];
        return 0, i, false;
      }
      i := i + 1;
    }
    SpanFrom(s, i, true);
    if i == 0 {
      return 0, i, false;
    }
    return n, i, true;
  }

  method IpV4(a: byte, b: byte, c: byte, d: byte) returns (ip: array<byte>)
    ensures fresh(ip) && ip[..] == Mapped([a, b, c, d])
  {
    ip := new byte[IPv6LEN](_ => 0);
    ip[10], ip[11] := 0xFF, 0xFF;
    ip[12], ip[13], ip[14], ip[15] := a, b, c, d;
  }

  /** One decimal part, below 256. */
  method ReadNumber(s: string) returns (n: nat, rest: string, ok: bool)
    ensures ok <==> ReadPart(s).Some?
    ensures ok ==> n <= 0xFF && ReadPart(s) == Some((n, rest))
  {
    hide Value, Span;
    var c;
    n, c, ok := Dtoi(s);
    rest := s;
    if !ok || n > 0xFF {
      ok := false;
      return;
    }
    rest := s[c..];
  }

  /** Four decimal parts; what follows them is not looked at. */
  method ParseV4(text: string) returns (r: array?<byte>)
    ensures r == null <==> ParseIPv4(text).None?
    ensures r != null ==> fresh(r) && ParseIPv4(text) == Some(r[..])
  {
    hide ReadPart, Mapped;
    var ip := new byte[IPv4LEN](_ => 0);
    var s := text;
    var i := 0;
    assert Dotted(0, text).Some? ==> ip[..0] + Dotted(0, text).value == Dotted(0, text).value;
    while i < IPv4LEN
      invariant 0 <= i <= 4
      invariant Dotted(0, text) == match Dotted(i, s) case None => None case Some(v) => Some(ip[..i] + v)
    {
      if |s| == 0 {
        return null;
      }
      if i > 0 {
        if s[0] != '.' {
          return null;
        }
        s := s[1..];
      }
      var n, rest, ok := ReadNumber(s);
      if !ok {
        return null;
      }
      ghost var more := Dotted(i + 1, rest);
      ghost var was := ip[..i];
      s := rest;
      ip[i] := n;
      assert ip[..i + 1] == was + [n];
      if more.Some? {
        Reassociate(was, [n], more.value);
      }
      i := i + 1;
    }
    assert ip[..4] + [] == ip[..4] == [ip[0], ip[1], ip[2], ip[3]];
    r := IpV4(ip[0], ip[1], ip[2], ip[3]);
  }

  /** Moves the bytes from `ellipsis` to i up by n, the last one first. */
  method MoveUp(ip: array<byte>, i: nat, ellipsis: nat, n: nat)
    requires ellipsis <= i && i + n == ip.Length
    modifies ip
    ensures ip[..ellipsis] == old(ip[..ellipsis]) && ip[ellipsis + n..] == old(ip[ellipsis..i])
  {
    var j := i - 1;
    while j >= ellipsis
      invariant ellipsis - 1 <= j <= i - 1
      invariant ip[..j + 1] == old(ip[..j + 1])
      invariant ip[j + 1 + n..] == old(ip[j + 1..i])
    {
      ghost var above := ip[j + 1 + n..];
      assert ip[..j + 1][j] == old(ip[..j + 1])[j];
      ip[j + n] := ip[j];
      assert ip[j + n..] == [ip[j + n]] + above;
      assert old(ip[j..i]) == [old(ip[j])] + old(ip[j + 1..i]);
      assert ip[..j] == old(ip[..j + 1])[..j];
      j := j - 1;
    }
  }

  /** Clears the n bytes from `ellipsis` on. */
  method Clear(ip: array<byte>, ellipsis: nat, n: nat)
    requires ellipsis + n <= ip.Length
    modifies ip
    ensures ip[..] == old(ip[..ellipsis]) + Zeros(n) + old(ip[ellipsis + n..])
  {
    var j := ellipsis + n - 1;
    while j >= ellipsis
      invariant ellipsis - 1 <= j < ellipsis + n
      invariant forall k :: 0 <= k < ellipsis || ellipsis + n <= k < ip.Length ==> ip[k] == old(ip[k])
      invariant forall k :: j < k < ellipsis + n ==> ip[k] == 0
    {
      ip[j] := 0;
      j := j - 1;
    }
  }

  /** Makes room for the zeros by moving what is behind them; the two places may overlap. */
  method InsertZeros(ip: array<byte>, i: nat, ellipsis: nat)
    requires ip.Length == IPv6LEN && ellipsis <= i < IPv6LEN
    modifies ip
    ensures ip[..] == old(ip[..ellipsis]) + Zeros(16 - i) + old(ip[ellipsis..i])
  {
    var n := IPv6LEN - i;
    MoveUp(ip, i, ellipsis, n);
    Clear(ip, ellipsis, n);
  }

  /** The loop over the groups: fails, or leaves i bytes written and the text `rest` unread. */
  method ReadGroups(text: string, ip: array<byte>, start: int)
    returns (ok: bool, i: nat, ellipsis: int, rest: string)
    requires ip.Length == IPv6LEN && start >= -1
    modifies ip
    ensures !ok ==> Groups([], start, text).None?
    ensures ok ==> i <= IPv6LEN && Groups([], start, text) == Read(ip[..i], ellipsis, rest)
    ensures ok && start >= 0 ==> ellipsis == start
    ensures ok && start < 0 ==> -1 <= ellipsis <= i
  {
    hide Value, Span, Dotted, Word;
    i, ellipsis, rest := 0, start, text;
    assert ip[..0] == [];
    while i < IPv6LEN
      invariant 0 <= i <= IPv6LEN && i % 2 == 0
      invariant Groups([], start, text) == Groups(ip[..i], ellipsis, rest)
      invariant start >= 0 ==> ellipsis == start
      invariant start < 0 ==> -1 <= ellipsis <= i
    {
      var n, c, good := Xtoi(rest);
      if !good || n > 0xFFFF {
        return false, i, ellipsis, rest;
      }
      if c < |rest| && rest[c] == '.' {
        ok, i, rest := ReadTail(rest, ip, i, ellipsis);
        return;
      }
      ghost var written := ip[..i];
      assert Groups(written, ellipsis, rest) == AfterGroup(written + Word(n), ellipsis, rest[c..]);
      PutWord(ip, i, n);
      i := i + 2;
      rest := rest[c..];
      if |rest| == 0 {
        break;
      }
      if rest[0] != ':' || |rest| == 1 {
        return false, i, ellipsis, rest;
      }
      rest := rest[1..];
      if rest[0] == ':' {
        if ellipsis >= 0 {
          return false, i, ellipsis, rest;
        }
        ellipsis := i;
        rest := rest[1..];
        if |rest| == 0 {
          break;
        }
      }
    }
    ok := true;
  }

  /** What the loop hands on. */
  function Read(written: bytes, ellipsis: int, rest: string): Option<Parsed> {
    if rest == [] then Some(Parsed(written, ellipsis)) else None
  }

  method PutWord(ip: array<byte>, i: nat, n: nat)
    requires i + 2 <= ip.Length && n <= 0xFFFF
    modifies ip
    ensures ip[..i + 2] == old(ip[..i]) + Word(n)
  {
    ip[i], ip[i + 1] := n / 256, n % 256;
  }

  /** A dotted address takes up the rest of the text. */
  method ReadTail(s: string, ip: array<byte>, i0: nat, ellipsis: int) returns (ok: bool, i: nat, rest: string)
    requires ip.Length == IPv6LEN && i0 < IPv6LEN && IsDotted(s)
    requires Span(s, true) > 0 && Value(s[..Span(s, true)], 16) <= 0xFFFF
    modifies ip
    ensures !ok ==> Groups(old(ip[..i0]), ellipsis, s).None?
    ensures ok ==> i0 <= i <= IPv6LEN && rest == []
                   && Groups(old(ip[..i0]), ellipsis, s) == Some(Parsed(ip[..i], ellipsis))
  {
    hide Value, Span, Dotted;
    i, rest := i0, s;
    if ellipsis < 0 && i != IPv6LEN - IPv4LEN {
      return false, i, rest;
    }
    if i + IPv4LEN > IPv6LEN {
      return false, i, rest;
    }
    var ip4 := ParseV4(s);
    if ip4 == null {
      return false, i, rest;
    }
    ghost var v4 := Dotted(0, s).value;
    assert ip4[..] == Mapped(v4);
    DottedLength(0, s);
    ip[i], ip[i + 1], ip[i + 2], ip[i + 3] := ip4[12], ip4[13], ip4[14], ip4[15];
    assert ip[..i + 4] == old(ip[..i0]) + v4;
    return true, i + IPv4LEN, "";
  }

  lemma {:induction false} DottedLength(i: nat, s: string)
    requires i <= 4
    ensures Dotted(i, s).Some? ==> |Dotted(i, s).value| == 4 - i
    decreases 4 - i
  {
    hide SkipDot, ReadPart;
    if i < 4 && SkipDot(i, s).Some? && ReadPart(SkipDot(i, s).value).Some? {
      DottedLength(i + 1, ReadPart(SkipDot(i, s).value).value.1);
    }
  }

  method ParseV6(text: string) returns (r: array?<byte>)
    ensures r == null <==> ParseIPv6(text).None?
    ensures r != null ==> fresh(r) && ParseIPv6(text) == Some(r[..])
  {
    hide Groups;
    var ip := new byte[IPv6LEN](_ => 0);
    var ellipsis, s := -1, text;
    if |s| >= 2 && s[0] == ':' && s[1] == ':' {
      ellipsis := 0;
      s := s[2..];
      if |s| == 0 {
        assert ip[..] == Zeros(16);
        return ip;
      }
    }
    var ok, i;
    ok, i, ellipsis, s := ReadGroups(s, ip, ellipsis);
    if !ok {
      return null;
    }
    if |s| != 0 {
      return null;
    }
    if i < IPv6LEN {
      if ellipsis < 0 {
        return null;
      }
      ghost var w := ip[..i];
      assert ip[..ellipsis] == w[..ellipsis] && ip[ellipsis..i] == w[ellipsis..];
      InsertZeros(ip, i, ellipsis);
    } else if ellipsis >= 0 {
      return null;
    }
    assert ip[..] == ip[..16];
    return ip;
  }

  /** The first dot or colon of the text says how to read it. */
  method Parse(h: string) returns (r: array?<byte>)
    ensures r == null <==> ParseIP(h).None?
    ensures r != null ==> ParseIP(h) == Some(r[..])
  {
    hide ParseIPv4, ParseIPv6;
    var i := 0;
    assert h[0..] == h;
    while i < |h|
      invariant 0 <= i <= |h| && ParseIP(h) == Dispatch(h[i..], h)
    {
      assert h[i..][1..] == h[i + 1..];
      if h[i] == '.' {
        r := ParseV4(h);
        return;
      }
      if h[i] == ':' {
        r := ParseV6(h);
        return;
      }
      i := i + 1;
    }
    return null;
  }
}
