/** Numerals and the string functions of JavaScript that the text parsers use. */
module Text {
  predicate IsDec(c: char) {
    '0' <= c <= '9'
  }

  predicate IsHex(c: char) {
    IsDec(c) || 'a' <= c <= 'f' || 'A' <= c <= 'F'
  }

  function Digit(c: char): (d: nat)
    requires IsHex(c)
    ensures d < 16 && (IsDec(c) ==> d < 10)
  {
    if IsDec(c) then c as int - '0' as int
    else if 'a' <= c <= 'f' then c as int - 'a' as int + 10
    else c as int - 'A' as int + 10
  }

  predicate AllDec(s: string) {
    forall i :: 0 <= i < |s| ==> IsDec(s[i])
  }

  predicate AllHex(s: string) {
    forall i :: 0 <= i < |s| ==> IsHex(s[i])
  }

  function Value(s: string, base: nat): nat
    requires AllHex(s)
  {
    if s == [] then 0 else Value(s[..|s| - 1], base) * base + Digit(s[|s| - 1])
  }

  /** How many digits a text starts with. */
  function Span(s: string, hex: bool): (k: nat)
    ensures k <= |s| && AllHex(s[..k]) && (!hex ==> AllDec(s[..k]))
    ensures k < |s| ==> if hex then !IsHex(s[k]) else !IsDec(s[k])
  {
    if s != [] && (if hex then IsHex(s[0]) else IsDec(s[0])) then
      assert forall i :: 0 < i < |s| ==> s[i] == s[1..][i - 1];
      1 + Span(s[1..], hex)
    else 0
  }

  lemma {:induction false} SpanIs(d: string, rest: string, hex: bool)
    requires if hex then AllHex(d) else AllDec(d)
    requires rest == [] || if hex then !IsHex(rest[0]) else !IsDec(rest[0])
    ensures Span(d + rest, hex) == |d|
  {
    if d == [] {
      assert d + rest == rest;
    } else {
      assert (d + rest)[1..] == d[1..] + rest;
      SpanIs(d[1..], rest, hex);
    }
  }

  // ----- decimal numerals

  function Decimal(n: nat): (s: string)
    ensures s != [] && AllDec(s) && AllHex(s)
  {
    if n < 10 then ['0' + n as char] else Decimal(n / 10) + ['0' + (n % 10) as char]
  }

  lemma {:induction false} DecimalValue(n: nat)
    ensures Value(Decimal(n), 10) == n
  {
    var s := Decimal(n);
    if n < 10 {
      assert s[..0] == [];
    } else {
      DecimalValue(n / 10);
      assert s[..|s| - 1] == Decimal(n / 10);
    }
  }

  // ----- String.prototype.trim

  predicate IsSpace(c: char) {
    var n := c as int;
    9 <= n <= 13 || n == 32 || n == 0xA0 || n == 0xFEFF || n == 0x1680 || 0x2000 <= n <= 0x200A ||
    n == 0x2028 || n == 0x2029 || n == 0x202F || n == 0x205F || n == 0x3000
  }

  function TrimStart(s: string): string {
    if s != [] && IsSpace(s[0]) then TrimStart(s[1..]) else s
  }

  function TrimEnd(s: string): string {
    if s != [] && IsSpace(s[|s| - 1]) then TrimEnd(s[..|s| - 1]) else s
  }

  function Trim(s: string): string {
    TrimEnd(TrimStart(s))
  }

  predicate Trimmed(s: string) {
    s == [] || (!IsSpace(s[0]) && !IsSpace(s[|s| - 1]))
  }

  lemma {:induction false} TrimStartIs(s: string)
    ensures TrimStart(s) == [] || !IsSpace(TrimStart(s)[0])
    ensures |TrimStart(s)| <= |s| && TrimStart(s) == s[|s| - |TrimStart(s)|..]
  {
    if s != [] && IsSpace(s[0]) {
      TrimStartIs(s[1..]);
    }
  }

  lemma {:induction false} TrimEndIs(s: string)
    ensures TrimEnd(s) == [] || !IsSpace(TrimEnd(s)[|TrimEnd(s)| - 1])
    ensures |TrimEnd(s)| <= |s| && TrimEnd(s) == s[..|TrimEnd(s)|]
  {
    if s != [] && IsSpace(s[|s| - 1]) {
      TrimEndIs(s[..|s| - 1]);
    }
  }

  /** Trimming takes away what it should, and no more. */
  lemma TrimIs(s: string)
    ensures Trimmed(Trim(s)) && (forall c :: c in Trim(s) ==> c in s)
    ensures Trimmed(s) ==> Trim(s) == s && Trim(" " + s) == s
  {
    TrimStartIs(s);
    TrimEndIs(TrimStart(s));
    if Trimmed(s) {
      assert (" " + s)[1..] == s;
      assert TrimStart(" " + s) == TrimStart(s) == s;
    }
  }

  // ----- String.prototype.indexOf, replace and split

  /** Where `sub` first occurs, or |s| + 1. */
  function IndexOf(s: string, sub: string): (i: nat)
    ensures i <= |s| + 1
    ensures i <= |s| ==> sub <= s[i..]
  {
    if sub <= s then 0
    else if s == [] then 1
    else 1 + IndexOf(s[1..], sub)
  }

  /** `s.replace(sub, "")` */
  function Erase(s: string, sub: string): string {
    var i := IndexOf(s, sub);
    if i <= |s| then s[..i] + s[i + |sub|..] else s
  }

  lemma ErasePrefix(sub: string, rest: string)
    ensures Erase(sub + rest, sub) == rest
  {
  }

  const CRLF := "\r\n"

  /** `(line + s).split("\r\n")`, where `line` has no line end. */
  function Split(line: string, s: string): (lines: seq<string>)
    ensures lines != []
    decreases |s|
  {
    if s == [] then [line]
    else if CRLF <= s then [line] + Split([], s[2..])
    else Split(line + [s[0]], s[1..])
  }

  predicate OneLine(s: string) {
    '\r' !in s && '\n' !in s
  }

  function JoinLines(lines: seq<string>): string
    requires lines != []
  {
    if |lines| == 1 then lines[0] else lines[0] + CRLF + JoinLines(lines[1..])
  }

  lemma {:induction false} SplitLine(line: string, more: string, rest: string)
    requires OneLine(more)
    ensures Split(line, more + rest) == Split(line + more, rest)
    decreases |more|
  {
    if more == [] {
      assert more + rest == rest && line + more == line;
    } else {
      assert (more + rest)[0] == more[0] && (more + rest)[1..] == more[1..] + rest;
      SplitLine(line + [more[0]], more[1..], rest);
      assert line + [more[0]] + more[1..] == line + more;
    }
  }

  /** Splitting undoes joining. */
  lemma {:induction false} SplitJoin(lines: seq<string>)
    requires lines != [] && forall i :: 0 <= i < |lines| ==> OneLine(lines[i])
    ensures Split([], JoinLines(lines)) == lines
    decreases |lines|
  {
    var first := lines[0];
    if |lines| == 1 {
      SplitLine([], first, []);
      assert first + [] == first && [] + first == first;
    } else {
      var rest := JoinLines(lines[1..]);
      SplitLine([], first, CRLF + rest);
      assert JoinLines(lines) == first + (CRLF + rest) && [] + first == first;
      assert (CRLF + rest)[2..] == rest;
      SplitJoin(lines[1..]);
    }
  }

  // ----- parseInt

  /** `parseInt(s, 10)` of a text without leading blanks; None is NaN. */
  function ParseInt(s: string): (n: NumberOrNaN)
  {
    var negative := s != [] && s[0] == '-';
    var t := if negative || (s != [] && s[0] == '+') then s[1..] else s;
    var k := Span(t, false);
    if k == 0 then NaN
    else Number(if negative then -(Value(t[..k], 10) as int) else Value(t[..k], 10))
  }

  datatype NumberOrNaN = NaN | Number(n: int)

  /** `n.toString()` of an integer. */
  function IntText(n: int): string {
    if n < 0 then "-" + Decimal(-n) else Decimal(n)
  }

  lemma ParseDecimal(n: nat, rest: string)
    requires rest == [] || !IsDec(rest[0])
    ensures ParseInt(Decimal(n) + rest) == Number(n)
  {
    var d := Decimal(n);
    DecimalValue(n);
    SpanIs(d, rest, false);
    assert (d + rest)[..|d|] == d && (d + rest)[0] == d[0];
  }
}
