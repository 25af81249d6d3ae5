/**
 * The texts that parseIP (core/src/ipparser.ts) accepts and the addresses they stand for. The
 * text forms are those of section 2.2 of RFC 4291; numerals may have any number of leading zeros.
 */
module IpText {
  import opened Bytes
  import opened Text

  // ----- what is parsed

  const BIG := 0xFFFFFF

  /** The dot in front of every component but the first. */
  function SkipDot(i: nat, s: string): Option<string> {
    if s == [] || (i > 0 && s[0] != '.') then None else Some(if i > 0 then s[1..] else s)
  }

  /** One decimal component, and the text behind it. */
  function ReadPart(s: string): Option<(byte, string)> {
    var k := Span(s, false);
    if k == 0 || Value(s[..k], 10) > 0xFF then None else Some((Value(s[..k], 10), s[k..]))
  }

  /** The components i to 3 of a dotted address at the front of s. */
  function Dotted(i: nat, s: string): Option<bytes>
    requires i <= 4
    decreases 4 - i
  {
    if i == 4 then Some([])
    else
      match SkipDot(i, s)
      case None => None
      case Some(t) =>
        match ReadPart(t)
        case None => None
        case Some(r) =>
          match Dotted(i + 1, r.1)
          case None => None
          case Some(rest) => Some([r.0] + rest)
  }

  function Zeros(n: nat): bytes {
    seq(n, i => 0)
  }

  /** The bytes the loop has written, and where the zeros go, or -1. */
  datatype Parsed = Parsed(written: bytes, ellipsis: int)

  /** The loop of parseIPv6, with `written` in the array and s still to be read. */
  function Groups(written: bytes, ellipsis: int, s: string): Option<Parsed>
    decreases |s|
  {
    if |written| >= 16 then (if s == [] then Some(Parsed(written, ellipsis)) else None)
    else
      var k := Span(s, true);
      if k == 0 || Value(s[..k], 16) > 0xFFFF then None
      else if k < |s| && s[k] == '.' then
        if (ellipsis < 0 && |written| != 12) || |written| + 4 > 16 then None
        else
          match Dotted(0, s)
          case None => None
          case Some(v) => Some(Parsed(written + v, ellipsis))
      else AfterGroup(written + Word(Value(s[..k], 16)), ellipsis, s[k..])
  }

  function Word(n: nat): (w: bytes)
    requires n <= 0xFFFF
    ensures |w| == 2
  {
    [n / 256, n % 256]
  }

  /** What may follow a group: the end, a colon and the next group, or the two colons. */
  function AfterGroup(written: bytes, ellipsis: int, s: string): Option<Parsed>
    decreases |s|
  {
    if s == [] then Some(Parsed(written, ellipsis))
    else if s[0] != ':' || |s| == 1 then None
    else if s[1] != ':' then Groups(written, ellipsis, s[1..])
    else if ellipsis >= 0 then None
    else if |s| == 2 then Some(Parsed(written, |written|))
    else Groups(written, |written|, s[2..])
  }

  /** Puts the zeros in, or fails if there is no place for them, or a place but no room. */
  function Expand(p: Parsed): Option<bytes> {
    if |p.written| < 16 then
      if 0 <= p.ellipsis <= |p.written| then
        Some(p.written[..p.ellipsis] + Zeros(16 - |p.written|) + p.written[p.ellipsis..])
      else None
    else if p.ellipsis >= 0 then None
    else Some(p.written)
  }

  function ParseIPv6(s: string): Option<bytes> {
    var colons := |s| >= 2 && s[0] == ':' && s[1] == ':';
    if colons && |s| == 2 then Some(Zeros(16))
    else
      match if colons then Groups([], 0, s[2..]) else Groups([], -1, s)
      case None => None
      case Some(p) => Expand(p)
  }

  /** An IPv4 address as the IPv6 address it is mapped to. */
  function Mapped(v4: bytes): bytes {
    Zeros(10) + [0xFF, 0xFF] + v4
  }

  function ParseIPv4(s: string): Option<bytes> {
    match Dotted(0, s)
    case None => None
    case Some(v) => Some(Mapped(v))
  }

  /** The first dot or colon decides. */
  function ParseIP(s: string): Option<bytes> {
    Dispatch(s, s)
  }

  function Dispatch(rest: string, s: string): Option<bytes> {
    if rest == [] then None
    else if rest[0] == '.' then ParseIPv4(s)
    else if rest[0] == ':' then ParseIPv6(s)
    else Dispatch(rest[1..], s)
  }

  // ----- the text forms

  /**
   * Colon-separated groups, the last two of which may be a dotted address. With a gap, `::`
   * stands between the groups on the left and those on the right. `junk` is text behind a dotted
   * address, which the parser does not look at.
   */
  datatype Tail = NoTail | DottedTail(parts: seq<string>, junk: string)
  datatype Form = Form(left: seq<string>, gap: bool, right: seq<string>, tail: Tail)

  predicate Group(g: string) {
    g != [] && AllHex(g) && Value(g, 16) <= 0xFFFF
  }

  predicate Part(p: string) {
    p != [] && AllDec(p) && AllHex(p) && Value(p, 10) <= 0xFF
  }

  predicate GoodTail(t: Tail) {
    t.DottedTail? ==>
      && |t.parts| == 4 && (forall i :: 0 <= i < 4 ==> Part(t.parts[i]))
      && (t.junk == [] || !IsDec(t.junk[0]))
  }

  predicate AllGroups(gs: seq<string>) {
    forall i :: 0 <= i < |gs| ==> Group(gs[i])
  }

  /** How many bytes are written out. */
  function Size(f: Form): nat {
    2 * |f.left| + 2 * |f.right| + if f.tail.DottedTail? then 4 else 0
  }

  predicate Good(f: Form) {
    && AllGroups(f.left) && AllGroups(f.right) && GoodTail(f.tail)
    && (if f.gap then Size(f) < 16 else Size(f) == 16 && f.right == [])
  }

  function DottedText(parts: seq<string>): string
    requires |parts| == 4
  {
    parts[0] + "." + parts[1] + "." + parts[2] + "." + parts[3]
  }

  function Items(gs: seq<string>, t: Tail): seq<string>
    requires GoodTail(t)
  {
    if t.DottedTail? then gs + [DottedText(t.parts) + t.junk] else gs
  }

  function Join(items: seq<string>): string {
    if items == [] then []
    else if |items| == 1 then items[0]
    else items[0] + ":" + Join(items[1..])
  }

  function Print(f: Form): string
    requires GoodTail(f.tail)
  {
    if f.gap then Join(f.left) + "::" + Join(Items(f.right, f.tail)) else Join(Items(f.left, f.tail))
  }

  function GroupWord(g: string): (w: bytes)
    requires Group(g)
    ensures |w| == 2
  {
    Word(Value(g, 16))
  }

  function Words(gs: seq<string>): (w: bytes)
    requires AllGroups(gs)
    ensures |w| == 2 * |gs|
  {
    if gs == [] then [] else GroupWord(gs[0]) + Words(gs[1..])
  }

  function TailBytes(t: Tail): (w: bytes)
    requires GoodTail(t)
    ensures |w| == if t.DottedTail? then 4 else 0
  {
    if t.DottedTail? then
      [Value(t.parts[0], 10), Value(t.parts[1], 10), Value(t.parts[2], 10), Value(t.parts[3], 10)]
    else []
  }

  /** The address a form stands for. */
  function Address(f: Form): (ip: bytes)
    requires Good(f)
    ensures |ip| == 16
  {
    if f.gap then Words(f.left) + Zeros(16 - Size(f)) + (Words(f.right) + TailBytes(f.tail))
    else Words(f.left) + TailBytes(f.tail)
  }

  // ----- numerals in a text

  /** Decimal digits read as hexadecimal ones: a part of a dotted address is below 0x10000. */
  lemma {:induction false} DecAsHex(p: string)
    requires AllDec(p) && AllHex(p)
    ensures Value(p, 10) < 10 ==> Value(p, 16) < 10
    ensures Value(p, 10) < 100 ==> Value(p, 16) < 0x9A
    ensures Value(p, 10) < 1000 ==> Value(p, 16) < 0x99A
    ensures Value(p, 10) == 0 ==> Value(p, 16) == 0
  {
    if p != [] {
      DecAsHex(p[..|p| - 1]);
    }
  }

  /** What stands in front of part i. */
  function Dot(i: nat): string {
    if i > 0 then "." else []
  }

  lemma SkipsDot(i: nat, t: string)
    requires t != []
    ensures SkipDot(i, Dot(i) + t) == Some(t)
  {
    assert ("." + t)[1..] == t;
    assert [] + t == t;
  }

  lemma ReadsPart(p: string, rest: string)
    requires Part(p) && (rest == [] || !IsDec(rest[0]))
    ensures ReadPart(p + rest) == Some((Value(p, 10), rest))
  {
    hide Value;
    SpanIs(p, rest, false);
    assert (p + rest)[..|p|] == p && (p + rest)[|p|..] == rest;
  }

  /** The parser reads one part, and goes on behind it. */
  lemma {:induction false} OnePart(p: string, i: nat, rest: string)
    requires i < 4 && Part(p) && (rest == [] || !IsDec(rest[0]))
    ensures Dotted(i, Dot(i) + p + rest) ==
            match Dotted(i + 1, rest) case None => None case Some(v) => Some([Value(p, 10)] + v)
  {
    hide Value, SkipDot, ReadPart, Dot;
    Reassociate(Dot(i), p, rest);
    SkipsDot(i, p + rest);
    ReadsPart(p, rest);
  }

  /** A dotted address in front of other text is read up to its last part. */
  lemma {:induction false} DottedReads(parts: seq<string>, i: nat, junk: string)
    requires |parts| == 4 && i <= 4 && forall j :: 0 <= j < 4 ==> Part(parts[j])
    requires junk == [] || !IsDec(junk[0])
    ensures Dotted(i, From(parts, i) + junk) == Some(Values(parts, i))
    decreases 4 - i
  {
    if i == 4 {
      assert From(parts, i) + junk == junk;
    } else {
      hide Part, Value, Dotted;
      var rest := From(parts, i + 1) + junk;
      assert i < 3 ==> From(parts, i + 1)[0] == '.';
      OnePart(parts[i], i, rest);
      Reassociate(Dot(i) + parts[i], From(parts, i + 1), junk);
      DottedReads(parts, i + 1, junk);
    }
  }

  /** The text of the parts from i on; each but the first has a dot in front. */
  function From(parts: seq<string>, i: nat): string
    requires i <= |parts|
    decreases |parts| - i
  {
    if i == |parts| then [] else Dot(i) + parts[i] + From(parts, i + 1)
  }

  function Values(parts: seq<string>, i: nat): bytes
    requires i <= |parts| && forall j :: 0 <= j < |parts| ==> Part(parts[j])
    decreases |parts| - i
  {
    if i == |parts| then [] else assert Part(parts[i]); [Value(parts[i], 10)] + Values(parts, i + 1)
  }

  lemma FourParts(parts: seq<string>)
    requires |parts| == 4
    ensures From(parts, 0) == DottedText(parts)
  {
    assert From(parts, 4) == [];
    assert From(parts, 3) == "." + parts[3];
    assert From(parts, 2) == "." + parts[2] + From(parts, 3);
    assert From(parts, 1) == "." + parts[1] + From(parts, 2);
    assert From(parts, 0) == parts[0] + From(parts, 1);
    assert DottedText(parts) == parts[0] + ("." + parts[1] + ("." + parts[2] + ("." + parts[3])));
  }

  lemma FourValues(parts: seq<string>)
    requires |parts| == 4 && forall j :: 0 <= j < 4 ==> Part(parts[j])
    ensures Values(parts, 0) == [Value(parts[0], 10), Value(parts[1], 10), Value(parts[2], 10), Value(parts[3], 10)]
  {
    hide Value;
    assert Part(parts[0]) && Part(parts[1]) && Part(parts[2]) && Part(parts[3]);
    assert Values(parts, 4) == [];
    assert Values(parts, 3) == [Value(parts[3], 10)];
    assert Values(parts, 2) == [Value(parts[2], 10)] + Values(parts, 3);
    assert Values(parts, 1) == [Value(parts[1], 10)] + Values(parts, 2);
  }

  // ----- every text form is parsed

  /** The parser reads a group, and goes on behind it. */
  lemma {:induction false} GroupThen(g: string, rest: string, written: bytes, ellipsis: int)
    requires Group(g) && |written| < 16 && (rest == [] || rest[0] == ':')
    ensures Groups(written, ellipsis, g + rest) == AfterGroup(written + GroupWord(g), ellipsis, rest)
  {
    hide Value, AfterGroup;
    SpanIs(g, rest, true);
    assert (g + rest)[..|g|] == g && (g + rest)[|g|..] == rest;
  }

  /** A dotted address at the end. */
  lemma TailThen(t: Tail, written: bytes, ellipsis: int)
    requires GoodTail(t) && t.DottedTail? && |written| + 4 <= 16 && (ellipsis >= 0 || |written| == 12)
    ensures Groups(written, ellipsis, DottedText(t.parts) + t.junk) == Some(Parsed(written + TailBytes(t), ellipsis))
  {
    hide Value;
    var p := t.parts[0];
    var s := DottedText(t.parts) + t.junk;
    var rest := "." + t.parts[1] + "." + t.parts[2] + "." + t.parts[3] + t.junk;
    assert s == p + rest;
    assert AllHex(p) by { assert Part(p); }
    SpanIs(p, rest, true);
    assert s[..|p|] == p && s[|p|] == '.';
    DecAsHex(p);
    FourParts(t.parts);
    FourValues(t.parts);
    DottedReads(t.parts, 0, t.junk);
  }

  /** A list of groups starts with a digit. */
  lemma JoinStarts(gs: seq<string>, t: Tail)
    requires AllGroups(gs) && GoodTail(t) && Items(gs, t) != []
    ensures Join(Items(gs, t)) != [] && IsHex(Join(Items(gs, t))[0])
  {
    var items := Items(gs, t);
    if gs == [] {
      assert Part(t.parts[0]);
      assert items[0][0] == t.parts[0][0];
    } else {
      assert Group(gs[0]) && items[0] == gs[0];
    }
  }

  lemma WordsFirst(gs: seq<string>, written: bytes, more: bytes)
    requires gs != [] && AllGroups(gs)
    ensures written + GroupWord(gs[0]) + Words(gs[1..]) + more == written + Words(gs) + more
  {
    hide GroupWord;
  }

  lemma NoItems(gs: seq<string>, t: Tail)
    requires AllGroups(gs) && GoodTail(t)
    ensures Join(Items(gs, t)) == [] <==> Items(gs, t) == []
    ensures Items(gs, t) == [] ==> gs == [] && t.NoTail? && Words(gs) == [] && TailBytes(t) == []
  {
    if Items(gs, t) != [] {
      JoinStarts(gs, t);
    }
  }

  /** Groups and a dotted tail, without a gap. */
  lemma {:induction false} ListReads(gs: seq<string>, t: Tail, written: bytes, ellipsis: int)
    requires AllGroups(gs) && GoodTail(t) && Items(gs, t) != []
    requires |written| + 2 * |gs| + |TailBytes(t)| <= 16
    requires t.DottedTail? ==> ellipsis >= 0 || |written| + 2 * |gs| == 12
    ensures Groups(written, ellipsis, Join(Items(gs, t))) == Some(Parsed(written + Words(gs) + TailBytes(t), ellipsis))
    decreases |gs|
  {
    hide GroupWord, Groups, Group, TailBytes;
    if gs == [] {
      TailThen(t, written, ellipsis);
      assert written + Words(gs) == written;
    } else {
      assert Group(gs[0]);
      var rest := Items(gs[1..], t);
      var w := written + GroupWord(gs[0]);
      assert Items(gs, t) == [gs[0]] + rest;
      WordsFirst(gs, written, TailBytes(t));
      if rest == [] {
        GroupThen(gs[0], [], written, ellipsis);
        assert gs[0] + [] == gs[0];
        NoItems(gs[1..], t);
        assert w + Words(gs[1..]) + TailBytes(t) == w;
      } else {
        JoinStarts(gs[1..], t);
        GroupThen(gs[0], ":" + Join(rest), written, ellipsis);
        Reassociate(gs[0], ":", Join(rest));
        ListReads(gs[1..], t, w, ellipsis);
        assert (":" + Join(rest))[1..] == Join(rest);
      }
    }
  }

  lemma JoinGap(left: seq<string>, r: string)
    requires |left| > 1
    ensures Join(left) + "::" + r == left[0] + (":" + (Join(left[1..]) + "::" + r))
  {
    var g, j := left[0], Join(left[1..]);
    assert Join(left) == g + ":" + j;
    hide Join;
    Reassociate(g, ":", j);
    Reassociate(g, ":" + j, "::");
    Reassociate(g, ":" + j + "::", r);
    Reassociate(":", j, "::");
    Reassociate(":", j + "::", r);
  }

  lemma NoGroups()
    ensures Words([]) == [] && Join([]) == []
  {
  }

  lemma JoinOne(items: seq<string>)
    requires |items| == 1
    ensures Join(items) == items[0]
  {
  }

  /** The group in front of the two colons. */
  lemma {:induction false} GapLast(g: string, right: seq<string>, t: Tail, written: bytes)
    requires Group(g) && AllGroups(right) && GoodTail(t) && |written| + 2 + 2 * |right| + |TailBytes(t)| <= 16
    ensures Groups(written, -1, g + "::" + Join(Items(right, t))) ==
            Some(Parsed(written + GroupWord(g) + (Words(right) + TailBytes(t)), |written| + 2))
  {
    hide GroupWord, Groups, Group, TailBytes, Words;
    var r := Join(Items(right, t));
    var w := written + GroupWord(g);
    GroupThen(g, "::" + r, written, -1);
    Reassociate(g, "::", r);
    if Items(right, t) == [] {
      NoItems(right, t);
      assert "::" + r == "::";
      assert w + ([] + []) == w;
    } else {
      JoinStarts(right, t);
      ListReads(right, t, w, |w|);
      assert ("::" + r)[2..] == r;
      Reassociate(w, Words(right), TailBytes(t));
    }
  }

  /** Groups, the two colons, and what is behind them. */
  lemma {:induction false} GapReads(left: seq<string>, right: seq<string>, t: Tail, written: bytes)
    requires left != [] && AllGroups(left) && AllGroups(right) && GoodTail(t)
    requires |written| + 2 * |left| + 2 * |right| + |TailBytes(t)| <= 16
    ensures Groups(written, -1, Join(left) + "::" + Join(Items(right, t))) ==
            Some(Parsed(written + Words(left) + (Words(right) + TailBytes(t)), |written| + 2 * |left|))
    decreases |left|
  {
    hide GroupWord, Groups, Group, TailBytes, Items, Join, Words;
    assert Group(left[0]);
    var r := Join(Items(right, t));
    var w := written + GroupWord(left[0]);
    WordsFirst(left, written, Words(right) + TailBytes(t));
    if |left| == 1 {
      GapLast(left[0], right, t, written);
      JoinOne(left);
      NoGroups();
      assert left[1..] == [] && w + [] == w;
    } else {
      var rest := Join(left[1..]) + "::" + r;
      JoinGap(left, r);
      GapBehind(left, r);
      GroupThen(left[0], ":" + rest, written, -1);
      GapReads(left[1..], right, t, w);
      assert (":" + rest)[1..] == rest;
    }
  }

  /** Behind the first group and its colon comes another group. */
  lemma GapBehind(left: seq<string>, r: string)
    requires |left| > 1 && AllGroups(left)
    ensures var rest := Join(left[1..]) + "::" + r; rest != [] && rest[0] != ':'
  {
    JoinStarts(left[1..], NoTail);
  }

  // ----- nothing else is parsed

  /** Parts in front of i do not show in the text from i on. */
  lemma {:induction false} FromUpdate(parts: seq<string>, j: nat, p: string, i: nat)
    requires j < i <= |parts| == 4 && Part(p) && forall k :: 0 <= k < 4 ==> Part(parts[k])
    ensures From(parts[j := p], i) == From(parts, i) && Values(parts[j := p], i) == Values(parts, i)
    decreases 4 - i
  {
    hide Part;
    if i < 4 {
      FromUpdate(parts, j, p, i + 1);
    }
  }

  lemma SkippedDot(i: nat, s: string)
    ensures SkipDot(i, s).Some? ==> s == Dot(i) + SkipDot(i, s).value
  {
    if s != [] {
      assert s == [s[0]] + s[1..];
      assert [] + s == s;
    }
  }

  lemma PartRead(s: string) returns (p: string)
    requires ReadPart(s).Some?
    ensures Part(p) && s == p + ReadPart(s).value.1 && ReadPart(s).value.0 == Value(p, 10)
    ensures ReadPart(s).value.1 == [] || !IsDec(ReadPart(s).value.1[0])
  {
    p := s[..Span(s, false)];
  }

  /** The part the parser read, and the text it went on with. */
  lemma PartWas(i: nat, s: string) returns (p: string, rest: string)
    requires i < 4 && Dotted(i, s).Some?
    ensures Part(p) && (rest == [] || !IsDec(rest[0])) && s == Dot(i) + p + rest
    ensures Dotted(i + 1, rest).Some? && Dotted(i, s) == Some([Value(p, 10)] + Dotted(i + 1, rest).value)
  {
    hide Value, SkipDot, ReadPart, Dot, Part;
    SkippedDot(i, s);
    var t := SkipDot(i, s).value;
    p := PartRead(t);
    rest := ReadPart(t).value.1;
    Reassociate(Dot(i), p, rest);
  }

  /** What the parser read as a dotted address; entries in front of i are placeholders. */
  lemma {:induction false} DottedWas(i: nat, s: string) returns (parts: seq<string>, junk: string)
    requires i <= 4 && Dotted(i, s).Some? && (i > 0 ==> s == [] || !IsDec(s[0]))
    ensures |parts| == 4 && (forall j :: 0 <= j < 4 ==> Part(parts[j])) && (junk == [] || !IsDec(junk[0]))
    ensures s == From(parts, i) + junk && Dotted(i, s) == Some(Values(parts, i))
    decreases 4 - i
  {
    if i == 4 {
      parts, junk := ["0", "0", "0", "0"], s;
      assert Value("0", 10) == 0;
      assert s == [] + junk;
    } else {
      hide Dotted, Value, Part, Dot;
      var p, rest := PartWas(i, s);
      var more;
      more, junk := DottedWas(i + 1, rest);
      FromUpdate(more, i, p, i + 1);
      parts := more[i := p];
      assert From(parts, i) == Dot(i) + p + From(parts, i + 1);
      Reassociate(Dot(i) + p, From(parts, i + 1), junk);
      assert Values(parts, i) == [Value(p, 10)] + Values(parts, i + 1);
    }
  }

  /** The text is a dotted address. */
  predicate IsDotted(s: string) {
    var k := Span(s, true);
    k < |s| && s[k] == '.'
  }

  lemma {:induction false} TailWas(written: bytes, ellipsis: int, s: string) returns (t: Tail)
    requires Groups(written, ellipsis, s).Some? && s != [] && IsDotted(s)
    ensures t.DottedTail? && GoodTail(t) && s == DottedText(t.parts) + t.junk
    ensures Groups(written, ellipsis, s) == Some(Parsed(written + TailBytes(t), ellipsis))
    ensures |written| + 4 <= 16 && (ellipsis >= 0 || |written| == 12)
  {
    hide Value;
    assert Dotted(0, s).Some?;
    var parts, junk := DottedWas(0, s);
    t := DottedTail(parts, junk);
    FourParts(parts);
    FourValues(parts);
  }

  lemma GroupWas(written: bytes, ellipsis: int, s: string) returns (g: string, rest: string)
    requires Groups(written, ellipsis, s).Some? && s != [] && !IsDotted(s)
    ensures Group(g) && s == g + rest && |written| < 16
    ensures Groups(written, ellipsis, s) == AfterGroup(written + GroupWord(g), ellipsis, rest)
  {
    hide AfterGroup;
    var k := Span(s, true);
    g, rest := s[..k], s[k..];
  }

  /** What the loop has read is a list of groups, with a gap only if there was none before. */
  ghost predicate Reads(written: bytes, ellipsis: int, s: string, p: Parsed, f: Form) {
    && AllGroups(f.left) && AllGroups(f.right) && GoodTail(f.tail)
    && (if f.gap then ellipsis < 0 && f.left != [] else f.right == [] && Items(f.left, f.tail) != [])
    && s == Print(f)
    && p.written == written + Words(f.left) + (Words(f.right) + TailBytes(f.tail))
    && p.ellipsis == (if f.gap then |written| + 2 * |f.left| else ellipsis)
    && (f.tail.DottedTail? && ellipsis < 0 && !f.gap ==> |written| + 2 * |f.left| == 12)
    && |p.written| <= 16
  }

  /** A group in front of a form without a gap, or with one. */
  lemma {:induction false} Prepend(g: string, written: bytes, ellipsis: int, rest: string, p: Parsed, f: Form)
    requires Group(g) && Reads(written + GroupWord(g), ellipsis, rest, p, f)
    ensures Reads(written, ellipsis, g + ":" + rest, p, f.(left := [g] + f.left))
  {
    hide GroupWord, Group, TailBytes;
    var r := f.(left := [g] + f.left);
    assert r.left[1..] == f.left && Words(r.left) == GroupWord(g) + Words(f.left);
    Reassociate(written, GroupWord(g), Words(f.left));
    if f.gap {
      assert Join(r.left) == g + ":" + Join(f.left);
      Reassociate(g + ":", Join(f.left), "::");
      Reassociate(g + ":", Join(f.left) + "::", Join(Items(f.right, f.tail)));
    } else {
      assert Items(r.left, f.tail) == [g] + Items(f.left, f.tail);
      assert ([g] + Items(f.left, f.tail))[1..] == Items(f.left, f.tail);
    }
  }

  /** One group, alone or in front of the gap. */
  lemma Alone(g: string, written: bytes, ellipsis: int, gap: bool)
    requires Group(g) && |written| + 2 <= 16 && (gap ==> ellipsis < 0)
    ensures Reads(written, ellipsis, if gap then g + "::" else g,
                  Parsed(written + GroupWord(g), if gap then |written| + 2 else ellipsis), Form([g], gap, [], NoTail))
  {
    hide GroupWord, Group;
    assert [g][1..] == [] && Words([g]) == GroupWord(g);
    assert written + GroupWord(g) + ([] + []) == written + GroupWord(g);
    assert g + "::" + [] == g + "::";
  }

  /** A group, the gap, and the form behind it. */
  lemma GapFront(g: string, written: bytes, rest: string, p: Parsed, f: Form)
    requires Group(g) && !f.gap && Reads(written + GroupWord(g), |written| + 2, rest, p, f)
    ensures Reads(written, -1, g + "::" + rest, p, Form([g], true, f.left, f.tail))
  {
    hide GroupWord, Group, TailBytes;
    assert [g][1..] == [] && Words([g]) == GroupWord(g);
    assert Words([]) == [];
    Reassociate(written + GroupWord(g), Words(f.left), TailBytes(f.tail));
    assert written + GroupWord(g) + Words(f.left) + ([] + TailBytes(f.tail))
        == written + GroupWord(g) + (Words(f.left) + TailBytes(f.tail));
  }

  /** A dotted address and nothing in front of it. */
  lemma TailAlone(written: bytes, ellipsis: int, t: Tail)
    requires t.DottedTail? && GoodTail(t) && |written| + 4 <= 16 && (ellipsis >= 0 || |written| == 12)
    ensures Reads(written, ellipsis, DottedText(t.parts) + t.junk, Parsed(written + TailBytes(t), ellipsis), Form([], false, [], t))
  {
    hide TailBytes;
    assert written + [] + ([] + TailBytes(t)) == written + TailBytes(t);
    assert Items([], t) == [DottedText(t.parts) + t.junk];
  }

  lemma NoSecondGap(written: bytes, ellipsis: int, s: string, p: Parsed, f: Form)
    requires Reads(written, ellipsis, s, p, f) && ellipsis >= 0
    ensures !f.gap
  {
  }

  lemma {:induction false} GroupsWas(written: bytes, ellipsis: int, s: string) returns (f: Form)
    requires Groups(written, ellipsis, s).Some? && s != [] && |written| % 2 == 0 && ellipsis >= -1
    ensures Reads(written, ellipsis, s, Groups(written, ellipsis, s).value, f)
    decreases |s|
  {
    hide Groups, AfterGroup, GroupWord, Print, Reads;
    if IsDotted(s) {
      var t := TailWas(written, ellipsis, s);
      f := Form([], false, [], t);
      TailAlone(written, ellipsis, t);
    } else {
      var g, rest := GroupWas(written, ellipsis, s);
      f := AfterWas(written, ellipsis, g, rest);
    }
  }

  lemma {:induction false} AfterWas(written: bytes, ellipsis: int, g: string, rest: string) returns (f: Form)
    requires Group(g) && |written| < 16 && |written| % 2 == 0 && ellipsis >= -1
    requires AfterGroup(written + GroupWord(g), ellipsis, rest).Some?
    ensures Reads(written, ellipsis, g + rest, AfterGroup(written + GroupWord(g), ellipsis, rest).value, f)
    decreases |rest|
  {
    hide Groups, Group, GroupWord, Reads, Print;
    var w := written + GroupWord(g);
    if rest == [] {
      Alone(g, written, ellipsis, false);
      f := Form([g], false, [], NoTail);
      assert g + [] == g;
    } else if rest[1] != ':' {
      f := GroupsWas(w, ellipsis, rest[1..]);
      Prepend(g, written, ellipsis, rest[1..], Groups(w, ellipsis, rest[1..]).value, f);
      f := f.(left := [g] + f.left);
      Reassociate(g, ":", rest[1..]);
      assert rest == ":" + rest[1..];
    } else if |rest| == 2 {
      Alone(g, written, ellipsis, true);
      f := Form([g], true, [], NoTail);
      assert rest == "::";
    } else {
      var r := GroupsWas(w, |w|, rest[2..]);
      NoSecondGap(w, |w|, rest[2..], Groups(w, |w|, rest[2..]).value, r);
      GapFront(g, written, rest[2..], Groups(w, |w|, rest[2..]).value, r);
      f := Form([g], true, r.left, r.tail);
      Reassociate(g, "::", rest[2..]);
      assert rest == "::" + rest[2..];
    }
  }

  // ----- the theorems

  lemma {:induction false} DispatchAt(s: string, rest: string, k: nat)
    requires k < |rest| && (rest[k] == '.' || rest[k] == ':')
    requires forall i :: 0 <= i < k ==> rest[i] != '.' && rest[i] != ':'
    ensures Dispatch(rest, s) == if rest[k] == '.' then ParseIPv4(s) else ParseIPv6(s)
    decreases k
  {
    if k > 0 {
      DispatchAt(s, rest[1..], k - 1);
    }
  }

  /** The text of a form is read by parseIPv6. */
  lemma FormIsV6(f: Form)
    requires Good(f)
    ensures ParseIP(Print(f)) == ParseIPv6(Print(f))
  {
    var s := Print(f);
    if f.left == [] {
      assert f.gap && s[0] == ':' by { assert Join(f.left) == []; }
      DispatchAt(s, s, 0);
    } else {
      var g := f.left[0];
      assert Group(g);
      var k := |g|;
      if |f.left| > 1 || !f.gap {
        assert |Items(f.left, f.tail)| > 1;
        assert g + ":" <= s;
        assert s[k] == (g + ":")[k];
      } else {
        assert Join(f.left) == g;
        assert s[k] == ':';
      }
      assert g <= s;
      assert forall i :: 0 <= i < k ==> s[i] == g[i];
      DispatchAt(s, s, k);
    }
  }

  /** Words, and the zeros put between them. */
  lemma Expands(a: bytes, b: bytes)
    requires |a| + |b| < 16
    ensures Expand(Parsed(a + b, |a|)) == Some(a + Zeros(16 - |a| - |b|) + b)
  {
    assert (a + b)[..|a|] == a && (a + b)[|a|..] == b;
  }

  /** A form that begins with the gap. */
  lemma GapFirstParses(f: Form)
    requires Good(f) && f.gap && f.left == []
    ensures ParseIPv6(Print(f)) == Some(Address(f))
  {
    hide Groups, TailBytes, Items, Words, Group, Join;
    var s, r := Print(f), Join(Items(f.right, f.tail));
    var tail := Words(f.right) + TailBytes(f.tail);
    NoGroups();
    NoItems(f.right, f.tail);
    Expands([], tail);
    assert s == "::" + r && s[2..] == r && [] + tail == tail;
    if r != [] {
      ListReads(f.right, f.tail, [], 0);
      assert [] + Words(f.right) == Words(f.right);
    } else {
      assert Address(f) == Zeros(16);
    }
  }

  lemma NoTailItems(gs: seq<string>)
    ensures Items(gs, NoTail) == gs
  {
  }

  /** A form with the gap behind some group. */
  lemma GapParses(f: Form)
    requires Good(f) && f.gap && f.left != []
    ensures ParseIPv6(Print(f)) == Some(Address(f))
  {
    hide Groups, TailBytes, Items, Words, Group, Join;
    var tail := Words(f.right) + TailBytes(f.tail);
    Expands(Words(f.left), tail);
    GapReads(f.left, f.right, f.tail, []);
    assert [] + Words(f.left) == Words(f.left);
    NoTailItems(f.left);
    JoinStarts(f.left, NoTail);
    assert Print(f)[0] == Join(f.left)[0];
  }

  lemma ListHasItems(f: Form)
    requires Good(f) && !f.gap
    ensures Items(f.left, f.tail) != []
  {
  }

  /** A form without a gap. */
  lemma ListParses(f: Form)
    requires Good(f) && !f.gap
    ensures ParseIPv6(Print(f)) == Some(Address(f))
  {
    hide Groups, TailBytes, Items, Words, Group, Join;
    ListHasItems(f);
    ListReads(f.left, f.tail, [], -1);
    assert [] + Words(f.left) == Words(f.left);
    JoinStarts(f.left, f.tail);
  }

  /** Every text form of an address is parsed to exactly its 16 bytes. */
  lemma FormParses(f: Form)
    requires Good(f)
    ensures ParseIPv6(Print(f)) == Some(Address(f))
  {
    if !f.gap {
      ListParses(f);
    } else if f.left == [] {
      GapFirstParses(f);
    } else {
      GapParses(f);
    }
  }

  /** A text that begins with the two colons. */
  lemma ColonsWas(s: string) returns (f: Form)
    requires |s| > 2 && s[0] == ':' && s[1] == ':' && ParseIPv6(s).Some?
    ensures Good(f) && Print(f) == s && ParseIPv6(s) == Some(Address(f))
  {
    hide Groups, TailBytes, Items, Group, GroupWord, Join, Words;
    NoGroups();
    var r := GroupsWas([], 0, s[2..]);
    f := Form([], true, r.left, r.tail);
    var p := Groups([], 0, s[2..]).value;
    var w := Words(r.left) + TailBytes(r.tail);
    assert p.written == w by { assert [] + Words(r.left) + ([] + TailBytes(r.tail)) == w; }
    Expands([], w);
    assert [] + w == w;
    assert s == [] + "::" + s[2..];
  }

  /** A text that does not. */
  lemma ListWas(s: string) returns (f: Form)
    requires !(|s| >= 2 && s[0] == ':' && s[1] == ':') && ParseIPv6(s).Some?
    ensures Good(f) && Print(f) == s && ParseIPv6(s) == Some(Address(f))
  {
    hide TailBytes, Items, Group, GroupWord, Join, Value, Print;
    assert s != [];
    hide Groups;
    f := GroupsWas([], -1, s);
    var p := Groups([], -1, s).value;
    var a, b := Words(f.left), Words(f.right) + TailBytes(f.tail);
    assert p.written == a + b by { assert [] + a == a; }
    if f.gap {
      Expands(a, b);
    } else {
      assert b == TailBytes(f.tail);
    }
  }

  /** What parseIPv6 accepts is the text of a form. */
  lemma FormWas(s: string) returns (f: Form)
    requires ParseIPv6(s).Some?
    ensures Good(f) && Print(f) == s && ParseIPv6(s) == Some(Address(f))
  {
    if |s| >= 2 && s[0] == ':' && s[1] == ':' {
      if |s| == 2 {
        f := Form([], true, [], NoTail);
        assert s == "::" && Print(f) == [] + "::" + [];
        assert [] + Zeros(16) + ([] + []) == Zeros(16);
      } else {
        f := ColonsWas(s);
      }
    } else {
      f := ListWas(s);
    }
  }

  /** A dotted address, with text behind it that does not matter. */
  lemma DottedParses(t: Tail)
    requires t.DottedTail? && GoodTail(t)
    ensures ParseIP(DottedText(t.parts) + t.junk) == Some(Mapped(TailBytes(t)))
  {
    hide Value, Dotted, ParseIPv6;
    var s := DottedText(t.parts) + t.junk;
    var p := t.parts[0];
    assert Part(p);
    FourParts(t.parts);
    FourValues(t.parts);
    DottedReads(t.parts, 0, t.junk);
    assert p + "." <= s;
    assert s[|p|] == (p + ".")[|p|] && forall i :: 0 <= i < |p| ==> s[i] == p[i];
    DispatchAt(s, s, |p|);
  }

  lemma {:induction false} DispatchWas(s: string, rest: string)
    requires Dispatch(rest, s).Some?
    ensures Dispatch(rest, s) == ParseIPv4(s) || Dispatch(rest, s) == ParseIPv6(s)
  {
    if rest[0] != '.' && rest[0] != ':' {
      DispatchWas(s, rest[1..]);
    }
  }

  /** The text `s` is a form of the address, or a dotted form of one that is mapped. */
  ghost predicate Means(s: string, ip: bytes) {
    || (exists f :: Good(f) && Print(f) == s && Address(f) == ip)
    || (exists t: Tail :: t.DottedTail? && GoodTail(t) && DottedText(t.parts) + t.junk == s && Mapped(TailBytes(t)) == ip)
  }

  lemma TailValues(t: Tail)
    requires t.DottedTail? && GoodTail(t)
    ensures TailBytes(t) == Values(t.parts, 0)
  {
    FourValues(t.parts);
  }

  /** parseIP returns an address exactly for the texts that stand for it. */
  lemma ParseIPExactly(s: string, ip: bytes)
    ensures ParseIP(s) == Some(ip) <==> Means(s, ip)
  {
    hide Groups, Words, Items, TailBytes, Mapped, ParseIPv6, Address, Print, AllGroups, Part, Group;
    if ParseIP(s) == Some(ip) {
      DispatchWas(s, s);
      if ParseIPv6(s) == Some(ip) {
        var f := FormWas(s);
      } else {
        var parts, junk := DottedWas(0, s);
        FourParts(parts);
        FourValues(parts);
        var t := DottedTail(parts, junk);
        TailValues(t);
      }
    }
    if Means(s, ip) {
      if f :| Good(f) && Print(f) == s && Address(f) == ip {
        FormIsV6(f);
        FormParses(f);
      } else {
        var t: Tail :| t.DottedTail? && GoodTail(t) && DottedText(t.parts) + t.junk == s && Mapped(TailBytes(t)) == ip;
        DottedParses(t);
      }
    }
  }

  // ----- every address has a text

  function HexChar(d: nat): (c: char)
    requires d < 16
    ensures IsHex(c) && Digit(c) == d
  {
    if d < 10 then '0' + d as char else 'a' + (d - 10) as char
  }

  function HexNumeral(n: nat): (s: string)
    ensures s != [] && AllHex(s)
  {
    if n < 16 then [HexChar(n)] else HexNumeral(n / 16) + [HexChar(n % 16)]
  }

  lemma {:induction false} HexNumeralValue(n: nat)
    ensures Value(HexNumeral(n), 16) == n
  {
    var s := HexNumeral(n);
    if n < 16 {
      assert s[..0] == [];
    } else {
      HexNumeralValue(n / 16);
      assert s[..|s| - 1] == HexNumeral(n / 16);
    }
  }

  /** Two bytes as a group. */
  function GroupAt(hi: byte, lo: byte): (g: string)
    ensures Group(g) && GroupWord(g) == [hi, lo]
  {
    var n := hi as int * 256 + lo as int;
    HexNumeralValue(n);
    HexNumeral(n)
  }

  function GroupsOf(ip: bytes): seq<string>
    requires |ip| % 2 == 0
  {
    if ip == [] then [] else [GroupAt(ip[0], ip[1])] + GroupsOf(ip[2..])
  }

  lemma {:induction false} GroupsOfAre(ip: bytes)
    requires |ip| % 2 == 0
    ensures 2 * |GroupsOf(ip)| == |ip| && AllGroups(GroupsOf(ip)) && Words(GroupsOf(ip)) == ip
  {
    if ip != [] {
      hide GroupAt, Group, GroupWord;
      GroupsOfAre(ip[2..]);
      assert GroupsOf(ip)[1..] == GroupsOf(ip[2..]);
      assert ip == [ip[0], ip[1]] + ip[2..];
    }
  }

  /** Every 16-byte address, printed as eight groups, is parsed back. */
  lemma {:induction false} AddressRoundTrip(ip: bytes)
    requires |ip| == 16
    ensures Good(Form(GroupsOf(ip), false, [], NoTail))
    ensures ParseIP(Print(Form(GroupsOf(ip), false, [], NoTail))) == Some(ip)
  {
    var f := Form(GroupsOf(ip), false, [], NoTail);
    GroupsOfAre(ip);
    hide Print, GroupsOf, Words, ParseIP, ParseIPv6;
    FormIsV6(f);
    FormParses(f);
    assert Words(f.left) + TailBytes(NoTail) == ip;
  }
}
