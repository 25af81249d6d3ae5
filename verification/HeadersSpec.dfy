/** Message headers as values: their text, and reading it back (core/src/headers.ts). */
module HeadersSpec {
  import opened Bytes
  import opened Text

  datatype Match = Exact | CanonicalMIME | IgnoreCase

  /** One entry of the `headers` Map; the entries are in insertion order. */
  datatype Field = Field(key: string, values: seq<string>)

  datatype Headers = Headers(code: int, description: string, fields: seq<Field>)

  datatype Result<T> = Ok(value: T) | InvalidArgument

  const HEADER := "NATS/1.0"

  // ----- names

  predicate IsLower(c: char) {
    'a' <= c <= 'z'
  }

  predicate IsUpper(c: char) {
    'A' <= c <= 'Z'
  }

  function Upper(c: char): char {
    if IsLower(c) then c - 32 as char else c
  }

  function Lower(c: char): char {
    if IsUpper(c) then c + 32 as char else c
  }

  /** A character of a name, as in section 3.1.2 of RFC 822. */
  predicate NameChar(c: char) {
    33 <= c as int <= 126 && c != ':'
  }

  predicate ValidName(k: string) {
    forall i :: 0 <= i < |k| ==> NameChar(k[i])
  }

  /** Upper case at the start and after a dash, lower case elsewhere. */
  function CanonicalChar(k: string, i: nat): char
    requires i < |k|
  {
    if i == 0 || k[i - 1] == '-' then Upper(k[i]) else Lower(k[i])
  }

  function CanonicalName(k: string): (c: string)
    ensures |c| == |k|
  {
    seq(|k|, i requires 0 <= i < |k| => CanonicalChar(k, i))
  }

  function LowerCase(k: string): (c: string)
    ensures |c| == |k|
  {
    seq(|k|, i requires 0 <= i < |k| => Lower(k[i]))
  }

  function Canonical(k: string): Result<string> {
    if ValidName(k) then Ok(CanonicalName(k)) else InvalidArgument
  }

  /** A canonical name stays as it is. */
  lemma CanonicalIdempotent(k: string)
    requires ValidName(k)
    ensures ValidName(CanonicalName(k)) && CanonicalName(CanonicalName(k)) == CanonicalName(k)
  {
    var c := CanonicalName(k);
    forall i | 0 <= i < |k|
      ensures NameChar(c[i]) && CanonicalChar(c, i) == c[i]
    {
      assert NameChar(k[i]);
      if i > 0 {
        assert c[i - 1] == CanonicalChar(k, i - 1);
        assert (c[i - 1] == '-') == (k[i - 1] == '-');
      }
    }
  }

  /** Two names have the same canonical form exactly when they differ at most in case. */
  lemma CanonicalIffSameLetters(j: string, k: string)
    ensures CanonicalName(j) == CanonicalName(k) <==> LowerCase(j) == LowerCase(k)
  {
    if CanonicalName(j) == CanonicalName(k) {
      forall i | 0 <= i < |j|
        ensures Lower(j[i]) == Lower(k[i])
      {
        assert CanonicalName(j)[i] == CanonicalName(k)[i];
      }
    }
    if LowerCase(j) == LowerCase(k) {
      forall i | 0 <= i < |j|
        ensures CanonicalChar(j, i) == CanonicalChar(k, i)
      {
        assert LowerCase(j)[i] == LowerCase(k)[i];
        if i > 0 {
          assert LowerCase(j)[i - 1] == LowerCase(k)[i - 1];
        }
      }
    }
  }

  /** The first letter, and a letter behind a dash. */
  predicate Initial(k: string, i: nat)
    requires i < |k|
  {
    i == 0 || k[i - 1] == '-'
  }

  /** Capitals at the start and behind each dash, and nowhere else. */
  predicate Capitalised(c: string) {
    forall i :: 0 <= i < |c| ==> if Initial(c, i) then !IsLower(c[i]) else !IsUpper(c[i])
  }

  lemma CanonicalCapitals(k: string)
    ensures LowerCase(CanonicalName(k)) == LowerCase(k) && Capitalised(CanonicalName(k))
  {
    var n := CanonicalName(k);
    forall i | 0 <= i < |k|
      ensures Lower(n[i]) == Lower(k[i])
      ensures if Initial(n, i) then !IsLower(n[i]) else !IsUpper(n[i])
    {
      assert n[i] == CanonicalChar(k, i);
      if i > 0 {
        assert n[i - 1] == CanonicalChar(k, i - 1);
      }
    }
  }

  lemma SameCapitals(c: string, d: string)
    requires LowerCase(c) == LowerCase(d) && Capitalised(c) && Capitalised(d)
    ensures c == d
  {
    forall i | 0 <= i < |c|
      ensures c[i] == d[i]
    {
      assert Lower(c[i]) == LowerCase(c)[i] == LowerCase(d)[i] == Lower(d[i]);
      if i > 0 {
        assert Lower(c[i - 1]) == LowerCase(c)[i - 1] == LowerCase(d)[i - 1] == Lower(d[i - 1]);
      }
      assert Initial(c, i) == Initial(d, i);
    }
  }

  /** The canonical form is the one text with the same letters and capitals in these places. */
  lemma CanonicalExactly(k: string, c: string)
    ensures c == CanonicalName(k) <==> LowerCase(c) == LowerCase(k) && Capitalised(c)
  {
    hide CanonicalName, LowerCase, Capitalised;
    CanonicalCapitals(k);
    if LowerCase(c) == LowerCase(k) && Capitalised(c) {
      SameCapitals(c, CanonicalName(k));
    }
  }

  /** A name is refused exactly when some character of it is a blank, a control, a colon or beyond ASCII. */
  lemma NamesExactly(k: string)
    ensures Canonical(k) == InvalidArgument <==> exists i :: 0 <= i < |k| && (k[i] <= ' ' || k[i] == ':' || k[i] > '~')
    ensures Canonical(k).Ok? ==> Canonical(k).value == CanonicalName(k)
  {
    if !ValidName(k) {
      var i :| 0 <= i < |k| && !NameChar(k[i]);
      assert k[i] <= ' ' || k[i] == ':' || k[i] > '~';
    }
  }

  // ----- finding, appending, deleting

  predicate Matches(key: string, k: string, match1: Match) {
    match match1
    case Exact => key == k
    case CanonicalMIME => key == CanonicalName(k)
    case IgnoreCase => LowerCase(key) == LowerCase(k)
  }

  function KeysOf(fields: seq<Field>): (r: seq<string>)
    ensures |r| == |fields|
  {
    seq(|fields|, i requires 0 <= i < |fields| => fields[i].key)
  }

  /** The keys that match, in order. */
  function Filter(fields: seq<Field>, k: string, match1: Match): seq<string> {
    if fields == [] then []
    else
      var key := fields[|fields| - 1].key;
      Filter(fields[..|fields| - 1], k, match1) + (if Matches(key, k, match1) then [key] else [])
  }

  function FindKeys(fields: seq<Field>, k: string, match1: Match): Result<seq<string>> {
    if match1.CanonicalMIME? && !ValidName(k) then InvalidArgument else Ok(Filter(fields, k, match1))
  }

  /** Where a key has its entry, or the number of entries. */
  function Position(fields: seq<Field>, k: string): (i: nat)
    ensures i <= |fields| && (i < |fields| ==> fields[i].key == k)
    ensures forall j :: 0 <= j < i ==> fields[j].key != k
  {
    if fields == [] || fields[0].key == k then 0
    else
      assert forall j :: 0 < j < |fields| ==> fields[j] == fields[1..][j - 1];
      1 + Position(fields[1..], k)
  }

  /** Adds a value to the entry of a key, which is made if there is none. */
  function Put(fields: seq<Field>, k: string, v: string): seq<Field> {
    var i := Position(fields, k);
    if i < |fields| then fields[i := Field(k, fields[i].values + [v])] else fields + [Field(k, [v])]
  }

  /** The values of a key. */
  function ValuesOf(fields: seq<Field>, k: string): seq<string> {
    var i := Position(fields, k);
    if i < |fields| then fields[i].values else []
  }

  function Without(fields: seq<Field>, k: string, match1: Match): seq<Field> {
    if fields == [] then []
    else
      var last := fields[|fields| - 1];
      Without(fields[..|fields| - 1], k, match1) + (if Matches(last.key, k, match1) then [] else [last])
  }

  /** The key `append` uses: the first that matches, or the given one. */
  function Target(fields: seq<Field>, k: string, match1: Match): string {
    var k1 := if match1.CanonicalMIME? then CanonicalName(k) else k;
    var keys := Filter(fields, k1, match1);
    if keys != [] then keys[0] else k1
  }

  function Appended(fields: seq<Field>, k: string, v: string, match1: Match): Result<seq<Field>> {
    if ValidName(k) && OneLine(v) then Ok(Put(fields, Target(fields, k, match1), Trim(v))) else InvalidArgument
  }

  function Deleted(fields: seq<Field>, k: string, match1: Match): Result<seq<Field>> {
    if match1.CanonicalMIME? && !ValidName(k) then InvalidArgument else Ok(Without(fields, k, match1))
  }

  // ----- what the operations keep

  predicate GoodField(f: Field) {
    ValidName(f.key) && f.values != [] && forall i :: 0 <= i < |f.values| ==> OneLine(f.values[i]) && Trimmed(f.values[i])
  }

  predicate GoodFields(fields: seq<Field>) {
    && (forall i :: 0 <= i < |fields| ==> GoodField(fields[i]))
    && (forall i, j :: 0 <= i < j < |fields| ==> fields[i].key != fields[j].key)
  }

  /** What `headers(code, description)` makes, with a trimmed one-line description. */
  predicate GoodStatus(code: int, description: string) {
    && (code == 0 ==> description == []) && (code > 0 ==> description != [])
    && OneLine(description) && Trimmed(description)
  }

  predicate Good(h: Headers) {
    GoodStatus(h.code, h.description) && GoodFields(h.fields)
  }

  lemma PutGood(fields: seq<Field>, k: string, v: string)
    requires GoodFields(fields) && ValidName(k) && OneLine(v) && Trimmed(v)
    ensures GoodFields(Put(fields, k, v))
  {
    var i := Position(fields, k);
    if i < |fields| {
      assert GoodField(fields[i]);
    }
  }

  lemma PositionIs(fields: seq<Field>, k: string, i: nat)
    requires i <= |fields| && (i < |fields| ==> fields[i].key == k)
    requires forall j :: 0 <= j < i ==> fields[j].key != k
    ensures Position(fields, k) == i
  {
  }

  /** Adding a value changes the values of that key, at their end, and of no other. */
  lemma PutIs(fields: seq<Field>, k: string, v: string, x: string)
    ensures ValuesOf(Put(fields, k, v), x) == ValuesOf(fields, x) + (if x == k then [v] else [])
  {
    var r := Put(fields, k, v);
    var i, p := Position(fields, k), Position(fields, x);
    if x == k {
      PositionIs(r, k, i);
    } else {
      PositionIs(r, x, if p < |fields| then p else |r|);
    }
  }

  lemma {:induction false} WithoutGood(fields: seq<Field>, k: string, match1: Match)
    requires GoodFields(fields)
    ensures GoodFields(Without(fields, k, match1))
    ensures forall f :: f in Without(fields, k, match1) <==> f in fields && !Matches(f.key, k, match1)
  {
    if fields != [] {
      var n := |fields| - 1;
      WithoutGood(fields[..n], k, match1);
      assert fields == fields[..n] + [fields[n]];
      var r := Without(fields[..n], k, match1);
      forall i | 0 <= i < |r|
        ensures r[i].key != fields[n].key
      {
        assert r[i] in fields[..n];
      }
    }
  }

  lemma {:induction false} FilterIs(fields: seq<Field>, k: string, match1: Match)
    ensures forall i :: 0 <= i < |Filter(fields, k, match1)| ==>
              Matches(Filter(fields, k, match1)[i], k, match1) && Filter(fields, k, match1)[i] in KeysOf(fields)
  {
    if fields != [] {
      var n := |fields| - 1;
      FilterIs(fields[..n], k, match1);
      assert KeysOf(fields) == KeysOf(fields[..n]) + [fields[n].key];
    }
  }

  lemma {:induction false} FilterAll(fields: seq<Field>, k: string, match1: Match, key: string)
    ensures key in Filter(fields, k, match1) <==> key in KeysOf(fields) && Matches(key, k, match1)
  {
    if fields != [] {
      var n := |fields| - 1;
      FilterAll(fields[..n], k, match1, key);
      assert KeysOf(fields) == KeysOf(fields[..n]) + [fields[n].key];
    }
  }

  /**
   * Looking for a key finds exactly the keys that match, each once; only a canonical search looks at
   * the name.
   */
  lemma FindsExactly(fields: seq<Field>, k: string, match1: Match, key: string)
    requires GoodFields(fields)
    ensures FindKeys(fields, k, match1) == InvalidArgument <==> match1.CanonicalMIME? && !ValidName(k)
    ensures var r := FindKeys(fields, k, match1);
            r.Ok? ==> (key in r.value <==> key in KeysOf(fields) && Matches(key, k, match1))
                      && forall i, j :: 0 <= i < j < |r.value| ==> r.value[i] != r.value[j]
  {
    FilterAll(fields, k, match1, key);
    FilterDistinct(fields, k, match1);
  }

  lemma {:induction false} FilterDistinct(fields: seq<Field>, k: string, match1: Match)
    requires forall i, j :: 0 <= i < j < |fields| ==> fields[i].key != fields[j].key
    ensures forall i, j :: 0 <= i < j < |Filter(fields, k, match1)| ==> Filter(fields, k, match1)[i] != Filter(fields, k, match1)[j]
  {
    if fields != [] {
      hide Matches;
      var n := |fields| - 1;
      FilterDistinct(fields[..n], k, match1);
      FilterAll(fields[..n], k, match1, fields[n].key);
    }
  }

  /** The key a value goes to: one that matches, and a valid name. */
  lemma TargetIs(fields: seq<Field>, k: string, match1: Match)
    requires GoodFields(fields) && ValidName(k)
    ensures ValidName(Target(fields, k, match1))
    ensures match match1
            case Exact => Target(fields, k, match1) == k
            case CanonicalMIME => Target(fields, k, match1) == CanonicalName(k)
            case IgnoreCase => LowerCase(Target(fields, k, match1)) == LowerCase(k)
  {
    CanonicalIdempotent(k);
    var k1 := if match1.CanonicalMIME? then CanonicalName(k) else k;
    FilterIs(fields, k1, match1);
    var keys := Filter(fields, k1, match1);
    if keys != [] {
      var i :| 0 <= i < |fields| && KeysOf(fields)[i] == keys[0];
      assert GoodField(fields[i]);
    }
  }

  // ----- building headers

  datatype Op =
    | Append(k: string, v: string, match1: Match)
    | Set(k: string, v: string, match1: Match)
    | Delete(k: string, match1: Match)

  function Make(code: int, description: string): Result<Headers> {
    if (code == 0 && description != []) || (code > 0 && description == []) then InvalidArgument
    else Ok(Headers(code, description, []))
  }

  /**
   * `headers` wants a description exactly with a positive code, and none with 0; a negative code takes
   * either.
   */
  lemma MakeExactly(code: int, description: string)
    ensures Make(code, description) ==
              if code < 0 || (code > 0 && description != []) || (code == 0 && description == []) then Ok(Headers(code, description, []))
              else InvalidArgument
  {
  }

  function AfterAppend(fields: seq<Field>, k: string, v: string, match1: Match): seq<Field> {
    match Appended(fields, k, v, match1)
    case Ok(r) => r
    case InvalidArgument => fields
  }

  /** The headers after an operation, whether it throws or not; a failing `set` has deleted. */
  function Apply(h: Headers, op: Op): Headers {
    match op
    case Append(k, v, m) => h.(fields := AfterAppend(h.fields, k, v, m))
    case Delete(k, m) => (match Deleted(h.fields, k, m) case Ok(r) => h.(fields := r) case InvalidArgument => h)
    case Set(k, v, m) =>
      match Deleted(h.fields, k, m)
      case Ok(r) => h.(fields := AfterAppend(r, k, v, m))
      case InvalidArgument => h
  }

  function ApplyAll(h: Headers, ops: seq<Op>): Headers
    decreases |ops|
  {
    if ops == [] then h else ApplyAll(Apply(h, ops[0]), ops[1..])
  }

  /** The entry of a key says its values; without an entry it has none. */
  lemma ValuesAre(fields: seq<Field>, x: string, f: Field)
    requires GoodFields(fields)
    ensures f in fields && f.key == x ==> ValuesOf(fields, x) == f.values
    ensures (forall g :: g in fields ==> g.key != x) ==> ValuesOf(fields, x) == []
  {
    hide GoodField;
    if f in fields && f.key == x {
      var i :| 0 <= i < |fields| && fields[i] == f;
      PositionIs(fields, x, i);
    }
  }

  /** The values of a key after a deletion: none if it matches, else as before. */
  lemma {:induction false} WithoutIs(fields: seq<Field>, k: string, match1: Match, x: string)
    requires GoodFields(fields)
    ensures ValuesOf(Without(fields, k, match1), x) == if Matches(x, k, match1) then [] else ValuesOf(fields, x)
  {
    hide GoodFields, Matches, ValuesOf;
    var r := Without(fields, k, match1);
    WithoutGood(fields, k, match1);
    var none := Field(x, []);
    if f :| f in fields && f.key == x {
      ValuesAre(fields, x, f);
      ValuesAre(r, x, f);
    } else {
      ValuesAre(fields, x, none);
      ValuesAre(r, x, none);
    }
  }

  lemma {:induction false} NothingLeft(fields: seq<Field>, k: string, match1: Match)
    requires forall i :: 0 <= i < |fields| ==> !Matches(fields[i].key, k, match1)
    ensures Filter(fields, k, match1) == []
  {
    if fields != [] {
      NothingLeft(fields[..|fields| - 1], k, match1);
    }
  }

  /** The key that `set` leaves its value under. */
  function SetKey(k: string, match1: Match): string {
    if match1.CanonicalMIME? then CanonicalName(k) else k
  }

  lemma SetTarget(fields: seq<Field>, k: string, match1: Match)
    requires GoodFields(fields) && ValidName(k)
    ensures Target(Without(fields, k, match1), k, match1) == SetKey(k, match1)
  {
    if match1.CanonicalMIME? {
      CanonicalIdempotent(k);
      FilterIs(Without(fields, k, match1), CanonicalName(k), match1);
    } else {
      WithoutGood(fields, k, match1);
      NothingLeft(Without(fields, k, match1), k, match1);
    }
  }

  /**
   * `set` leaves exactly the one value under its key, takes every other matching key away, and changes
   * no other.
   */
  lemma {:induction false} SetIs(h: Headers, k: string, v: string, match1: Match, x: string)
    requires Good(h) && ValidName(k) && OneLine(v)
    ensures ValuesOf(Apply(h, Set(k, v, match1)).fields, x) ==
              if x == SetKey(k, match1) then [Trim(v)]
              else if Matches(x, k, match1) then []
              else ValuesOf(h.fields, x)
  {
    hide Trim, OneLine, GoodStatus, GoodFields, Target, ValuesOf, Put;
    var r := Without(h.fields, k, match1);
    SetTarget(h.fields, k, match1);
    PutIs(r, SetKey(k, match1), Trim(v), x);
    WithoutIs(h.fields, k, match1, x);
    assert Matches(SetKey(k, match1), k, match1);
  }

  /** `append` adds the value at the end of its key's, and `delete` takes the values of matching keys away. */
  lemma {:induction false} AppendAndDeleteAre(h: Headers, k: string, v: string, match1: Match, x: string)
    requires Good(h) && ValidName(k) && OneLine(v)
    ensures ValuesOf(Apply(h, Append(k, v, match1)).fields, x) ==
              ValuesOf(h.fields, x) + (if x == Target(h.fields, k, match1) then [Trim(v)] else [])
    ensures ValuesOf(Apply(h, Delete(k, match1)).fields, x) == if Matches(x, k, match1) then [] else ValuesOf(h.fields, x)
  {
    hide Trim, OneLine, GoodStatus, GoodFields, Target, ValuesOf, Put;
    PutIs(h.fields, Target(h.fields, k, match1), Trim(v), x);
    WithoutIs(h.fields, k, match1, x);
  }

  lemma {:induction false} AppendGood(fields: seq<Field>, k: string, v: string, match1: Match)
    requires GoodFields(fields)
    ensures GoodFields(AfterAppend(fields, k, v, match1))
  {
    if ValidName(k) && OneLine(v) {
      TargetIs(fields, k, match1);
      TrimIs(v);
      PutGood(fields, Target(fields, k, match1), Trim(v));
    }
  }

  lemma {:induction false} ApplyAllGood(h: Headers, ops: seq<Op>)
    requires Good(h)
    ensures Good(ApplyAll(h, ops)) && ApplyAll(h, ops).code == h.code && ApplyAll(h, ops).description == h.description
    decreases |ops|
  {
    hide GoodFields, GoodStatus;
    if ops != [] {
      var op := ops[0];
      WithoutGood(h.fields, op.k, op.match1);
      if !op.Delete? {
        AppendGood(h.fields, op.k, op.v, op.match1);
        AppendGood(Without(h.fields, op.k, op.match1), op.k, op.v, op.match1);
      }
      ApplyAllGood(Apply(h, op), ops[1..]);
    }
  }

  // ----- text

  function FieldLines(f: Field): (r: seq<string>)
    ensures |r| == |f.values|
  {
    seq(|f.values|, i requires 0 <= i < |f.values| => f.key + ": " + f.values[i])
  }

  function Lines(fields: seq<Field>): seq<string> {
    if fields == [] then [] else Lines(fields[..|fields| - 1]) + FieldLines(fields[|fields| - 1])
  }

  function StatusLine(code: int, description: string): string {
    if code > 0 && description != [] then HEADER + " " + IntText(code) + " " + description else HEADER
  }

  function ToText(h: Headers): string {
    if h.fields == [] && h.code == 0 then []
    else JoinLines([StatusLine(h.code, h.description)] + Lines(h.fields) + ["", ""])
  }

  function ReadStatus(line: string): (int, string) {
    var str := Trim(Erase(line, HEADER));
    if line == HEADER || str == [] then (0, "")
    else
      var code := match ParseInt(str) case Number(n) => n case NaN => 0;
      (code, Trim(Erase(str, IntText(code))))
  }

  function AddLine(fields: seq<Field>, line: string): Result<seq<Field>> {
    var i := IndexOf(line, ":");
    if line == [] || i > |line| then Ok(fields)
    else Appended(fields, line[..i], Trim(line[i + 1..]), Exact)
  }

  function ReadLines(lines: seq<string>): Result<seq<Field>> {
    if lines == [] then Ok([])
    else
      match ReadLines(lines[..|lines| - 1])
      case InvalidArgument => InvalidArgument
      case Ok(fields) => AddLine(fields, lines[|lines| - 1])
  }

  function FromText(s: string): Result<Headers> {
    var lines := Split([], s);
    var status := ReadStatus(lines[0]);
    match ReadLines(lines[1..])
    case InvalidArgument => InvalidArgument
    case Ok(fields) => Ok(Headers(status.0, status.1, fields))
  }

  // ----- the round trip

  lemma ColonAt(k: string, rest: string)
    requires ':' !in k
    ensures IndexOf(k + ":" + rest, ":") == |k|
  {
    if k != [] {
      var s := k + ":" + rest;
      assert k[0] in k && s[0] == k[0];
      assert s[1..] == k[1..] + ":" + rest;
      assert forall c :: c in k[1..] ==> c in k;
      ColonAt(k[1..], rest);
    }
  }

  lemma {:induction false} NoColon(s: string)
    requires ':' !in s
    ensures IndexOf(s, ":") > |s|
  {
    if s != [] {
      assert s[0] in s;
      NoColon(s[1..]);
    }
  }

  /**
   * A line without a colon is passed over; another one has a name in front of its first colon, and is
   * refused exactly if that is no name.
   */
  lemma LineExactly(fields: seq<Field>, k: string, rest: string)
    requires ':' !in k && OneLine(rest)
    ensures AddLine(fields, k) == Ok(fields)
    ensures AddLine(fields, k + ":" + rest) ==
              if ValidName(k) then Ok(Put(fields, Target(fields, k, Exact), Trim(rest))) else InvalidArgument
  {
    NoColon(k);
    ColonAt(k, rest);
    var line := k + ":" + rest;
    assert line[..|k|] == k && line[|k| + 1..] == rest;
    hide Target, Put;
    TrimIs(rest);
    TrimIs(Trim(rest));
  }

  /** A line with a name and a trimmed value adds the value to the name's entry. */
  lemma AddsLine(fields: seq<Field>, k: string, v: string)
    requires GoodFields(fields) && ValidName(k) && OneLine(v) && Trimmed(v)
    ensures AddLine(fields, k + ": " + v) == Ok(Put(fields, k, v))
  {
    hide GoodFields, Target, Put;
    var line := k + ": " + v;
    assert line == k + ":" + (" " + v);
    assert forall i :: 0 <= i < |k| ==> NameChar(k[i]);
    ColonAt(k, " " + v);
    assert line[..|k|] == k && line[|k| + 1..] == " " + v;
    TrimIs(v);
    TargetIs(fields, k, Exact);
  }

  /** Reading one more line. */
  lemma ReadsOne(lines: seq<string>, line: string)
    requires ReadLines(lines).Ok?
    ensures ReadLines(lines + [line]) == AddLine(ReadLines(lines).value, line)
  {
    assert (lines + [line])[..|lines|] == lines;
  }

  /** The first m values of one more field are read. */
  lemma {:induction false} ReadsField(lines: seq<string>, fields: seq<Field>, f: Field, m: nat)
    requires ReadLines(lines) == Ok(fields) && GoodFields(fields) && GoodField(f) && m <= |f.values|
    requires forall i :: 0 <= i < |fields| ==> fields[i].key != f.key
    ensures ReadLines(lines + FieldLines(f)[..m]) == Ok(if m == 0 then fields else fields + [Field(f.key, f.values[..m])])
  {
    hide AddLine, ReadLines, Put;
    if m == 0 {
      assert lines + FieldLines(f)[..m] == lines;
    } else {
      var v := f.values[m - 1];
      var cur := if m == 1 then fields else fields + [Field(f.key, f.values[..m - 1])];
      ReadsField(lines, fields, f, m - 1);
      ReadsOne(lines + FieldLines(f)[..m - 1], f.key + ": " + v);
      assert lines + FieldLines(f)[..m] == lines + FieldLines(f)[..m - 1] + [f.key + ": " + v];
      OneMoreGood(fields, f, m - 1);
      AddsLine(cur, f.key, v);
      PutLast(fields, f, m);
    }
  }

  lemma OneMoreGood(fields: seq<Field>, f: Field, m: nat)
    requires GoodFields(fields) && GoodField(f) && m <= |f.values|
    requires forall i :: 0 <= i < |fields| ==> fields[i].key != f.key
    ensures m > 0 ==> GoodFields(fields + [Field(f.key, f.values[..m])])
  {
    if m > 0 {
      var g := Field(f.key, f.values[..m]);
      assert GoodField(g);
      assert forall i :: 0 <= i < |fields| ==> (fields + [g])[i] == fields[i];
    }
  }

  lemma PutLast(fields: seq<Field>, f: Field, m: nat)
    requires 0 < m <= |f.values| && forall i :: 0 <= i < |fields| ==> fields[i].key != f.key
    ensures Put(if m == 1 then fields else fields + [Field(f.key, f.values[..m - 1])], f.key, f.values[m - 1])
         == fields + [Field(f.key, f.values[..m])]
  {
    assert f.values[..m] == f.values[..m - 1] + [f.values[m - 1]];
    if m == 1 {
      PositionIs(fields, f.key, |fields|);
      assert f.values[..m] == [f.values[m - 1]];
    } else {
      var cur := fields + [Field(f.key, f.values[..m - 1])];
      PositionIs(cur, f.key, |fields|);
    }
  }

  lemma ReadsWhole(lines: seq<string>, fields: seq<Field>, f: Field)
    requires ReadLines(lines) == Ok(fields) && GoodFields(fields) && GoodField(f)
    requires forall i :: 0 <= i < |fields| ==> fields[i].key != f.key
    ensures ReadLines(lines + FieldLines(f)) == Ok(fields + [f])
  {
    hide ReadLines, GoodFields, FieldLines;
    ReadsField(lines, fields, f, |f.values|);
    assert FieldLines(f)[..|f.values|] == FieldLines(f) && f.values[..|f.values|] == f.values;
  }

  lemma GoodPrefix(fields: seq<Field>)
    requires GoodFields(fields) && fields != []
    ensures var n := |fields| - 1;
            GoodFields(fields[..n]) && GoodField(fields[n]) && forall i :: 0 <= i < n ==> fields[..n][i].key != fields[n].key
  {
  }

  lemma {:induction false} ReadsLines(fields: seq<Field>)
    requires GoodFields(fields)
    ensures ReadLines(Lines(fields)) == Ok(fields)
  {
    if fields != [] {
      var n := |fields| - 1;
      var f := fields[n];
      assert Lines(fields) == Lines(fields[..n]) + FieldLines(f);
      GoodPrefix(fields);
      hide ReadLines, FieldLines, Lines, GoodField, GoodFields;
      var init := fields[..n];
      assert fields == init + [f];
      ReadsLines(init);
      ReadsWhole(Lines(init), init, f);
    }
  }

  lemma {:induction false} LinesOneLine(fields: seq<Field>)
    requires GoodFields(fields)
    ensures forall i :: 0 <= i < |Lines(fields)| ==> OneLine(Lines(fields)[i])
  {
    if fields != [] {
      var n := |fields| - 1;
      LinesOneLine(fields[..n]);
      var f := fields[n];
      assert GoodField(f);
      forall i | 0 <= i < |f.values|
        ensures OneLine(FieldLines(f)[i])
      {
        assert FieldLines(f)[i] == f.key + ": " + f.values[i];
      }
    }
  }

  /** The status of a positive code, with the header in front taken away. */
  lemma StatusWords(code: nat, description: string)
    requires description != [] && Trimmed(description)
    ensures var str := Decimal(code) + (" " + description);
            Trim(" " + str) == str && str != [] && ParseInt(str) == Number(code)
            && Trim(Erase(str, IntText(code))) == description
  {
    var d := Decimal(code);
    var str := d + (" " + description);
    hide Trim, ParseInt, Erase, Decimal;
    assert str[0] == d[0] && str[|str| - 1] == description[|description| - 1];
    assert IsDec(d[0]);
    TrimIs(str);
    ParseDecimal(code, " " + description);
    ErasePrefix(d, " " + description);
    TrimIs(description);
  }

  lemma StatusParts(header: string, d: string, description: string)
    ensures header + " " + d + " " + description == header + (" " + (d + (" " + description)))
  {
    Reassociate(header + " ", d, " ");
    Reassociate(header + " ", d + " ", description);
    Reassociate(d, " ", description);
    Reassociate(header, " ", d + (" " + description));
  }

  /** A status line of a positive code is read back; of any other code it says nothing. */
  lemma {:induction false} StatusReads(code: int, description: string)
    requires GoodStatus(code, description)
    ensures ReadStatus(StatusLine(code, description)) == if code > 0 then (code, description) else (0, "")
  {
    hide Trim, ParseInt, Erase;
    if code > 0 {
      var d := Decimal(code);
      assert IntText(code) == d;
      hide Decimal, IntText;
      var str := d + (" " + description);
      var line := StatusLine(code, description);
      StatusParts(HEADER, d, description);
      ErasePrefix(HEADER, " " + str);
      StatusWords(code, description);
      assert |line| > |HEADER|;
    }
  }

  lemma StatusOneLine(code: int, description: string)
    requires OneLine(description)
    ensures OneLine(StatusLine(code, description))
  {
    if code > 0 {
      var d := Decimal(code);
      hide Decimal;
      assert forall i :: 0 <= i < |d| ==> IsDec(d[i]);
      assert OneLine(d) && OneLine(HEADER) && OneLine(" ");
    }
  }

  /** The lines of the text, read. */
  lemma BodyReads(fields: seq<Field>)
    requires GoodFields(fields)
    ensures ReadLines(Lines(fields) + ["", ""]) == Ok(fields)
  {
    hide ReadLines, Lines, GoodFields;
    var body := Lines(fields);
    ReadsLines(fields);
    ReadsOne(body, "");
    ReadsOne(body + [""], "");
    assert body + [""] + [""] == body + ["", ""];
  }

  lemma AllOneLine(status: string, body: seq<string>)
    requires OneLine(status) && forall i :: 0 <= i < |body| ==> OneLine(body[i])
    ensures forall i :: 0 <= i < |body| + 3 ==> OneLine(([status] + body + ["", ""])[i])
  {
    assert OneLine("");
    hide OneLine;
  }

  /** The lines of the text. */
  lemma TextLines(h: Headers)
    requires Good(h) && !(h.fields == [] && h.code == 0)
    ensures Split([], ToText(h)) == [StatusLine(h.code, h.description)] + Lines(h.fields) + ["", ""]
  {
    hide StatusLine, GoodFields, Split, JoinLines, Lines, OneLine, Trimmed;
    StatusOneLine(h.code, h.description);
    LinesOneLine(h.fields);
    AllOneLine(StatusLine(h.code, h.description), Lines(h.fields));
    SplitJoin([StatusLine(h.code, h.description)] + Lines(h.fields) + ["", ""]);
  }

  lemma NothingReads()
    ensures FromText([]) == Ok(Headers(0, "", []))
  {
    var none: string := [];
    assert Split(none, none) == [none];
    assert Erase(none, HEADER) == none;
    assert Trim(none) == none;
  }

  lemma FromLines(s: string, status: string, body: seq<string>)
    requires Split([], s) == [status] + body && ReadLines(body).Ok?
    ensures FromText(s) == Ok(Headers(ReadStatus(status).0, ReadStatus(status).1, ReadLines(body).value))
  {
    hide ReadStatus, ReadLines, Split;
    assert ([status] + body)[1..] == body;
  }

  /** What is read back from the text of good headers. */
  lemma ReadBack(h: Headers)
    requires Good(h)
    ensures FromText(ToText(h)) == Ok(if h.code >= 0 then h else Headers(0, "", h.fields))
  {
    if h.fields == [] && h.code == 0 {
      NothingReads();
    } else {
      var body := Lines(h.fields) + ["", ""];
      hide ReadStatus, StatusLine, GoodFields, ReadLines, Split, Lines, OneLine, Trimmed, ToText, FromText;
      TextLines(h);
      StatusReads(h.code, h.description);
      BodyReads(h.fields);
      Reassociate([StatusLine(h.code, h.description)], Lines(h.fields), ["", ""]);
      FromLines(ToText(h), StatusLine(h.code, h.description), body);
    }
  }

  /**
   * Reading back what was printed gives the same code, description, keys and values, in order,
   * exactly when the code is not negative: `toString` does not print a negative one.
   */
  lemma RoundTripExactly(h: Headers)
    requires Good(h)
    ensures FromText(ToText(h)) == Ok(h) <==> h.code >= 0
  {
    ReadBack(h);
  }

  /** All headers that `headers`, `append`, `set` and `delete` build. */
  lemma BuiltRoundTrip(code: int, description: string, ops: seq<Op>)
    requires Make(code, description).Ok? && OneLine(description) && Trimmed(description)
    ensures var h := ApplyAll(Headers(code, description, []), ops);
            FromText(ToText(h)) == Ok(h) <==> code >= 0
  {
    ApplyAllGood(Headers(code, description, []), ops);
    RoundTripExactly(ApplyAll(Headers(code, description, []), ops));
  }
}
