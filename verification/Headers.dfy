/** The methods of MsgHdrsImpl (core/src/headers.ts), against the functions of HeadersSpec. */
module Headers {
  import opened Bytes
  import opened HeadersSpec
  import opened Text

  method CanonicalMIMEHeaderKey(k: string) returns (r: Result<string>)
    ensures r == Canonical(k)
  {
    var upper := true;
    var buf := new char[|k|](_ => ' ');
    var i := 0;
    while i < |k|
      invariant 0 <= i <= |k| && ValidName(k[..i])
      invariant upper == (i == 0 || k[i - 1] == '-')
      invariant forall j :: 0 <= j < i ==> buf[j] == CanonicalChar(k, j)
    {
      var c := k[i];
      if c == ':' || c as int < 33 || c as int > 126 {
        assert !NameChar(k[i]);
        return InvalidArgument;
      }
      assert NameChar(c) && k[..i + 1] == k[..i] + [c];
      if upper && 'a' <= c <= 'z' {
        c := c - 32 as char;
      } else if !upper && 'A' <= c <= 'Z' {
        c := c + 32 as char;
      }
      buf[i] := c;
      upper := c == '-';
      i := i + 1;
    }
    assert k[..i] == k;
    assert buf[..] == CanonicalName(k);
    return Ok(buf[..]);
  }

  /** `k.toLowerCase()`, for ASCII letters. */
  method ToLowerCase(k: string) returns (r: string)
    ensures r == LowerCase(k)
  {
    r := seq(|k|, i requires 0 <= i < |k| => Lower(k[i]));
  }

  method ValidHeaderValue(v: string) returns (r: Result<string>)
    ensures r == if OneLine(v) then Ok(Trim(v)) else InvalidArgument
  {
    if '\r' in v || '\n' in v {
      return InvalidArgument;
    }
    return Ok(Trim(v));
  }

  class MsgHdrsImpl {
    var code: int
    var description: string
    var headers: seq<Field>   // the Map, in insertion order

    function View(): HeadersSpec.Headers
      reads this
    {
      HeadersSpec.Headers(code, description, headers)
    }

    constructor (code: int, description: string)
      ensures View() == HeadersSpec.Headers(code, description, [])
    {
      this.code, this.description, headers := code, description, [];
    }

    method Find(k: string, match1: Match) returns (keys: Result<seq<string>>)
      ensures keys == FindKeys(headers, k, match1)
    {
      var wanted := k;
      if match1.CanonicalMIME? {
        var c := CanonicalMIMEHeaderKey(k);
        if c.InvalidArgument? {
          return InvalidArgument;
        }
        wanted := c.value;
      } else if match1.IgnoreCase? {
        wanted := ToLowerCase(k);
      }
      var found: seq<string> := [];
      var i := 0;
      while i < |headers|
        invariant 0 <= i <= |headers| && found == Filter(headers[..i], k, match1)
      {
        var key := headers[i].key;
        var same := key;
        if match1.IgnoreCase? {
          same := ToLowerCase(key);
        }
        assert headers[..i + 1][..i] == headers[..i];
        if same == wanted {
          found := found + [key];
        }
        i := i + 1;
      }
      assert headers[..i] == headers;
      return Ok(found);
    }

    method Append(key: string, v: string, match1: Match) returns (r: Result<()>)
      modifies this`headers
      ensures r.Ok? <==> Appended(old(headers), key, v, match1).Ok?
      ensures headers == AfterAppend(old(headers), key, v, match1)
    {
      var ck := CanonicalMIMEHeaderKey(key);
      if ck.InvalidArgument? {
        return InvalidArgument;
      }
      CanonicalIdempotent(key);
      var k := if match1.CanonicalMIME? then ck.value else key;
      var keys := Find(k, match1);
      k := if |keys.value| > 0 then keys.value[0] else k;
      var value := ValidHeaderValue(v);
      if value.InvalidArgument? {
        return InvalidArgument;
      }
      var i := 0;
      while i < |headers| && headers[i].key != k
        invariant 0 <= i <= |headers| && forall j :: 0 <= j < i ==> headers[j].key != k
      {
        i := i + 1;
      }
      PositionIs(headers, k, i);
      if i < |headers| {
        headers := headers[i := Field(k, headers[i].values + [value.value])];
      } else {
        headers := headers + [Field(k, [value.value])];
      }
      return Ok(());
    }

    method Delete(k: string, match1: Match) returns (r: Result<()>)
      modifies this`headers
      ensures r.Ok? <==> Deleted(old(headers), k, match1).Ok?
      ensures View() == Apply(old(View()), Op.Delete(k, match1))
    {
      hide Minus, RemoveKey, Filter, Without, Matches, ValidName;
      var keys := Find(k, match1);
      if keys.InvalidArgument? {
        return InvalidArgument;
      }
      ghost var fields := headers;
      MinusNone(fields);
      var i := 0;
      while i < |keys.value|
        invariant 0 <= i <= |keys.value| && headers == Minus(fields, keys.value[..i])
      {
        RemoveMinus(fields, keys.value[..i], keys.value[i]);
        assert keys.value[..i + 1] == keys.value[..i] + [keys.value[i]];
        headers := RemoveKey(headers, keys.value[i]);
        i := i + 1;
      }
      assert keys.value[..i] == keys.value;
      MinusAll(fields, keys.value, k, match1);
      return Ok(());
    }

    /** When `append` throws, the values are already deleted. */
    method Set(k: string, v: string, match1: Match) returns (r: Result<()>)
      modifies this`headers
      ensures View() == Apply(old(View()), Op.Set(k, v, match1))
    {
      r := Delete(k, match1);
      if r.Ok? {
        r := Append(k, v, match1);
      }
    }

    method ToString() returns (s: string)
      ensures s == ToText(View())
    {
      if |headers| == 0 && code == 0 {
        return "";
      }
      StatusOnly(StatusLine(code, description));
      s := HEADER;
      if code > 0 && description != "" {
        s := s + " " + IntText(code) + " " + description;
      }
      ghost var status := StatusLine(code, description);
      ghost var none: seq<Field> := [];
      assert s == status && Lines(none) == [];
      hide IntText, StatusLine, Lines, FieldLines, Joined, JoinLines;
      var i := 0;
      while i < |headers|
        invariant 0 <= i <= |headers| && s == Joined(status, Lines(headers[..i]))
      {
        NextLines(headers, i);
        s := PrintField(s, headers[i], status, Lines(headers[..i]));
        i := i + 1;
      }
      assert headers[..i] == headers;
      JoinedEnd(status, Lines(headers));
      s := s + "\r\n\r\n";
    }

    method PrintField(s0: string, f: Field, ghost status: string, ghost lines: seq<string>) returns (s: string)
      requires s0 == Joined(status, lines)
      ensures s == Joined(status, lines + FieldLines(f))
    {
      s := s0;
      var i := 0;
      assert lines + FieldLines(f)[..0] == lines;
      while i < |f.values|
        invariant 0 <= i <= |f.values| && s == Joined(status, lines + FieldLines(f)[..i])
      {
        ghost var cur := lines + FieldLines(f)[..i];
        assert lines + FieldLines(f)[..i + 1] == cur + [f.key + ": " + f.values[i]];
        JoinedPush(status, cur, f.key + ": " + f.values[i]);
        s := s + CRLF + (f.key + ": " + f.values[i]);
        i := i + 1;
      }
      assert FieldLines(f)[..i] == FieldLines(f);
    }
  }

  /** The text of a first line and more lines. */
  ghost function Joined(first: string, lines: seq<string>): string {
    JoinLines([first] + lines)
  }

  lemma StatusOnly(first: string)
    ensures Joined(first, []) == first
  {
    assert [first] + [] == [first];
  }

  lemma {:induction false} JoinMore(lines: seq<string>, line: string)
    requires lines != []
    ensures JoinLines(lines + [line]) == JoinLines(lines) + CRLF + line
    decreases |lines|
  {
    if |lines| == 1 {
      assert (lines + [line])[1..] == [line];
    } else {
      JoinMore(lines[1..], line);
      assert (lines + [line])[1..] == lines[1..] + [line];
      var h, t := lines[0] + CRLF, JoinLines(lines[1..]);
      Reassociate(h, t, CRLF);
      Reassociate(h, t + CRLF, line);
    }
  }

  lemma JoinedPush(first: string, lines: seq<string>, line: string)
    ensures Joined(first, lines + [line]) == Joined(first, lines) + CRLF + line
  {
    JoinMore([first] + lines, line);
    assert [first] + (lines + [line]) == [first] + lines + [line];
  }

  lemma JoinedEnd(first: string, lines: seq<string>)
    ensures JoinLines([first] + lines + ["", ""]) == Joined(first, lines) + "\r\n\r\n"
  {
    hide JoinLines;
    var l := [first] + lines;
    JoinMore(l, "");
    JoinMore(l + [""], "");
    assert l + [""] + [""] == l + ["", ""];
    var j := JoinLines(l);
    assert j + CRLF + "" + CRLF + "" == j + (CRLF + CRLF);
  }

  lemma NextLines(fields: seq<Field>, i: nat)
    requires i < |fields|
    ensures Lines(fields[..i + 1]) == Lines(fields[..i]) + FieldLines(fields[i])
  {
    assert fields[..i + 1][..i] == fields[..i];
  }

  // ----- `Map.delete`

  function RemoveKey(fields: seq<Field>, key: string): seq<Field> {
    Minus(fields, [key])
  }

  /** The entries whose keys are not listed. */
  function Minus(fields: seq<Field>, keys: seq<string>): seq<Field> {
    if fields == [] then []
    else
      var last := fields[|fields| - 1];
      Minus(fields[..|fields| - 1], keys) + (if last.key in keys then [] else [last])
  }

  lemma {:induction false} MinusNone(fields: seq<Field>)
    ensures Minus(fields, []) == fields
  {
    if fields != [] {
      MinusNone(fields[..|fields| - 1]);
    }
  }

  lemma {:induction false} RemoveMinus(fields: seq<Field>, keys: seq<string>, key: string)
    ensures RemoveKey(Minus(fields, keys), key) == Minus(fields, keys + [key])
  {
    if fields != [] {
      var n := |fields| - 1;
      RemoveMinus(fields[..n], keys, key);
      var rest := Minus(fields[..n], keys);
      if fields[n].key !in keys {
        assert Minus(fields, keys) == rest + [fields[n]];
        assert (rest + [fields[n]])[..|rest|] == rest;
      } else {
        assert Minus(fields, keys) == rest;
      }
    }
  }

  lemma {:induction false} MinusAll(fields: seq<Field>, keys: seq<string>, k: string, match1: Match)
    requires keys == Filter(fields, k, match1)
    ensures Minus(fields, keys) == Without(fields, k, match1)
  {
    forall i | 0 <= i < |fields|
      ensures fields[i].key in keys <==> Matches(fields[i].key, k, match1)
    {
      FilterHas(fields, k, match1, i);
    }
    MinusMatches(fields, keys, k, match1);
  }

  lemma {:induction false} MinusMatches(fields: seq<Field>, keys: seq<string>, k: string, match1: Match)
    requires forall i :: 0 <= i < |fields| ==> (fields[i].key in keys <==> Matches(fields[i].key, k, match1))
    ensures Minus(fields, keys) == Without(fields, k, match1)
  {
    if fields != [] {
      hide Matches;
      MinusMatches(fields[..|fields| - 1], keys, k, match1);
    }
  }

  /** A key is found exactly when it matches. */
  lemma {:induction false} FilterHas(fields: seq<Field>, k: string, match1: Match, i: nat)
    requires i < |fields|
    ensures fields[i].key in Filter(fields, k, match1) <==> Matches(fields[i].key, k, match1)
  {
    var n := |fields| - 1;
    FilterIs(fields, k, match1);
    if i < n {
      FilterHas(fields[..n], k, match1, i);
    }
  }

  // ----- decode

  /** Reads the status line. */
  method DecodeStatus(h: string) returns (code: int, description: string)
    ensures (code, description) == ReadStatus(h)
  {
    code, description := 0, "";
    if h != HEADER {
      var str := Trim(Erase(h, HEADER));
      if |str| > 0 {
        match ParseInt(str) {
          case Number(n) => code := n;
          case NaN => code := 0;
        }
        str := Erase(str, IntText(code));
        description := Trim(str);
      }
    }
  }

  /** Adds the fields of the lines to new headers; a bad name or value throws. */
  method Decode(s: string) returns (r: Result<MsgHdrsImpl>)
    ensures r.Ok? <==> FromText(s).Ok?
    ensures r.Ok? ==> fresh(r.value) && FromText(s) == Ok(r.value.View())
  {
    assert ReadLines([]) == Ok([]);
    hide ReadStatus, AddLine, AfterAppend, ReadLines;
    var lines := Split("", s);
    var code, description := DecodeStatus(lines[0]);
    var mh := new MsgHdrsImpl(code, description);
    var more := lines[1..];
    var i := 0;
    while i < |more|
      invariant 0 <= i <= |more| && mh.code == code && mh.description == description
      invariant ReadLines(more[..i]) == Ok(mh.headers)
    {
      ReadsOne(more[..i], more[i]);
      assert more[..i + 1] == more[..i] + [more[i]];
      var ok := DecodeLine(mh, more[i]);
      if !ok {
        ReadsFail(more, i + 1);
        return InvalidArgument;
      }
      i := i + 1;
    }
    assert more[..i] == more;
    return Ok(mh);
  }

  method DecodeLine(mh: MsgHdrsImpl, line: string) returns (ok: bool)
    modifies mh`headers
    ensures ok <==> AddLine(old(mh.headers), line).Ok?
    ensures ok ==> AddLine(old(mh.headers), line) == Ok(mh.headers)
  {
    ok := true;
    if line != "" {
      var idx := IndexOf(line, ":");
      if idx <= |line| {
        var k, v := line[..idx], Trim(line[idx + 1..]);
        var r := mh.Append(k, v, Exact);
        ok := r.Ok?;
      }
    }
  }

  /** A line that throws fails the whole text. */
  lemma {:induction false} ReadsFail(lines: seq<string>, n: nat)
    requires n <= |lines| && ReadLines(lines[..n]).InvalidArgument?
    ensures ReadLines(lines).InvalidArgument?
    decreases |lines|
  {
    if n == |lines| {
      assert lines[..n] == lines;
    } else {
      hide AddLine;
      var m := |lines| - 1;
      assert lines[..m][..n] == lines[..n];
      ReadsFail(lines[..m], n);
    }
  }
}
