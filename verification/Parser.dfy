/** The parser of core/src/parser.ts: one chunk per call, indices into the chunk, jumps over payloads. */
module Parser {
  import opened Bytes
  import opened ParserSpec

  // ----- the argument splitters

  lemma {:induction false} WordLengthIs(s: bytes, n: nat)
    requires n <= |s|
    requires forall i :: 0 <= i < n ==> !Separator(s[i])
    requires n < |s| ==> Separator(s[n])
    ensures WordLength(s) == n
  {
    if n > 0 {
      assert !Separator(s[0]);
      WordLengthIs(s[1..], n - 1);
    }
  }

  /** A word that runs from `start` up to `i`. */
  lemma WordsOfWord(s: bytes, start: nat, i: nat)
    requires start < i <= |s|
    requires forall j :: start <= j < i ==> !Separator(s[j])
    requires i < |s| ==> Separator(s[i])
    ensures Words(s[start..]) == [s[start..i]] + Words(s[i..])
  {
    var t := s[start..];
    WordLengthIs(t, i - start);
    assert !Separator(t[0]);
    assert t[..i - start] == s[start..i] && t[i - start..] == s[i..];
  }

  /** The splitting loop shared by processMsgArgs and processHeaderMsgArgs. */
  method SplitArgs(arg: bytes) returns (args: seq<bytes>)
    ensures args == Words(arg)
  {
    args := [];
    var start := -1;
    var i := 0;
    assert arg[0..] == arg;
    while i < |arg|
      invariant 0 <= i <= |arg|
      invariant -1 <= start < i || start == -1
      invariant start >= 0 ==> forall j :: start <= j < i ==> !Separator(arg[j])
      invariant Words(arg) == args + Words(arg[if start >= 0 then start else i..])
    {
      if Separator(arg[i]) {
        if start >= 0 {
          WordsOfWord(arg, start, i);
          args := args + [arg[start..i]];
          start := -1;
        }
        assert Words(arg) == args + Words(arg[i..]);
        assert arg[i..][1..] == arg[i + 1..];
      } else if start < 0 {
        start := i;
      }
      i := i + 1;
    }
    if start >= 0 {
      WordsOfWord(arg, start, i);
      assert arg[start..i] == arg[start..];
      args := args + [arg[start..]];
    }
    assert arg[i..] == [];
  }

  method ParseInt(a: bytes, max: Option<nat>) returns (n: int)
    ensures n == ProtoParseInt(a, max)
  {
    if |a| == 0 || |a| > 15 {
      return -1;
    }
    n := 0;
    var i := 0;
    while i < |a|
      invariant 0 <= i <= |a|
      invariant forall j :: 0 <= j < i ==> IsDigit(a[j])
      invariant n == ValueOf(a[..i])
    {
      if a[i] < ZERO || a[i] > NINE {
        assert !IsDigit(a[i]);
        return -1;
      }
      assert a[..i + 1][..i] == a[..i];
      n := n * 10 + (a[i] - ZERO);
      i := i + 1;
    }
    assert a[..i] == a;
    return if max.Some? && n > max.value then -1 else n;
  }

  // ----- how a chunk is read piecewise

  /** Reading a chunk up to `p` is reading it up to `i`, then the bytes in between. */
  lemma {:induction false} FeedSlice(m: Machine, buf: bytes, i: nat, p: nat)
    requires i <= p <= |buf|
    ensures Feed(m, buf[..p]) == Feed(Feed(m, buf[..i]), buf[i..p])
  {
    assert buf[..p] == buf[..i] + buf[i..p];
    FeedConcat(m, buf[..i], buf[i..p]);
  }

  lemma {:induction false} FeedNext(m: Machine, buf: bytes, i: nat)
    requires i < |buf|
    ensures Feed(m, buf[..i + 1]) == Step(Feed(m, buf[..i]), buf[i])
  {
    assert buf[..i + 1][..i] == buf[..i];
  }

  /** After a throw the rest of the chunk is never looked at. */
  lemma {:induction false} FeedAfterThrow(m: Machine, buf: bytes, i: nat)
    requires i < |buf|
    ensures var m1 := Step(Feed(m, buf[..i]), buf[i]); m1.failure.Some? ==> Feed(m, buf) == m1
  {
    FeedNext(m, buf, i);
    FeedSlice(m, buf, i + 1, |buf|);
    assert buf[..|buf|] == buf;
  }

  /** The jump after an argument skips payload bytes, up to `p`. */
  lemma FeedJump(m: Machine, buf: bytes, i: nat, p: nat)
    requires i < p <= |buf|
    requires var m1 := Step(m, buf[i]);
             m1.failure.None? && m1.state == MSG_PAYLOAD && m1.msgBuf.None? && m1.cur == [] && p - i - 1 <= m1.ma.size
    ensures Feed(m, buf[i..p]) == Step(m, buf[i]).(cur := buf[i + 1..p])
  {
    var s := buf[i..p];
    FeedCons(m, s);
    assert s[1..] == buf[i + 1..p];
    FeedPayload(Step(m, buf[i]), s[1..]);
    assert [] + s[1..] == s[1..];
  }

  lemma {:induction false} StepShapes(m: Machine, buf: bytes, i: nat)
    requires i < |buf| && Inv(m) && Feed(m, buf[..i]).failure.None?
    ensures Shape(Feed(m, buf[..i])) && Inv(Step(Feed(m, buf[..i]), buf[i]))
  {
    FeedInv(m, buf[..i]);
    StepInv(Feed(m, buf[..i]), buf[i]);
  }

  /** What is left of a chunk when a jump from `i` lands on or past its end. */
  function Min(i: nat, n: nat): nat {
    if i < n then i else n
  }

  class Parser {
    var dispatcher: seq<Event>  // what was pushed to the dispatcher, in order
    var state: State
    var mark: nat  // the source's `as`: where in the chunk the argument or payload starts
    var drop: nat
    var hdr: int
    var ma: MsgArg
    var argBuf: Option<bytes>
    var msgBuf: Option<bytes>

    constructor ()
      ensures Valid() && View() == INITIAL
    {
      dispatcher := [];
      state := OP_START;
      mark, drop, hdr, ma := 0, 0, 0, NEW_MSG_ARG;
      argBuf, msgBuf := None, None;
    }

    /** The argument or payload being read is a slice of the chunk. */
    predicate InChunk()
      reads this
    {
      || (IsArg(state) && argBuf.None?)
      || (state == MSG_PAYLOAD && msgBuf.None?)
    }

    ghost function ViewAt(buf: bytes, i: nat): Machine
      requires mark <= i <= |buf| || !InChunk()
      reads this
    {
      Machine(state, hdr, ma, drop, if InChunk() then buf[mark..i] else [], argBuf, msgBuf, dispatcher, None)
    }

    ghost function View(): Machine
      reads this
    {
      Machine(state, hdr, ma, drop, [], argBuf, msgBuf, dispatcher, None)
    }

    ghost predicate Valid()
      reads this
    {
      Inv(View()) && Settled(View())
    }

    method OnBlanks(buf: bytes, i: nat, ghost m: Machine)
      requires i < |buf| && IsBlanks(state) && argBuf.None?
      requires m == ViewAt(buf, i)
      modifies this`state, this`mark
      ensures (mark <= i + 1 || !InChunk()) && ViewAt(buf, i + 1) == StepBlanks(m, buf[i])
    {
      assert [buf[i]] == buf[i..i + 1];
      if !Blank(buf[i]) {
        state := ArgOf(state);
        mark := i;
      }
    }

    method OnLineEnd(buf: bytes, i: nat, ghost m: Machine)
      requires i < |buf| && IsLineEnd(state) && drop == 0
      requires m == ViewAt(buf, i)
      modifies this
      ensures (mark <= i + 1 || !InChunk()) && ViewAt(buf, i + 1) == StepLineEnd(m, buf[i])
    {
      if buf[i] == NL {
        dispatcher := dispatcher + LineEvents(state);
        drop := 0;
        mark := i + 1;
        state := OP_START;
      }
    }

    method OnKeyword(buf: bytes, i: nat, next: Option<State>, ghost m: Machine) returns (thrown: Option<Failure>)
      requires i < |buf| && !InChunk() && (next.Some? ==> !IsArg(next.value) && next.value != MSG_PAYLOAD)
      requires m == ViewAt(buf, i)
      modifies this
      ensures var m1 := StepKeyword(m, buf[i], next);
              && thrown == m1.failure
              && if thrown.Some? then dispatcher == m1.events else !InChunk() && ViewAt(buf, i + 1) == m1
    {
      if next.None? {
        return Some(BadByte(state));
      }
      if state == OP_START && Letter(buf[i], M) {
        hdr := -1;
        ma := NEW_MSG_ARG;
      } else if state == OP_START && Letter(buf[i], H) {
        hdr := 0;
        ma := NEW_MSG_ARG;
      }
      state := next.value;
      return None;
    }

    /** The payload lies in this chunk: the jump has landed on the byte after it. */
    method OnPayloadInChunk(buf: bytes, i: nat, ghost m: Machine)
      requires i < |buf| && state == MSG_PAYLOAD && msgBuf.None? && mark <= i
      requires m == ViewAt(buf, i)
      modifies this
      ensures (mark <= i + 1 || !InChunk()) && ViewAt(buf, i + 1) == StepPayload(m, buf[i])
    {
      if i - mark >= ma.size {
        dispatcher := dispatcher + [MsgEvent(ma, buf[mark..i])];
        argBuf, msgBuf, state := None, None, MSG_END;
      } else {
        assert buf[mark..i + 1] == buf[mark..i] + [buf[i]];
      }
    }

    /** The payload started in an earlier chunk and is complete: it is pushed. */
    method PushSpilled(buf: bytes, i: nat, ghost m: Machine)
      requires i < |buf| && state == MSG_PAYLOAD && msgBuf.Some? && |msgBuf.value| >= ma.size
      requires m == ViewAt(buf, i)
      modifies this
      ensures !InChunk() && ViewAt(buf, i + 1) == StepPayload(m, buf[i])
    {
      dispatcher := dispatcher + [MsgEvent(ma, msgBuf.value)];
      argBuf, msgBuf, state := None, None, MSG_END;
    }

    /** The payload started in an earlier chunk: all that this chunk has of it is copied. */
    method CopySpilled(buf: bytes, i: nat, ghost m: Machine) returns (j: nat)
      requires i < |buf| && state == MSG_PAYLOAD && msgBuf.Some? && |msgBuf.value| < ma.size
      requires m == ViewAt(buf, i)
      modifies this
      ensures i <= j < |buf| && !InChunk()
      ensures ViewAt(buf, j + 1) == Feed(m, buf[i..j + 1])
    {
      hide Feed, Step;
      var toCopy := ma.size - |msgBuf.value|;
      var avail := |buf| - i;
      if avail < toCopy {
        toCopy := avail;
      }
      var piece := buf[i..i + toCopy];
      FeedPayload(m, piece);
      msgBuf := Some(msgBuf.value + piece);
      j := i + toCopy - 1;
      assert buf[i..j + 1] == piece;
    }

    /** processMsgArgs and processHeaderMsgArgs: the argument line is stored into `ma`. */
    method StoreMsgArgs(arg: bytes) returns (thrown: Option<Failure>)
      modifies this`ma
      ensures match ProcessMsgArgs(arg, hdr, old(ma))
              case Throw(f) => thrown == Some(f)
              case Success(v) => thrown == None && ma == v
    {
      var args := SplitArgs(arg);
      var header := hdr >= 0;
      var k := if header then 1 else 0;
      if |args| != 3 + k && |args| != 4 + k {
        return Some(BadArgs);
      }
      var last := |args| - 1;
      var sid := ParseInt(args[1], None);
      ma := ma.(subject := args[0], sid := sid, reply := if |args| == 4 + k then Some(args[2]) else None);
      if header {
        var h := ParseInt(args[last - 1], Some(MAX_64MB));
        ma := ma.(hdr := h);
      }
      var size := ParseInt(args[last], Some(MAX_64MB));
      ma := ma.(size := size);
      if ma.sid < 0 {
        return Some(BadSid);
      }
      if header && (ma.hdr < 0 || ma.hdr > ma.size) {
        return Some(BadHeaderSize);
      }
      if ma.size < 0 {
        return Some(BadSize);
      }
      return None;
    }

    /** The NL that ends an argument; after the one of MSG the index jumps over the payload. */
    method OnArgEnd(buf: bytes, i: nat, ghost m: Machine) returns (j: int, thrown: Option<Failure>)
      requires i < |buf| && IsArg(state) && msgBuf.None? && buf[i] == NL
      requires if InChunk() then mark + drop <= i else true
      requires m == ViewAt(buf, i)
      modifies this
      ensures thrown == StepArg(m, NL).failure
      ensures thrown.Some? ==> dispatcher == StepArg(m, NL).events
      ensures thrown.None? ==>
        && (mark <= i + 1 || !InChunk()) && ViewAt(buf, i + 1) == StepArg(m, NL)
        && (if state == MSG_PAYLOAD then msgBuf.None? && mark == i + 1 && j == i + ma.size else j == i)
    {
      hide ProcessMsgArgs;
      thrown := None;
      j := i;
      var arg := if argBuf.Some? then argBuf.value else buf[mark..i - drop];
      assert arg == Argument(m);
      if state == MSG_ARG {
        thrown := StoreMsgArgs(arg);
        if thrown.None? {
          drop := 0;
          mark := i + 1;
          state := MSG_PAYLOAD;
          j := mark + ma.size - 1;
        }
      } else {
        dispatcher := dispatcher + [if state == INFO_ARG then InfoEvent(arg) else ErrEvent(arg)];
        argBuf := None;
        drop := 0;
        mark := i + 1;
        state := OP_START;
      }
    }

    /** The byte at `i` of an argument. */
    method OnArg(buf: bytes, i: nat, ghost m: Machine) returns (j: int, thrown: Option<Failure>)
      requires i < |buf| && IsArg(state) && msgBuf.None?
      requires if InChunk() then mark + drop <= i else true
      requires m == ViewAt(buf, i)
      modifies this
      ensures thrown == StepArg(m, buf[i]).failure
      ensures thrown.Some? ==> dispatcher == StepArg(m, buf[i]).events
      ensures thrown.None? ==>
        && (mark <= i + 1 || !InChunk()) && ViewAt(buf, i + 1) == StepArg(m, buf[i])
        && (if state == MSG_PAYLOAD then msgBuf.None? && mark == i + 1 && j == i + ma.size else j == i)
    {
      thrown := None;
      j := i;
      var b := buf[i];
      if b == NL {
        j, thrown := OnArgEnd(buf, i, m);
        return;
      }
      if InChunk() {
        assert buf[mark..i + 1] == buf[mark..i] + [b];
      }
      if b == CR {
        drop := 1;
      } else if argBuf.Some? {
        argBuf := Some(argBuf.value + [b]);
      }
    }

    method CloneMsgArg()
      modifies this`argBuf, this`ma
      ensures argBuf == Some(ClonedArgs(ma)) && ma == old(ma)
    {
      var s := |ma.subject|;
      var buf := ma.subject + if ma.reply.Some? then ma.reply.value else [];
      argBuf := Some(buf);
      ma := ma.(subject := buf[..s]);
      if ma.reply.Some? {
        ma := ma.(reply := Some(buf[s..]));
      }
    }

    /** The end of `parse`: nothing may refer to the chunk any more. */
    method Spill(buf: bytes, ghost m: Machine)
      requires mark <= |buf| || !InChunk()
      requires m == ViewAt(buf, |buf|)
      requires if IsArg(state) && argBuf.None? then mark + drop <= |buf| else true
      modifies this
      ensures View() == EndChunk(m)
    {
      if IsArg(state) && argBuf.None? {
        assert buf[mark..|buf|][..|buf| - mark - drop] == buf[mark..|buf| - drop];
        argBuf := Some(buf[mark..|buf| - drop]);
      }
      if state == MSG_PAYLOAD && msgBuf.None? {
        if argBuf.None? {
          CloneMsgArg();
        }
        assert buf[mark..] == buf[mark..|buf|];
        msgBuf := Some(buf[mark..]);
      }
    }

    /** The bytes from `i` to `j` are consumed, or to the end of the chunk if `j` lies past it. */
    ghost predicate Consumed(m: Machine, buf: bytes, i: nat, j: int)
      requires i < |buf|
      reads this
    {
      && i <= j
      && (j >= |buf| ==> state == MSG_PAYLOAD && msgBuf.None?)
      && (mark <= Min(j + 1, |buf|) || !InChunk())
      && ViewAt(buf, Min(j + 1, |buf|)) == Feed(m, buf[i..Min(j + 1, |buf|)])
    }

    method OnArgAndJump(buf: bytes, i: nat, ghost m: Machine) returns (j: int, thrown: Option<Failure>)
      requires i < |buf| && IsArg(state) && msgBuf.None?
      requires if InChunk() then mark + drop <= i else true
      requires m == ViewAt(buf, i)
      requires Inv(Step(m, buf[i]))
      modifies this
      ensures thrown.Some? ==> thrown == Step(m, buf[i]).failure && dispatcher == Step(m, buf[i]).events
      ensures thrown.None? ==> Consumed(m, buf, i, j)
    {
      hide StepArg, ProcessMsgArgs;
      j, thrown := OnArg(buf, i, m);
      if thrown.None? {
        if state == MSG_PAYLOAD {
          FeedJump(m, buf, i, Min(j + 1, |buf|));
        } else {
          FeedOne(m, buf[i]);
          assert buf[i..i + 1] == [buf[i]];
        }
      }
    }

    method OnOther(buf: bytes, i: nat, ghost m: Machine) returns (thrown: Option<Failure>)
      requires i < |buf| && (mark <= i || !InChunk()) && !IsArg(state)
      requires if state == MSG_PAYLOAD then msgBuf.Some? ==> |msgBuf.value| >= ma.size else argBuf.None? && drop == 0
      requires m == ViewAt(buf, i)
      modifies this
      ensures thrown.Some? ==> thrown == Step(m, buf[i]).failure && dispatcher == Step(m, buf[i]).events
      ensures thrown.None? ==> (mark <= i + 1 || !InChunk()) && ViewAt(buf, i + 1) == Step(m, buf[i])
    {
      thrown := None;
      if state == MSG_PAYLOAD && msgBuf.Some? {
        PushSpilled(buf, i, m);
      } else if state == MSG_PAYLOAD {
        OnPayloadInChunk(buf, i, m);
      } else if IsBlanks(state) {
        OnBlanks(buf, i, m);
      } else if IsLineEnd(state) {
        OnLineEnd(buf, i, m);
      } else {
        FollowShape(state, buf[i]);
        thrown := OnKeyword(buf, i, Follow(state, buf[i]), m);
      }
    }

    /** One pass of the loop of `parse` for the byte at `i`; `j` is the index it leaves behind. */
    method OnByte(buf: bytes, i: nat, ghost m: Machine) returns (j: int, thrown: Option<Failure>)
      requires i < |buf| && (mark <= i || !InChunk())
      requires m == ViewAt(buf, i) && Shape(m) && Inv(Step(m, buf[i]))
      modifies this
      ensures thrown.Some? ==> thrown == Step(m, buf[i]).failure && dispatcher == Step(m, buf[i]).events
      ensures thrown.None? ==> Consumed(m, buf, i, j)
    {
      hide Feed, Step, Inv;
      thrown := None;
      j := i;
      if IsArg(state) {
        j, thrown := OnArgAndJump(buf, i, m);
      } else if state == MSG_PAYLOAD && msgBuf.Some? && |msgBuf.value| < ma.size {
        j := CopySpilled(buf, i, m);
      } else {
        thrown := OnOther(buf, i, m);
        FeedOne(m, buf[i]);
        assert buf[i..i + 1] == [buf[i]];
      }
    }

    /** What the loop of `parse` keeps: `i` bytes are read, or all of them. */
    ghost predicate Read(m0: Machine, buf: bytes, i: nat)
      reads this
    {
      && (i > |buf| ==> state == MSG_PAYLOAD && msgBuf.None?)
      && (mark <= Min(i, |buf|) || !InChunk())
      && ViewAt(buf, Min(i, |buf|)) == Feed(m0, buf[..Min(i, |buf|)])
    }

    method ReadByte(buf: bytes, i: nat, ghost m0: Machine) returns (j: int, thrown: Option<Failure>)
      requires i < |buf| && Inv(m0) && Read(m0, buf, i)
      modifies this
      ensures thrown.Some? ==> thrown == Feed(m0, buf).failure && dispatcher == Feed(m0, buf).events
      ensures thrown.None? ==> i <= j && Read(m0, buf, j + 1)
    {
      hide Feed, Step, Inv, Shape;
      ghost var m := Feed(m0, buf[..i]);
      StepShapes(m0, buf, i);
      j, thrown := OnByte(buf, i, m);
      if thrown.Some? {
        FeedAfterThrow(m0, buf, i);
      } else {
        FeedSlice(m0, buf, i, Min(j + 1, |buf|));
      }
    }

    /** The loop of `parse`. */
    method ReadBytes(buf: bytes, ghost m0: Machine) returns (thrown: Option<Failure>)
      requires Inv(m0) && Read(m0, buf, 0)
      modifies this
      ensures thrown.Some? ==> thrown == Feed(m0, buf).failure && dispatcher == Feed(m0, buf).events
      ensures thrown.None? ==> Read(m0, buf, |buf|)
    {
      hide Feed, Step, Inv, Shape;
      thrown := None;
      var i := 0;
      while i < |buf|
        invariant thrown.None?
        invariant Read(m0, buf, i)
      {
        i, thrown := ReadByte(buf, i, m0);
        if thrown.Some? {
          return;
        }
        i := i + 1;
      }
    }

    method Parse(buf: bytes) returns (thrown: Option<Failure>)
      requires Valid()
      modifies this
      ensures thrown == Run(old(View()), buf).failure
      ensures dispatcher == Run(old(View()), buf).events
      ensures thrown.None? ==> Valid() && View() == Run(old(View()), buf)
    {
      ghost var m0 := View();
      FeedNothing(m0);
      assert buf[..0] == [] && buf[..|buf|] == buf;
      thrown := ReadBytes(buf, m0);
      if thrown.None? {
        ghost var m := Feed(m0, buf);
        FeedInv(m0, buf);
        EndChunkInv(m);
        Spill(buf, m);
      }
    }
  }
}
