/** Chunking never shows: the events depend on the byte stream only. */
module ParserChunks {
  import opened Bytes
  import opened ParserSpec

  /** Inside an argument a CR is followed by the NL that ends it. */
  predicate CleanStep(m: Machine, b: byte) {
    m.failure.None? && IsArg(m.state) && m.drop == 1 ==> b == NL
  }

  predicate Clean(m: Machine, s: bytes) {
    forall i :: 0 <= i < |s| ==> CleanStep(Feed(m, s[..i]), s[i])
  }

  /** Two machines that no later byte can tell apart, wherever they keep what they have read. */
  predicate Same(m1: Machine, m2: Machine) {
    && m1.events == m2.events
    && m1.failure == m2.failure
    && (m1.failure.None? ==>
      && m1.state == m2.state && m1.hdr == m2.hdr && m1.ma == m2.ma && m1.drop == m2.drop
      && (IsArg(m1.state) ==> Argument(m1) == Argument(m2))
      && (m1.state == MSG_PAYLOAD ==> Payload(m1) == Payload(m2)))
  }

  lemma ArgGrows(m: Machine, b: byte)
    requires ArgShape(m) && IsArg(m.state) && m.failure.None? && b != NL && m.drop == 0
    ensures StepArg(m, b).state == m.state && StepArg(m, b).drop == (if b == CR then 1 else 0)
    ensures Argument(StepArg(m, b)) == if b == CR then Argument(m) else Argument(m) + [b]
  {
    if m.argBuf.None? {
      assert m.cur[..|m.cur|] == m.cur;
      assert (m.cur + [b])[..|m.cur|] == m.cur;
      assert (m.cur + [b])[..|m.cur| + 1] == m.cur + [b];
    }
  }

  lemma ArgSame(m1: Machine, m2: Machine, b: byte)
    requires ArgShape(m1) && ArgShape(m2) && Same(m1, m2) && m1.failure.None? && IsArg(m1.state)
    requires CleanStep(m1, b)
    ensures Same(StepArg(m1, b), StepArg(m2, b))
  {
    if b != NL {
      ArgGrows(m1, b);
      ArgGrows(m2, b);
    }
  }

  lemma {:induction false} StepSame(m1: Machine, m2: Machine, b: byte)
    requires Inv(m1) && Inv(m2) && Same(m1, m2) && CleanStep(m1, b)
    ensures Same(Step(m1, b), Step(m2, b))
  {
    if m1.failure.None? && IsArg(m1.state) {
      ArgSame(m1, m2, b);
    }
  }

  lemma {:induction false} FeedSame(m1: Machine, m2: Machine, s: bytes)
    requires Inv(m1) && Inv(m2) && Same(m1, m2) && Clean(m2, s)
    ensures Same(Feed(m1, s), Feed(m2, s))
  {
    if s != [] {
      var t := s[..|s| - 1];
      assert forall i :: 0 <= i < |t| ==> t[..i] == s[..i];
      FeedSame(m1, m2, t);
      FeedInv(m1, t);
      FeedInv(m2, t);
      StepSame(Feed(m1, t), Feed(m2, t), s[|s| - 1]);
    }
  }

  lemma EndChunkSame(m: Machine)
    requires Inv(m)
    ensures Same(EndChunk(m), m)
  {
  }

  lemma {:induction false} CleanSplit(m: Machine, a: bytes, b: bytes)
    requires Clean(m, a + b)
    ensures Clean(m, a) && Clean(Feed(m, a), b)
  {
    assert forall i :: 0 <= i < |a| ==> (a + b)[..i] == a[..i];
    forall i | 0 <= i < |b|
      ensures CleanStep(Feed(Feed(m, a), b[..i]), b[i])
    {
      assert CleanStep(Feed(m, (a + b)[..|a| + i]), (a + b)[|a| + i]);
      assert (a + b)[..|a| + i] == a + b[..i];
      FeedConcat(m, a, b[..i]);
    }
  }

  lemma {:induction false} RunAllSame(m1: Machine, m2: Machine, chunks: seq<bytes>)
    requires Inv(m1) && Inv(m2) && Same(m1, m2) && Clean(m2, Flatten(chunks))
    ensures Same(RunAll(m1, chunks), Feed(m2, Flatten(chunks)))
    decreases |chunks|
  {
    if chunks != [] {
      var c, rest := chunks[0], Flatten(chunks[1..]);
      CleanSplit(m2, c, rest);
      FeedSame(m1, m2, c);
      FeedInv(m1, c);
      FeedInv(m2, c);
      EndChunkSame(Feed(m1, c));
      EndChunkInv(Feed(m1, c));
      RunAllSame(Run(m1, c), Feed(m2, c), chunks[1..]);
      FeedConcat(m2, c, rest);
    }
  }

  /**
   * Chunk independence: however a clean stream is cut, empty and one-byte chunks included,
   * the events are those of one call on the whole stream, up to and including the failure.
   */
  lemma {:induction false} ChunkIndependence(m: Machine, chunks: seq<bytes>)
    requires Inv(m) && Clean(m, Flatten(chunks))
    ensures var whole := Run(m, Flatten(chunks));
            && RunAll(m, chunks).events == whole.events
            && RunAll(m, chunks).failure == whole.failure
            && Same(RunAll(m, chunks), whole)
  {
    RunAllSame(m, m, chunks);
    FeedInv(m, Flatten(chunks));
    EndChunkSame(Feed(m, Flatten(chunks)));
  }

  // ----- without the CR condition: exactly when chunking shows

  function DropCRs(s: bytes): (r: bytes)
    ensures CR !in r
    ensures CR !in s ==> r == s
  {
    if s == [] then []
    else
      var r := DropCRs(s[..|s| - 1]);
      assert s == s[..|s| - 1] + [s[|s| - 1]];
      if s[|s| - 1] == CR then r else r + [s[|s| - 1]]
  }

  /** A CR after the first byte of the argument and before its last one. */
  predicate StrayCR(arg: bytes) {
    |arg| > 1 && CR in arg[1..|arg| - 1]
  }

  /** The machine after the blanks of INFO or -ERR. */
  predicate AwaitsArgument(m: Machine) {
    Inv(m) && m.failure.None? && (m.state == OP_INFO_SPC || m.state == OP_MINUS_ERR_SPC)
  }

  predicate IsLineArgument(arg: bytes) {
    arg != [] && !Blank(arg[0]) && NL !in arg
  }

  lemma {:induction false} FeedArgument(m: Machine, s: bytes)
    requires IsArg(m.state) && m.failure.None? && NL !in s
    ensures Feed(m, s) ==
            var m1 := m.(drop := if CR in s then 1 else m.drop);
            if m.argBuf.Some? then m1.(argBuf := Some(m.argBuf.value + DropCRs(s))) else m1.(cur := m.cur + s)
  {
    if s == [] {
      assert m.argBuf.Some? ==> m.argBuf.value + [] == m.argBuf.value;
      assert m.cur + [] == m.cur;
    } else {
      var t, b := s[..|s| - 1], s[|s| - 1];
      assert s == t + [b];
      FeedArgument(m, t);
      assert m.cur + s == m.cur + t + [b];
      assert m.argBuf.Some? ==> m.argBuf.value + DropCRs(t) + [b] == m.argBuf.value + (DropCRs(t) + [b]);
    }
  }

  function ArgEvent(s: State, data: bytes): Event {
    if s == OP_INFO_SPC then InfoEvent(data) else ErrEvent(data)
  }

  /** The machine with `arg` read in one chunk, before the NL. */
  function Reading(m: Machine, arg: bytes): Machine
    requires arg != []
  {
    m.(state := ArgOf(m.state), drop := if CR in arg[1..] then 1 else 0, cur := arg)
  }

  lemma FeedWhole(m: Machine, arg: bytes)
    requires AwaitsArgument(m) && IsLineArgument(arg)
    ensures Feed(m, arg) == Reading(m, arg)
  {
    var m1 := Step(m, arg[0]);
    assert m1 == m.(state := ArgOf(m.state), cur := [arg[0]]);
    FeedCons(m, arg);
    FeedArgument(m1, arg[1..]);
    assert [arg[0]] + arg[1..] == arg;
  }

  /** The NL that ends an argument of INFO or -ERR. */
  lemma EndOfArgument(m: Machine, data: bytes)
    requires m.failure.None? && (m.state == INFO_ARG || m.state == MINUS_ERR_ARG) && Argument(m) == data
    ensures Step(m, NL) == Push(m, if m.state == INFO_ARG then InfoEvent(data) else ErrEvent(data)).(
              drop := 0, cur := [], argBuf := None, state := OP_START)
  {
  }

  /** In one chunk the argument loses its last byte if it has a CR after the first. */
  lemma {:induction false} WholeArgument(m: Machine, arg: bytes)
    requires AwaitsArgument(m) && IsLineArgument(arg)
    ensures Run(m, arg + [NL]) ==
            Push(m, ArgEvent(m.state, if CR in arg[1..] then arg[..|arg| - 1] else arg)).(state := OP_START)
  {
    FeedWhole(m, arg);
    var m2 := Reading(m, arg);
    assert arg[..|arg|] == arg;
    EndOfArgument(m2, if CR in arg[1..] then arg[..|arg| - 1] else arg);
    FeedConcat(m, arg, [NL]);
    FeedOne(m2, NL);
  }

  /** A chunk that ends after the first byte of the argument. */
  lemma FirstByte(m: Machine, b: byte)
    requires AwaitsArgument(m) && IsLineArgument([b])
    ensures Run(m, [b]) == m.(state := ArgOf(m.state), argBuf := Some([b]))
  {
    FeedOne(m, b);
    assert Argument(Step(m, b)) == [b];
  }

  /** The rest of an argument whose start is in the side buffer. */
  lemma SpilledLine(m: Machine, s: bytes)
    requires m.failure.None? && (m.state == INFO_ARG || m.state == MINUS_ERR_ARG)
    requires m.argBuf.Some? && m.cur == [] && NL !in s
    ensures var data := m.argBuf.value + DropCRs(s);
            Feed(m, s + [NL]) ==
            Push(m, if m.state == INFO_ARG then InfoEvent(data) else ErrEvent(data)).(
              drop := 0, argBuf := None, state := OP_START)
  {
    FeedArgument(m, s);
    EndOfArgument(Feed(m, s), m.argBuf.value + DropCRs(s));
    FeedConcat(m, s, [NL]);
    FeedOne(Feed(m, s), NL);
  }

  /** Cut after its first byte the argument loses every CR after the first byte. */
  lemma {:induction false} SplitArgument(m: Machine, arg: bytes)
    requires AwaitsArgument(m) && IsLineArgument(arg)
    ensures Run(Run(m, arg[..1]), arg[1..] + [NL]) ==
            Push(m, ArgEvent(m.state, arg[..1] + DropCRs(arg[1..]))).(state := OP_START)
  {
    assert arg[..1] == [arg[0]];
    FirstByte(m, arg[0]);
    SpilledLine(m.(state := ArgOf(m.state), argBuf := Some(arg[..1])), arg[1..]);
  }

  lemma StrayArgumentsDiffer(arg: bytes)
    requires StrayCR(arg)
    ensures CR in arg[1..]
    ensures arg[..|arg| - 1] != arg[..1] + DropCRs(arg[1..])
  {
    var i :| 0 <= i < |arg[1..|arg| - 1]| && arg[1..|arg| - 1][i] == CR;
    assert arg[1..][i] == CR && arg[..|arg| - 1][1 + i] == CR;
    var split := arg[..1] + DropCRs(arg[1..]);
    assert forall k :: 1 <= k < |split| ==> split[k] == DropCRs(arg[1..])[k - 1];
  }

  lemma PushesDiffer(m: Machine, e1: Event, e2: Event)
    requires e1 != e2
    ensures Push(m, e1).events != Push(m, e2).events
  {
    assert Push(m, e1).events[|m.events|] == e1;
    assert Push(m, e2).events[|m.events|] == e2;
  }

  lemma FlattenPair(m: Machine, a: bytes, b: bytes)
    ensures Flatten([a, b]) == a + b
    ensures RunAll(m, [a, b]) == Run(Run(m, a), b)
  {
    var cut: seq<bytes> := [a, b];
    assert cut[1..] == [b] && |cut[1..][1..]| == 0;
    assert RunAll(m, cut) == RunAll(Run(m, a), cut[1..]);
    assert RunAll(Run(m, a), [b]) == RunAll(Run(Run(m, a), b), [b][1..]);
    assert Flatten([b]) == b + [] == b;
  }

  lemma {:induction false} CleanArgumentByte(m: Machine, arg: bytes, i: nat)
    requires AwaitsArgument(m) && IsLineArgument(arg) && !StrayCR(arg) && 0 < i < |arg|
    ensures CleanStep(Feed(m, arg[..i]), arg[i])
  {
    hide Feed, Inv;
    FeedWhole(m, arg[..i]);
    var seen := arg[..i][1..];
    assert forall j :: 0 <= j < |seen| ==> seen[j] == arg[1..|arg| - 1][j];
    assert CR !in seen;
  }

  lemma {:induction false} CleanArgument(m: Machine, arg: bytes)
    requires AwaitsArgument(m) && IsLineArgument(arg) && !StrayCR(arg)
    ensures Clean(m, arg + [NL])
  {
    var s := arg + [NL];
    forall i | 0 <= i < |s|
      ensures CleanStep(Feed(m, s[..i]), s[i])
    {
      hide Feed, StrayCR, Inv;
      if i == 0 {
        FeedNothing(m);
        assert s[..0] == [];
      } else if i < |arg| {
        assert s[..i] == arg[..i];
        CleanArgumentByte(m, arg, i);
      }
    }
  }

  lemma {:induction false} StrayCRShows(m: Machine, arg: bytes) returns (chunks: seq<bytes>)
    requires AwaitsArgument(m) && IsLineArgument(arg) && StrayCR(arg)
    ensures Flatten(chunks) == arg + [NL]
    ensures RunAll(m, chunks).events != Run(m, arg + [NL]).events
  {
    hide Run, RunAll, AwaitsArgument;
    chunks := [arg[..1], arg[1..] + [NL]];
    FlattenPair(m, arg[..1], arg[1..] + [NL]);
    assert arg[..1] + (arg[1..] + [NL]) == arg + [NL];
    WholeArgument(m, arg);
    SplitArgument(m, arg);
    StrayArgumentsDiffer(arg);
    PushesDiffer(m, ArgEvent(m.state, arg[..|arg| - 1]), ArgEvent(m.state, arg[..1] + DropCRs(arg[1..])));
  }

  /**
   * The exact condition for INFO and -ERR: the event is the same for every way of cutting
   * the line if and only if the argument has no stray CR.
   */
  lemma {:induction false} ChunkIndependenceExact(m: Machine, arg: bytes)
    requires AwaitsArgument(m) && IsLineArgument(arg)
    ensures (forall chunks :: Flatten(chunks) == arg + [NL] ==>
               RunAll(m, chunks).events == Run(m, arg + [NL]).events)
            <==> !StrayCR(arg)
  {
    hide Run, RunAll, StrayCR, IsLineArgument, Clean, Same, Inv;
    if StrayCR(arg) {
      var chunks := StrayCRShows(m, arg);
    } else {
      CleanArgument(m, arg);
      forall chunks | Flatten(chunks) == arg + [NL]
        ensures RunAll(m, chunks).events == Run(m, arg + [NL]).events
      {
        ChunkIndependence(m, chunks);
      }
    }
  }
}
