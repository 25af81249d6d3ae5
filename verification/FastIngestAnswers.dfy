/** How FastIngest answers its calls: which event settles a promise, and with what. */
module FastIngestAnswers {
  import opened Bytes
  import opened FastIngestSpec
  import opened FastIngestTheorems

  // ----- what an event means for a call that waits

  function AckedThen(s: St, sn: Option<int>): int {
    if sn.Some? then Larger(s.acked, sn.value) else s.acked
  }

  function WindowThen(c: Config, s: St, msgs: Option<int>): int {
    (if msgs.Some? then msgs.value else s.ackInterval) * c.maxOutstandingAcks
  }

  /**
   * The promise of an entry is rejected by an error, a deadline, or the commit of another call;
   * `last` and `end` are committed by their own pub ack; an add and a ping make progress with
   * their own number when the batch is committed, when their own ack comes, and an add also when
   * the window has moved far enough.
   */
  function Fate(c: Config, s: St, e: Event, x: Entry): Option<Settlement> {
    match e
    case DoDeadline => Some(Rejected)
    case DoRoute(Failed) => Some(Rejected)
    case DoRoute(Terminal(subject)) =>
      if x.op == Append || x.op == Ping then Some(Progress(x.sn, s.acked))
      else if x.key == subject && (x.op == Final || x.op == EOB) then Some(Committed)
      else Some(Rejected)
    case DoRoute(Flow(subject, msgs, sn)) =>
      var acked := AckedThen(s, sn);
      if (x.key == subject && (x.op == Append || x.op == Ping)) || (x.op == Append && x.sn - acked < WindowThen(c, s, msgs)) then
        Some(Progress(x.sn, acked))
      else None
    case _ => None
  }

  /** What step `s` to `s1` did with an entry that waited. */
  predicate Fated(s: St, s1: St, x: Entry, fate: Option<Settlement>) {
    && s.settled <= s1.settled
    && match fate
       case Some(how) => (x.promise, how) in s1.settled[|s.settled|..] && x !in s1.pending
       case None => x in s1.pending
  }

  lemma {:induction false} StragglersAre(p: seq<Entry>, acked: int)
    ensures |Stragglers(p, acked)| == |p|
    ensures forall i :: 0 <= i < |p| ==> Stragglers(p, acked)[i] == Straggler(p[i], acked)
  {
    if p != [] {
      StragglersAre(p[..|p| - 1], acked);
    }
  }

  lemma {:induction false} RejectionsAre(p: seq<Entry>)
    ensures |Rejections(p)| == |p|
    ensures forall i :: 0 <= i < |p| ==> Rejections(p)[i] == (p[i].promise, Rejected)
  {
    if p != [] {
      RejectionsAre(p[..|p| - 1]);
    }
  }

  lemma {:induction false} OpenedHas(p: seq<Entry>, x: Entry, acked: int, window: int)
    requires x in p && Opens(x, acked, window)
    ensures (x.promise, Progress(x.sn, acked)) in Opened(p, acked, window)
  {
    if p[|p| - 1] != x {
      OpenedHas(p[..|p| - 1], x, acked, window);
    }
  }

  lemma InTail<T>(a: seq<T>, b: seq<T>, x: T)
    requires x in b
    ensures x in (a + b)[|a|..]
  {
    assert (a + b)[|a|..] == b;
  }

  lemma CloseFate(s: St, x: Entry)
    requires x in s.pending
    ensures Fated(s, Close(s), x, Some(Rejected))
  {
    RejectionsAre(s.pending);
    var i := IndexOf(s.pending, x);
    assert Rejections(s.pending)[i] == (x.promise, Rejected);
    InTail(s.settled, Rejections(s.pending), (x.promise, Rejected));
  }

  lemma SameKey(p: seq<Entry>, i: nat, j: nat)
    requires DistinctKeys(p) && i < |p| && j < |p| && p[i].key == p[j].key
    ensures i == j
  {
  }

  /** The entry of a subject is the one found. */
  lemma FoundIs(p: seq<Entry>, x: Entry, subject: bytes)
    requires DistinctKeys(p) && x in p
    ensures x.key == subject <==> Find(p, subject) >= 0 && p[Find(p, subject)] == x
  {
    var i, j := Find(p, subject), IndexOf(p, x);
    if x.key == subject {
      SameKey(p, i, j);
    }
  }

  lemma OthersStay(p: seq<Entry>, i: nat, x: Entry)
    requires DistinctKeys(p) && i < |p| && x in p
    ensures x in p[..i] + p[i + 1..] <==> x != p[i]
  {
    var q := p[..i] + p[i + 1..];
    forall k | 0 <= k < |q|
      ensures q[k] != p[i]
    {
      if q[k] == p[i] {
        SameKey(p, i, if k < i then k else k + 1);
      }
    }
    if x != p[i] {
      var j := IndexOf(p, x);
      assert q[if j < i then j else j - 1] == x;
    }
  }

  /** One step and then another. */
  lemma FatedThen(s: St, s0: St, s1: St, x: Entry, first: Option<Settlement>, second: Option<Settlement>)
    requires Fated(s, s0, x, first) && s0.settled <= s1.settled && (forall e :: e in s1.pending ==> e in s0.pending)
    requires first.None? ==> Fated(s0, s1, x, second)
    ensures Fated(s, s1, x, if first.Some? then first else second)
  {
    var tail := s0.settled[|s.settled|..];
    var more := s1.settled[|s0.settled|..];
    assert s1.settled == s0.settled + more && s0.settled == s.settled + tail;
    assert s1.settled[|s.settled|..] == tail + more;
  }

  /** One entry is settled and deleted. */
  lemma OneFate(s: St, i: nat, how: Settlement, x: Entry)
    requires DistinctKeys(s.pending) && i < |s.pending| && x in s.pending
    ensures Fated(s, Settle(s, s.pending[i].promise, how).(pending := s.pending[..i] + s.pending[i + 1..]), x,
                  if x == s.pending[i] then Some(how) else None)
  {
    OthersStay(s.pending, i, x);
    hide DistinctKeys;
    if x == s.pending[i] {
      InTail(s.settled, [(x.promise, how)], (x.promise, how));
    }
  }

  lemma ConcludeFate(s: St, x: Entry)
    ensures x in s.pending ==> Fated(s, Conclude(s), x, Some(Straggler(x, s.acked).1))
    ensures s.settled <= Conclude(s).settled && Conclude(s).pending == []
  {
    if x in s.pending {
      StragglersAre(s.pending, s.acked);
      var j := IndexOf(s.pending, x);
      assert Stragglers(s.pending, s.acked)[j] == Straggler(x, s.acked);
      InTail(s.settled, Stragglers(s.pending, s.acked), Straggler(x, s.acked));
    }
  }

  lemma {:induction false} TerminalFate(c: Config, s: St, subject: bytes, x: Entry)
    requires DistinctKeys(s.pending) && x in s.pending
    ensures Fated(s, OnTerminal(s, subject), x, Fate(c, s, DoRoute(Terminal(subject)), x))
  {
    hide DistinctKeys, Fated, Conclude;
    FoundIs(s.pending, x, subject);
    var i := Find(s.pending, subject);
    ConcludeFate(s, x);
    if i >= 0 && (s.pending[i].op == Final || s.pending[i].op == EOB) {
      var s0 := Settle(s, s.pending[i].promise, Committed).(pending := Delete(s.pending, subject));
      OneFate(s, i, Committed, x);
      OthersStay(s.pending, i, x);
      ConcludeFate(s0, x);
      FatedThen(s, s0, OnTerminal(s, subject), x, if x == s.pending[i] then Some(Committed) else None,
                Some(Straggler(x, s.acked).1));
    }
  }

  /** The ack is counted before an entry is settled exactly. */
  lemma ExactFate(c: Config, s: St, subject: bytes, msgs: Option<int>, sn: Option<int>, x: Entry) returns (first: Option<Settlement>)
    requires DistinctKeys(s.pending) && x in s.pending
    ensures var r := ResolveExact(Acknowledge(s, msgs, sn), subject);
            && Fated(s, r, x, first)
            && r.acked == AckedThen(s, sn) && r.ackInterval == (if msgs.Some? then msgs.value else s.ackInterval)
    ensures first == if x.key == subject && WaitsForFlow(x) then Some(Progress(x.sn, AckedThen(s, sn))) else None
  {
    hide DistinctKeys, Fated;
    FoundIs(s.pending, x, subject);
    var a := Acknowledge(s, msgs, sn);
    var i := Find(s.pending, subject);
    Unchanged(a, x);
    first := None;
    if i >= 0 && WaitsForFlow(s.pending[i]) {
      OneFate(a, i, Progress(s.pending[i].sn, a.acked), x);
      first := if x == s.pending[i] then Some(Progress(x.sn, a.acked)) else None;
    }
    SameSettled(s, a, ResolveExact(a, subject), x, first);
  }

  lemma {:induction false} FlowFate(c: Config, s: St, subject: bytes, msgs: Option<int>, sn: Option<int>, x: Entry)
    requires DistinctKeys(s.pending) && x in s.pending
    ensures Fated(s, OnFlow(c, s, subject, msgs, sn), x, Fate(c, s, DoRoute(Flow(subject, msgs, sn)), x))
  {
    var first := ExactFate(c, s, subject, msgs, sn, x);
    var r := ResolveExact(Acknowledge(s, msgs, sn), subject);
    hide DistinctKeys, ResolveExact, Slide, Acknowledge, Window, WindowThen;
    WindowIs(c, s, r, msgs);
    assert first.None? ==> x in r.pending;
    hide Fated;
    assert Fate(c, s, DoRoute(Flow(subject, msgs, sn)), x) == if first.Some? then first else SlideOf(c, r, x);
    SlideFate(c, r, x);
    SlideSettles(c, r);
    FatedThen(s, r, Slide(c, r), x, first, SlideOf(c, r, x));
  }

  lemma WindowIs(c: Config, s: St, r: St, msgs: Option<int>)
    requires r.ackInterval == if msgs.Some? then msgs.value else s.ackInterval
    ensures Window(c, r) == WindowThen(c, s, msgs)
  {
  }

  lemma SameSettled(s: St, a: St, s1: St, x: Entry, fate: Option<Settlement>)
    requires Fated(a, s1, x, fate) && a.settled == s.settled
    ensures Fated(s, s1, x, fate)
  {
  }

  function SlideOf(c: Config, s: St, x: Entry): Option<Settlement> {
    if Opens(x, s.acked, Window(c, s)) then Some(Progress(x.sn, s.acked)) else None
  }

  lemma SlideFate(c: Config, s: St, x: Entry)
    ensures x in s.pending ==> Fated(s, Slide(c, s), x, SlideOf(c, s, x))
  {
    hide Window;
    var window := Window(c, s);
    BlockedFrom(s.pending, s.acked, window);
    if x in s.pending {
      if Opens(x, s.acked, window) {
        OpenedHas(s.pending, x, s.acked, window);
        InTail(s.settled, Opened(s.pending, s.acked, window), (x.promise, Progress(x.sn, s.acked)));
      } else {
        BlockedKeeps(s.pending, x, s.acked, window);
      }
    }
  }

  lemma SlideSettles(c: Config, s: St)
    ensures s.settled <= Slide(c, s).settled && forall e :: e in Slide(c, s).pending ==> e in s.pending
  {
    BlockedFrom(s.pending, s.acked, Window(c, s));
  }

  /** No call settles a promise, or takes an entry of another call away. */
  lemma {:induction false} CallFate(c: Config, s: St, e: Event, x: Entry)
    requires Inv(c, s) && x in s.pending && !e.DoRoute? && !e.DoDeadline?
    ensures Fated(s, Step(c, s, e), x, None)
  {
    hide Window, Accounted, WindowShut, DistinctKeys;
    if e.DoPing? {
      PingEffect(c, s, e.ok);
      assert x in PingCall(c, s, e.ok).0.pending[..|s.pending|];
    } else if !e.DoTick? {
      CallEffect(c, s, e);
      var s1 := Step(c, s, e);
      assert s1.pending == s.pending || x in s1.pending[..|s.pending|];
    }
  }

  /** Every event does with every call that waits what its fate is. */
  lemma StepFate(c: Config, s: St, e: Event, x: Entry)
    requires Inv(c, s) && x in s.pending
    ensures Fated(s, Step(c, s, e), x, Fate(c, s, e, x))
  {
    assert DistinctKeys(s.pending) && (s.sn == 0 ==> s.pending == []) && (s.closed ==> s.pending == []);
    hide Accounted, EntriesOk, WindowShut, DistinctKeys, OnTerminal, OnFlow, Close, Fated;
    match e {
      case DoDeadline => CloseFate(s, x);
      case DoRoute(m) =>
        match m {
          case Failed => CloseFate(s, x);
          case Terminal(subject) => TerminalFate(c, s, subject, x);
          case Gap => Unchanged(s, x);
          case Flow(subject, msgs, sn) => FlowFate(c, s, subject, msgs, sn, x);
        }
      case _ => CallFate(c, s, e, x);
    }
  }

  lemma Unchanged(s: St, x: Entry)
    requires x in s.pending
    ensures Fated(s, s, x, None)
  {
  }

  // ----- over runs

  /** The entry of a call that waits. */
  function EntryOf(c: Config, s: St, e: Event, id: nat): Entry {
    var op := if e.DoAdd? then Append else if e.DoLast? then Final else if e.DoEnd? then EOB else Ping;
    var n := if e.DoPing? then s.sn else s.sn + 1;
    Entry(ReplyFor(c.prefix, op, n), n, op, id)
  }

  lemma {:induction false} WaitsAs(c: Config, s: St, e: Event, id: nat)
    requires Inv(c, s) && AnswerOf(c, s, e) == Some(Waits(id))
    ensures EntryOf(c, s, e, id) in Step(c, s, e).pending
  {
    hide Accounted, WindowShut, DistinctKeys;
    var x := EntryOf(c, s, e, id);
    var i := Find(s.pending, x.key);
    if e.DoPing? {
      if i >= 0 {
        assert EntryOk(c, s.pending[i], s.sn);
        ReplyForInjective(c.prefix, s.pending[i].op, s.pending[i].sn, Ping, s.sn);
      } else {
        assert Step(c, s, e).pending == s.pending + [x];
      }
    } else {
      KeyIsFresh(c, s.pending, s.sn, x.op, x.sn);
      assert Step(c, s, e).pending == s.pending + [x];
    }
  }

  /** The fate of an entry over a run: that of the first event that has one for it. */
  function FateOver(c: Config, s: St, events: seq<Event>, x: Entry): Option<Settlement> {
    if events == [] then None
    else
      var n := |events| - 1;
      var fate := FateOver(c, s, events[..n], x);
      if fate.Some? then fate else Fate(c, Run(c, s, events[..n]), events[n], x)
  }

  lemma {:induction false} RunInvFrom(c: Config, s: St, events: seq<Event>)
    requires Inv(c, s)
    ensures Inv(c, Run(c, s, events))
  {
    if events != [] {
      hide Inv, Step;
      RunInvFrom(c, s, events[..|events| - 1]);
      StepInv(c, Run(c, s, events[..|events| - 1]), events[|events| - 1]);
    }
  }

  lemma {:induction false} RunFate(c: Config, s: St, events: seq<Event>, x: Entry)
    requires Inv(c, s) && x in s.pending
    ensures match FateOver(c, s, events, x)
            case Some(how) => (x.promise, how) in Run(c, s, events).settled
            case None => x in Run(c, s, events).pending
  {
    if events != [] {
      hide Inv, Step, Fate;
      var n := |events| - 1;
      var s0 := Run(c, s, events[..n]);
      RunFate(c, s, events[..n], x);
      RunInvFrom(c, s, events[..n]);
      if FateOver(c, s, events[..n], x).None? {
        StepFate(c, s0, events[n], x);
      } else {
        StepMonotone(c, s0, events[n]);
      }
    }
  }

  lemma {:induction false} SettledMember(log: seq<(nat, Settlement)>, id: nat, how: Settlement)
    ensures (id, how) in log ==> InSettled(log, id) >= 1
  {
    if log != [] {
      SettledMember(log[..|log| - 1], id, how);
    }
  }

  lemma {:induction false} SettledOnce(log: seq<(nat, Settlement)>, id: nat, a: Settlement, b: Settlement)
    requires (id, a) in log && (id, b) in log && InSettled(log, id) == 1
    ensures a == b
  {
    var n := |log| - 1;
    if log[n].0 == id {
      SettledMember(log[..n], id, a);
      SettledMember(log[..n], id, b);
    } else {
      SettledOnce(log[..n], id, a, b);
    }
  }

  /** Where a call left off, and the run after it. */
  lemma CallThen(c: Config, ackInterval: int, before: seq<Event>, e: Event, after: seq<Event>)
    ensures Run(c, Initial(ackInterval), before + [e]) == Step(c, Run(c, Initial(ackInterval), before), e)
    ensures Run(c, Initial(ackInterval), before + [e] + after) == Run(c, Step(c, Run(c, Initial(ackInterval), before), e), after)
  {
    assert (before + [e])[..|before|] == before;
    RunConcat(c, Initial(ackInterval), before + [e], after);
  }

  /**
   * Every promise a call hands out is settled by the first event that has a fate for it, and as
   * that says; until then it waits.
   */
  lemma {:induction false} Answered(c: Config, ackInterval: int, before: seq<Event>, e: Event, after: seq<Event>, id: nat)
    requires AnswerOf(c, Run(c, Initial(ackInterval), before), e) == Some(Waits(id))
    ensures var s0 := Run(c, Initial(ackInterval), before);
            var x := EntryOf(c, s0, e, id);
            var s := Run(c, Initial(ackInterval), before + [e] + after);
            match FateOver(c, Step(c, s0, e), after, x)
            case Some(how) => InSettled(s.settled, id) == 1 && (id, how) in s.settled && forall h :: (id, h) in s.settled ==> h == how
            case None => x in s.pending && InSettled(s.settled, id) == 0
  {
    hide Step, Inv, AnswerOf, Fate, EntryOf;
    var s0 := Run(c, Initial(ackInterval), before);
    var x := EntryOf(c, s0, e, id);
    CallThen(c, ackInterval, before, e, after);
    RunInv(c, ackInterval, before);
    StepInv(c, s0, e);
    WaitsAs(c, s0, e, id);
    PromiseOf(c, s0, e, id);
    RunFate(c, Step(c, s0, e), after, x);
    SettledExactlyOnce(c, ackInterval, before, e, after, id);
    var s := Run(c, Initial(ackInterval), before + [e] + after);
    match FateOver(c, Step(c, s0, e), after, x) {
      case Some(how) =>
        SettledMember(s.settled, id, how);
        forall h | (id, h) in s.settled
          ensures h == how
        {
          SettledOnce(s.settled, id, h, how);
        }
      case None => PendingDelete(s.pending, IndexOf(s.pending, x), id);
    }
  }

  lemma PromiseOf(c: Config, s: St, e: Event, id: nat)
    ensures EntryOf(c, s, e, id).promise == id
  {
  }

  // ----- last and end

  /** An event that has a fate for a `last` or `end` closes the batch. */
  lemma CommitFate(c: Config, s: St, e: Event, x: Entry)
    requires Inv(c, s) && x in s.pending && (x.op == Final || x.op == EOB) && Fate(c, s, e, x).Some?
    ensures Step(c, s, e).closed
  {
    hide Accounted, EntriesOk, DistinctKeys, WindowShut;
  }

  lemma {:induction false} CommitWaits(c: Config, s: St, events: seq<Event>, x: Entry)
    requires Inv(c, s) && x in s.pending && (x.op == Final || x.op == EOB) && !Run(c, s, events).closed
    ensures FateOver(c, s, events, x).None?
  {
    if events != [] {
      hide Inv, Step, Fate;
      var n := |events| - 1;
      var s0 := Run(c, s, events[..n]);
      StepMonotone(c, s0, events[n]);
      CommitWaits(c, s, events[..n], x);
      RunInvFrom(c, s, events[..n]);
      RunFate(c, s, events[..n], x);
      if Fate(c, s0, events[n], x).Some? {
        CommitFate(c, s0, events[n], x);
      }
    }
  }

  /**
   * While the batch is open a `last` or `end` waits. The pub ack on its own subject resolves it
   * with the ack; a pub ack on any other subject rejects it. Either way `done()` is resolved.
   */
  lemma {:induction false} CommittedByItsAck(
    c: Config, ackInterval: int, before: seq<Event>, e: Event, after: seq<Event>, id: nat, subject: bytes)
    requires (e.DoLast? || e.DoEnd?) && AnswerOf(c, Run(c, Initial(ackInterval), before), e) == Some(Waits(id))
    requires !Run(c, Initial(ackInterval), before + [e] + after).closed
    ensures var n := Run(c, Initial(ackInterval), before).sn + 1;
            var own := subject == ReplyFor(c.prefix, if e.DoLast? then Final else EOB, n);
            var s := Run(c, Initial(ackInterval), before + [e] + (after + [DoRoute(Terminal(subject))]));
            && (id, if own then Committed else Rejected) in s.settled
            && (forall how :: (id, how) in s.settled ==> how == if own then Committed else Rejected)
            && s.closed && s.done == Some(Committed)
  {
    var s0 := Run(c, Initial(ackInterval), before);
    var x := EntryOf(c, s0, e, id);
    hide Step, Inv, AnswerOf, Fate, ReplyFor;
    var s1 := Step(c, s0, e);
    var t := DoRoute(Terminal(subject));
    RunInv(c, ackInterval, before);
    StepInv(c, s0, e);
    CallThen(c, ackInterval, before, e, after);
    CallThen(c, ackInterval, before, e, after + [t]);
    WaitsAs(c, s0, e, id);
    CommitWaits(c, s1, after, x);
    assert (after + [t])[..|after|] == after;
    RunFate(c, s1, after, x);
    RunInvFrom(c, s1, after);
    DoneByTerminal(c, Run(c, s1, after), subject, x);
    Answered(c, ackInterval, before, e, after + [t], id);
  }

  lemma DoneByTerminal(c: Config, s: St, subject: bytes, x: Entry)
    requires Inv(c, s) && !s.closed && x in s.pending
    ensures var s1 := Step(c, s, DoRoute(Terminal(subject))); s1.closed && s1.done == Some(Committed)
    ensures x.op == Final || x.op == EOB ==>
              Fate(c, s, DoRoute(Terminal(subject)), x) == Some(if x.key == subject then Committed else Rejected)
  {
    hide Accounted, EntriesOk, DistinctKeys, WindowShut;
  }

  // ----- add and ping

  predicate Fails(e: Event) {
    e.DoDeadline? || (e.DoRoute? && e.m.Failed?)
  }

  lemma {:induction false} FateAt(c: Config, s: St, events: seq<Event>, x: Entry) returns (k: nat)
    requires Inv(c, s) && FateOver(c, s, events, x).Some?
    ensures k < |events| && FateOver(c, s, events, x) == Fate(c, Run(c, s, events[..k]), events[k], x)
    ensures FateOver(c, s, events[..k], x).None?
  {
    var n := |events| - 1;
    if FateOver(c, s, events[..n], x).Some? {
      k := FateAt(c, s, events[..n], x);
      assert events[..n][..k] == events[..k];
    } else {
      k := n;
    }
  }

  lemma ProgressFate(c: Config, s: St, e: Event, x: Entry)
    requires Inv(c, s) && x in s.pending && WaitsForFlow(x) && Fate(c, s, e, x).Some?
    ensures Fate(c, s, e, x) == Some(if Fails(e) then Rejected else Progress(x.sn, Step(c, s, e).acked))
  {
    hide Accounted, EntriesOk, DistinctKeys, WindowShut, Window, Find, Blocked, Opened;
    if e.DoRoute? && e.m.Flow? {
      FlowEffect(c, s, e.m);
    }
  }

  /**
   * An add or a ping that was answered got its own number and what was acked at that moment, and
   * is rejected only by an error or a deadline; nobody else's commit rejects it.
   */
  lemma {:induction false} ProgressOfItsOwn(
    c: Config, ackInterval: int, before: seq<Event>, e: Event, after: seq<Event>, id: nat, how: Settlement) returns (k: nat)
    requires (e.DoAdd? || e.DoPing?) && AnswerOf(c, Run(c, Initial(ackInterval), before), e) == Some(Waits(id))
    requires (id, how) in Run(c, Initial(ackInterval), before + [e] + after).settled
    ensures k < |after|
    ensures how == if Fails(after[k]) then Rejected
                   else Progress(Run(c, Initial(ackInterval), before + [e]).sn, Run(c, Initial(ackInterval), before + [e] + after[..k + 1]).acked)
  {
    var s0 := Run(c, Initial(ackInterval), before);
    var x := EntryOf(c, s0, e, id);
    OwnNumber(c, s0, e, id);
    hide Step, Inv, AnswerOf, Fate, ReplyFor, EntryOf;
    var s1 := Step(c, s0, e);
    RunInv(c, ackInterval, before);
    StepInv(c, s0, e);
    CallThen(c, ackInterval, before, e, after);
    WaitsAs(c, s0, e, id);
    Answered(c, ackInterval, before, e, after, id);
    SettledMember(Run(c, Initial(ackInterval), before + [e] + after).settled, id, how);
    k := FateAt(c, s1, after, x);
    CallThen(c, ackInterval, before, e, after[..k + 1]);
    assert after[..k + 1][..k] == after[..k];
    RunFate(c, s1, after[..k], x);
    RunInvFrom(c, s1, after[..k]);
    ProgressFate(c, Run(c, s1, after[..k]), after[k], x);
  }

  lemma OwnNumber(c: Config, s: St, e: Event, id: nat)
    requires (e.DoAdd? || e.DoPing?) && AnswerOf(c, s, e) == Some(Waits(id))
    ensures EntryOf(c, s, e, id).sn == Step(c, s, e).sn && WaitsForFlow(EntryOf(c, s, e, id))
  {
  }

  // ----- what a call publishes and returns at once

  /** A call that cannot be made changes nothing but the count of promises. */
  predicate Unmade(s: St, s1: St) {
    s1 == s.(created := s1.created, withdrawn := s1.withdrawn)
  }

  /**
   * On an open batch that was started a call publishes its own kind of message with the next number, or
   * is rejected and leaves everything as it was. An add returns at once exactly when the window
   * has room; `last` and `end` always wait.
   */
  lemma {:induction false} CallPublishes(c: Config, ackInterval: int, before: seq<Event>, e: Event)
    requires e.DoAdd? || e.DoLast? || e.DoEnd?
    requires var s := Run(c, Initial(ackInterval), before); !s.closed && s.sn > 0
    ensures var s := Run(c, Initial(ackInterval), before);
            var s1, answer := Step(c, s, e), AnswerOf(c, s, e).value;
            if !e.ok then Unmade(s, s1) && answer == RejectedNow
            else
              && s1.sent == s.sent + [Sent(if e.DoAdd? then Append else if e.DoLast? then Final else EOB, s.sn + 1)]
              && answer == (if e.DoAdd? && s.sn + 1 - s.acked < s.ackInterval * c.maxOutstandingAcks
                            then ProgressNow(s.sn + 1, s.acked) else Waits(s.created))
  {
    var s := Run(c, Initial(ackInterval), before);
    RunInv(c, ackInterval, before);
    KeyIsFresh(c, s.pending, s.sn, Final, s.sn + 1);
    KeyIsFresh(c, s.pending, s.sn, EOB, s.sn + 1);
    FailedCommit(c, s, Final);
    FailedCommit(c, s, EOB);
  }

  /** Before the start an add or `last` starts the batch, and `end` closes it with nothing sent. */
  lemma FirstCall(c: Config, s: St, e: Event)
    requires !s.closed && s.sn == 0 && s.done.None? && s.start.None?
    ensures (e.DoAdd? || e.DoLast?) && e.ok ==>
              Step(c, s, e) == s.(sn := 1, sent := s.sent + [Sent(Start, 1)]) && AnswerOf(c, s, e) == Some(WaitsForStart)
    ensures (e.DoAdd? || e.DoLast?) && !e.ok ==> Step(c, s, e) == s && AnswerOf(c, s, e) == Some(RejectedNow)
    ensures e.DoEnd? ==>
              && Step(c, s, e) == s.(closed := true, start := Some(Committed), done := Some(Committed))
              && AnswerOf(c, s, e) == Some(EmptyBatch)
    ensures e.DoPing? ==> Step(c, s, e) == s && AnswerOf(c, s, e) == Some(ProgressNow(0, 0))
  {
  }

  /** A closed batch rejects every call and publishes nothing more. */
  lemma {:induction false} ClosedIsSilent(c: Config, s: St, events: seq<Event>)
    requires s.closed
    ensures var s1 := Run(c, s, events); s1.closed && s1.sent == s.sent && s1.sn == s.sn && s1.created == s.created
    ensures forall e: Event :: e.DoAdd? || e.DoLast? || e.DoEnd? || e.DoPing? ==> AnswerOf(c, Run(c, s, events), e) == Some(RejectedNow)
  {
    if events != [] {
      var n := |events| - 1;
      ClosedIsSilent(c, s, events[..n]);
      hide Window, Stragglers, Rejections, Find, Blocked, Opened;
    }
  }

  // ----- `done()`, the start, and the acks

  /** How an event settles `done()` and the wait for the start, if it does. */
  function DoneFate(s: St, e: Event): Option<Settlement> {
    if s.sn == 0 then (if e.DoEnd? then Some(Committed) else None)
    else if Fails(e) then Some(Rejected)
    else if e.DoRoute? && e.m.Terminal? then Some(Committed)
    else None
  }

  lemma DoneSettledBy(c: Config, s: St, e: Event)
    requires Inv(c, s) && !s.closed
    ensures Step(c, s, e).done == DoneFate(s, e) && (Step(c, s, e).closed <==> DoneFate(s, e).Some?)
    ensures s.start.None? ==>
              Step(c, s, e).start == if s.sn > 0 && e.DoRoute? && e.m.Flow? then Some(Committed) else DoneFate(s, e)
    ensures s.start.Some? ==> Step(c, s, e).start == s.start
  {
    hide Accounted, EntriesOk, DistinctKeys, WindowShut, Window, Stragglers, Rejections, Find, Blocked, Opened;
  }

  /** Acks are cumulative; the newest window counts; nothing else moves either. */
  lemma AckedBy(c: Config, s: St, e: Event)
    ensures var s1 := Step(c, s, e);
            if s.sn > 0 && e.DoRoute? && e.m.Flow? then
              && s1.acked == AckedThen(s, e.m.sn)
              && s1.ackInterval == (if e.m.msgs.Some? then e.m.msgs.value else s.ackInterval)
            else s1.acked == s.acked && s1.ackInterval == s.ackInterval
  {
    hide Window, Stragglers, Rejections, Find, Blocked, Opened;
  }

  /** The highest sequence acked in a run, by the flow acks that came after the start. */
  function HighestAck(c: Config, ackInterval: int, events: seq<Event>): int {
    if events == [] then 0
    else
      var n := |events| - 1;
      var before := HighestAck(c, ackInterval, events[..n]);
      var e := events[n];
      if Run(c, Initial(ackInterval), events[..n]).sn > 0 && e.DoRoute? && e.m.Flow? && e.m.sn.Some? then Larger(before, e.m.sn.value)
      else before
  }

  /** `acked` is the highest ack so far, whatever acks are lost, late or out of order. */
  lemma {:induction false} AckedIsHighest(c: Config, ackInterval: int, events: seq<Event>)
    ensures Run(c, Initial(ackInterval), events).acked == HighestAck(c, ackInterval, events)
  {
    if events != [] {
      hide Step;
      var n := |events| - 1;
      AckedIsHighest(c, ackInterval, events[..n]);
      AckedBy(c, Run(c, Initial(ackInterval), events[..n]), events[n]);
    }
  }

  /** A tick pings with the current number, unless a ping is under way or the batch is closed. */
  lemma TickPings(c: Config, ackInterval: int, before: seq<Event>, shared: bool, ok: bool)
    ensures var s := Run(c, Initial(ackInterval), before);
            var pinging := exists i :: 0 <= i < |s.pending| && s.pending[i].op == Ping && s.pending[i].sn == s.sn;
            Step(c, s, DoTick(shared, ok)) ==
              if s.sn > 0 && !s.closed && !shared && ok && !pinging then s.(sent := s.sent + [Sent(Ping, s.sn)]) else s
  {
    var s := Run(c, Initial(ackInterval), before);
    RunInv(c, ackInterval, before);
    hide Accounted, WindowShut;
    var key := ReplyFor(c.prefix, Ping, s.sn);
    var i := Find(s.pending, key);
    if j :| 0 <= j < |s.pending| && s.pending[j].op == Ping && s.pending[j].sn == s.sn {
      assert EntryOk(c, s.pending[j], s.sn);
      SameKey(s.pending, i, j);
    } else if i >= 0 {
      assert EntryOk(c, s.pending[i], s.sn);
      ReplyForInjective(c.prefix, s.pending[i].op, s.pending[i].sn, Ping, s.sn);
    }
  }

  /**
   * A ping on a started batch shares the promise of a ping on the same number, or publishes one of its
   * own and waits, or is rejected.
   */
  lemma {:induction false} PingExactly(c: Config, ackInterval: int, before: seq<Event>, ok: bool)
    requires var s := Run(c, Initial(ackInterval), before); !s.closed && s.sn > 0
    ensures var s := Run(c, Initial(ackInterval), before);
            var s1, answer := Step(c, s, DoPing(ok)), PingCall(c, s, ok).1;
            if i :| 0 <= i < |s.pending| && s.pending[i].op == Ping && s.pending[i].sn == s.sn then
              s1 == s && answer == Waits(s.pending[i].promise)
            else if ok then
              && s1.sent == s.sent + [Sent(Ping, s.sn)] && answer == Waits(s.created)
              && s1.pending == s.pending + [EntryOf(c, s, DoPing(ok), s.created)]
            else s1 == s && answer == RejectedNow
  {
    var s := Run(c, Initial(ackInterval), before);
    RunInv(c, ackInterval, before);
    hide Accounted, WindowShut;
    var key := ReplyFor(c.prefix, Ping, s.sn);
    var i := Find(s.pending, key);
    forall j | 0 <= j < |s.pending| && s.pending[j].op == Ping && s.pending[j].sn == s.sn
      ensures j == i
    {
      assert EntryOk(c, s.pending[j], s.sn);
      SameKey(s.pending, i, j);
    }
    if i >= 0 {
      assert EntryOk(c, s.pending[i], s.sn);
      ReplyForInjective(c.prefix, s.pending[i].op, s.pending[i].sn, Ping, s.sn);
    }
  }
}
