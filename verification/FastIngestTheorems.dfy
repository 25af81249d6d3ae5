/** What every run of FastIngest keeps: settlement, numbering and the window. */
module FastIngestTheorems {
  import opened Bytes
  import opened FastIngestSpec

  // ----- counting promises

  function One(b: bool): nat {
    if b then 1 else 0
  }

  function InPending(p: seq<Entry>, id: nat): nat {
    if p == [] then 0 else InPending(p[..|p| - 1], id) + One(p[|p| - 1].promise == id)
  }

  function InSettled(log: seq<(nat, Settlement)>, id: nat): nat {
    if log == [] then 0 else InSettled(log[..|log| - 1], id) + One(log[|log| - 1].0 == id)
  }

  function InWithdrawn(w: seq<nat>, id: nat): nat {
    if w == [] then 0 else InWithdrawn(w[..|w| - 1], id) + One(w[|w| - 1] == id)
  }

  /** How often a promise is waiting, settled or withdrawn, all together. */
  function Times(s: St, id: nat): nat {
    InPending(s.pending, id) + InSettled(s.settled, id) + InWithdrawn(s.withdrawn, id)
  }

  lemma {:induction false} SettledConcat(a: seq<(nat, Settlement)>, b: seq<(nat, Settlement)>, id: nat)
    ensures InSettled(a + b, id) == InSettled(a, id) + InSettled(b, id)
  {
    if b == [] {
      assert a + b == a;
    } else {
      SettledConcat(a, b[..|b| - 1], id);
      assert (a + b)[..|a + b| - 1] == a + b[..|b| - 1];
    }
  }

  lemma SettledPush(a: seq<(nat, Settlement)>, x: (nat, Settlement), id: nat)
    ensures InSettled(a + [x], id) == InSettled(a, id) + One(x.0 == id)
  {
    assert (a + [x])[..|a|] == a;
  }

  lemma PendingPush(p: seq<Entry>, e: Entry, id: nat)
    ensures InPending(p + [e], id) == InPending(p, id) + One(e.promise == id)
  {
    assert (p + [e])[..|p|] == p;
  }

  lemma {:induction false} PendingDelete(p: seq<Entry>, i: nat, id: nat)
    requires i < |p|
    ensures InPending(p[..i] + p[i + 1..], id) + One(p[i].promise == id) == InPending(p, id)
  {
    var n := |p| - 1;
    if i == n {
      assert p[..i] + p[i + 1..] == p[..n];
    } else {
      var q := p[..n];
      PendingDelete(q, i, id);
      PendingPush(q[..i] + q[i + 1..], p[n], id);
      assert p[..i] + p[i + 1..] == (q[..i] + q[i + 1..]) + [p[n]];
    }
  }

  lemma {:induction false} StragglersCount(p: seq<Entry>, acked: int, id: nat)
    ensures InSettled(Stragglers(p, acked), id) == InPending(p, id)
  {
    if p != [] {
      StragglersCount(p[..|p| - 1], acked, id);
      SettledPush(Stragglers(p[..|p| - 1], acked), Straggler(p[|p| - 1], acked), id);
    }
  }

  lemma {:induction false} RejectionsCount(p: seq<Entry>, id: nat)
    ensures InSettled(Rejections(p), id) == InPending(p, id)
  {
    if p != [] {
      RejectionsCount(p[..|p| - 1], id);
      SettledPush(Rejections(p[..|p| - 1]), (p[|p| - 1].promise, Rejected), id);
    }
  }

  lemma {:induction false} SlideCount(p: seq<Entry>, acked: int, window: int, id: nat)
    ensures InPending(Blocked(p, acked, window), id) + InSettled(Opened(p, acked, window), id) == InPending(p, id)
  {
    if p != [] {
      var q, e := p[..|p| - 1], p[|p| - 1];
      SlideCount(q, acked, window, id);
      PendingPush(Blocked(q, acked, window), e, id);
      SettledPush(Opened(q, acked, window), (e.promise, Progress(e.sn, acked)), id);
    }
  }

  // ----- the invariant

  ghost predicate Accounted(s: St) {
    forall id: nat :: Times(s, id) == One(id < s.created)
  }

  predicate EntryOk(c: Config, e: Entry, sn: nat) {
    e.key == ReplyFor(c.prefix, e.op, e.sn) && e.op != Start && 1 <= e.sn <= sn
  }

  predicate EntriesOk(c: Config, p: seq<Entry>, sn: nat) {
    forall i :: 0 <= i < |p| ==> EntryOk(c, p[i], sn)
  }

  predicate DistinctKeys(p: seq<Entry>) {
    forall i, j :: 0 <= i < j < |p| ==> p[i].key != p[j].key
  }

  /** The sequences of the published messages other than pings. */
  function Numbers(sent: seq<Sent>): seq<nat> {
    if sent == [] then []
    else
      var rest, last := Numbers(sent[..|sent| - 1]), sent[|sent| - 1];
      if last.op == Ping then rest else rest + [last.sn]
  }

  function UpTo(n: nat): seq<nat> {
    if n == 0 then [] else UpTo(n - 1) + [n]
  }

  predicate Lifecycle(s: St) {
    && (s.closed ==> s.pending == [] && s.start.Some?)
    && (s.closed <==> s.done.Some?)
    && (s.sn == 0 ==> s.pending == [] && (!s.closed ==> s.start.None?))
  }

  /** Every add still waiting is outside the window. */
  predicate WindowShut(c: Config, p: seq<Entry>, acked: int, window: int) {
    forall i :: 0 <= i < |p| ==> !Opens(p[i], acked, window)
  }

  ghost predicate Inv(c: Config, s: St) {
    && Accounted(s)
    && EntriesOk(c, s.pending, s.sn) && DistinctKeys(s.pending)
    && Numbers(s.sent) == UpTo(s.sn)
    && Lifecycle(s)
    && WindowShut(c, s.pending, s.acked, Window(c, s))
  }

  lemma InitialInv(c: Config, ackInterval: int)
    ensures Inv(c, Initial(ackInterval))
  {
    assert forall id: nat :: Times(Initial(ackInterval), id) == 0;
  }

  // ----- parts of the invariant, function by function

  lemma {:induction false} BlockedFrom(p: seq<Entry>, acked: int, window: int)
    ensures forall e :: e in Blocked(p, acked, window) ==> e in p && !Opens(e, acked, window)
  {
    if p != [] {
      BlockedFrom(p[..|p| - 1], acked, window);
    }
  }

  lemma {:induction false} BlockedDistinct(p: seq<Entry>, acked: int, window: int)
    requires DistinctKeys(p)
    ensures DistinctKeys(Blocked(p, acked, window))
  {
    if p != [] {
      var q := p[..|p| - 1];
      BlockedDistinct(q, acked, window);
      BlockedFrom(q, acked, window);
      var rest := Blocked(q, acked, window);
      forall i | 0 <= i < |rest|
        ensures rest[i].key != p[|p| - 1].key
      {
        assert rest[i] in q;
      }
    }
  }

  lemma SettleAll(s: St, more: seq<(nat, Settlement)>, id: nat)
    requires InSettled(more, id) == InPending(s.pending, id)
    ensures Times(s.(pending := [], settled := s.settled + more), id) == Times(s, id)
  {
    SettledConcat(s.settled, more, id);
  }

  lemma CloseInv(c: Config, s: St)
    requires Inv(c, s) && s.sn > 0
    ensures Inv(c, Close(s))
  {
    forall id: nat
      ensures Times(Close(s), id) == One(id < s.created)
    {
      RejectionsCount(s.pending, id);
      SettleAll(s, Rejections(s.pending), id);
    }
  }

  /** Settling one entry and deleting it. */
  lemma SettleOneTimes(s: St, i: nat, how: Settlement, id: nat)
    requires i < |s.pending|
    ensures Times(Settle(s, s.pending[i].promise, how).(pending := s.pending[..i] + s.pending[i + 1..]), id) == Times(s, id)
  {
    PendingDelete(s.pending, i, id);
    SettledPush(s.settled, (s.pending[i].promise, how), id);
  }

  /** The part of the invariant that does not depend on the window. */
  ghost predicate Core(c: Config, s: St) {
    && Accounted(s)
    && EntriesOk(c, s.pending, s.sn) && DistinctKeys(s.pending)
    && Numbers(s.sent) == UpTo(s.sn)
    && Lifecycle(s)
  }

  lemma SettleOneCore(c: Config, s: St, i: nat, how: Settlement)
    requires Core(c, s) && i < |s.pending|
    ensures Core(c, Settle(s, s.pending[i].promise, how).(pending := s.pending[..i] + s.pending[i + 1..]))
  {
    var s1 := Settle(s, s.pending[i].promise, how).(pending := s.pending[..i] + s.pending[i + 1..]);
    forall id: nat
      ensures Times(s1, id) == One(id < s1.created)
    {
      SettleOneTimes(s, i, how, id);
    }
  }

  lemma ConcludeInv(c: Config, s: St)
    requires Core(c, s)
    ensures Inv(c, Conclude(s))
  {
    forall id: nat
      ensures Times(Conclude(s), id) == One(id < s.created)
    {
      StragglersCount(s.pending, s.acked, id);
      SettleAll(s, Stragglers(s.pending, s.acked), id);
      assert Times(s, id) == One(id < s.created);
    }
  }

  lemma TerminalInv(c: Config, s: St, subject: bytes)
    requires Inv(c, s)
    ensures Inv(c, OnTerminal(s, subject))
  {
    hide Accounted, EntriesOk, DistinctKeys, WindowShut;
    var i := Find(s.pending, subject);
    if i >= 0 && (s.pending[i].op == Final || s.pending[i].op == EOB) {
      SettleOneCore(c, s, i, Committed);
      ConcludeInv(c, Settle(s, s.pending[i].promise, Committed).(pending := Delete(s.pending, subject)));
    } else {
      ConcludeInv(c, s);
    }
  }

  lemma AcknowledgeCore(c: Config, s: St, msgs: Option<int>, sn: Option<int>)
    requires Core(c, s) && s.sn > 0
    ensures Core(c, Acknowledge(s, msgs, sn))
  {
    forall id: nat
      ensures Times(Acknowledge(s, msgs, sn), id) == One(id < s.created)
    {
      assert Times(s, id) == One(id < s.created);
    }
  }

  lemma ResolveExactCore(c: Config, s: St, subject: bytes)
    requires Core(c, s)
    ensures Core(c, ResolveExact(s, subject))
  {
    hide Accounted, EntriesOk, DistinctKeys;
    var i := Find(s.pending, subject);
    if i >= 0 && WaitsForFlow(s.pending[i]) {
      SettleOneCore(c, s, i, Progress(s.pending[i].sn, s.acked));
    }
  }

  lemma FlowInv(c: Config, s: St, subject: bytes, msgs: Option<int>, sn: Option<int>)
    requires Core(c, s) && s.sn > 0
    ensures Inv(c, OnFlow(c, s, subject, msgs, sn))
  {
    hide Core, Inv, Slide, ResolveExact;
    AcknowledgeCore(c, s, msgs, sn);
    ResolveExactCore(c, Acknowledge(s, msgs, sn), subject);
    SlideInv(c, ResolveExact(Acknowledge(s, msgs, sn), subject));
  }

  lemma SlideInv(c: Config, s: St)
    requires Core(c, s)
    ensures Inv(c, Slide(c, s))
  {
    var window := Window(c, s);
    var s1 := Slide(c, s);
    BlockedFrom(s.pending, s.acked, window);
    BlockedDistinct(s.pending, s.acked, window);
    forall i | 0 <= i < |s1.pending|
      ensures EntryOk(c, s1.pending[i], s.sn)
    {
      assert s1.pending[i] in s.pending;
    }
    forall id: nat
      ensures Times(s1, id) == One(id < s1.created)
    {
      SlideCount(s.pending, s.acked, window, id);
      SettledConcat(s.settled, Opened(s.pending, s.acked, window), id);
      assert Times(s1, id) == Times(s, id);
    }
  }

  lemma RouteInv(c: Config, s: St, m: Incoming)
    requires Inv(c, s)
    ensures Inv(c, Route(c, s, m))
  {
    if s.sn > 0 {
      match m {
        case Failed => CloseInv(c, s);
        case Terminal(subject) => TerminalInv(c, s, subject);
        case Gap =>
        case Flow(subject, msgs, sn) => FlowInv(c, s, subject, msgs, sn);
      }
    }
  }

  // ----- calls

  /** The key of a new entry is never taken, so nothing unsettled is overwritten. */
  lemma {:induction false} KeyIsFresh(c: Config, p: seq<Entry>, sn: nat, op: Op, n: nat)
    requires EntriesOk(c, p, sn)
    requires n > sn || (forall i :: 0 <= i < |p| ==> p[i].op == op ==> p[i].key != ReplyFor(c.prefix, op, n))
    ensures Find(p, ReplyFor(c.prefix, op, n)) == -1
  {
    var i := Find(p, ReplyFor(c.prefix, op, n));
    if i >= 0 {
      assert EntryOk(c, p[i], sn);
      ReplyForInjective(c.prefix, p[i].op, p[i].sn, op, n);
    }
  }

  lemma WaitInv(c: Config, s: St, op: Op, n: nat, s0: St)
    requires Inv(c, s0) && s == s0.(sn := s.sn, sent := s.sent) && s0.sn <= s.sn && Numbers(s.sent) == UpTo(s.sn)
    requires !s.closed && op != Start && 1 <= n <= s.sn
    requires Find(s.pending, ReplyFor(c.prefix, op, n)) == -1
    requires op == Append ==> n - s.acked >= Window(c, s)
    ensures Inv(c, Wait(c, s, op, n).0)
  {
    var e := Entry(ReplyFor(c.prefix, op, n), n, op, s.created);
    var s1 := Wait(c, s, op, n).0;
    forall id: nat
      ensures Times(s1, id) == One(id < s1.created)
    {
      assert Times(s0, id) == One(id < s0.created);
      PendingPush(s.pending, e, id);
    }
    assert forall i :: 0 <= i < |s0.pending| ==> EntryOk(c, s0.pending[i], s0.sn);
  }

  lemma NumbersPush(sent: seq<Sent>, op: Op, n: nat)
    ensures Numbers(sent + [Sent(op, n)]) == if op == Ping then Numbers(sent) else Numbers(sent) + [n]
  {
    assert (sent + [Sent(op, n)])[..|sent|] == sent;
  }

  /** A state with more messages sent keeps the rest of the invariant. */
  lemma PublishInv(c: Config, s: St, op: Op, n: nat)
    requires Inv(c, s) && !s.closed && n == (if op == Ping then s.sn else s.sn + 1)
    ensures Numbers(Publish(s, op, n).sent) == UpTo(n)
    ensures Inv(c, Publish(s, op, n).(sn := n))
  {
    NumbersPush(s.sent, op, n);
    var s1 := Publish(s, op, n).(sn := n);
    assert forall id: nat :: Times(s1, id) == Times(s, id);
    assert forall i :: 0 <= i < |s.pending| ==> EntryOk(c, s.pending[i], s.sn);
  }

  lemma {:induction false} AddInv(c: Config, s: St, ok: bool)
    requires Inv(c, s)
    ensures Inv(c, Add(c, s, ok).0)
  {
    if !s.closed && ok {
      var op := if s.sn == 0 then Start else Append;
      PublishInv(c, s, op, s.sn + 1);
      if s.sn > 0 && s.sn + 1 - s.acked >= Window(c, s) {
        KeyIsFresh(c, s.pending, s.sn, Append, s.sn + 1);
        WaitInv(c, Publish(s, Append, s.sn + 1).(sn := s.sn + 1), Append, s.sn + 1, s);
      }
    }
  }

  /** Taking out the entry that was put in last gives back the map as it was. */
  lemma {:induction false} PutThenDelete(p: seq<Entry>, e: Entry)
    requires Find(p, e.key) == -1
    ensures Delete(Put(p, e), e.key) == p
  {
    assert (p + [e])[..|p|] + (p + [e])[|p| + 1..] == p;
  }

  lemma WithdrawnPush(w: seq<nat>, x: nat, id: nat)
    ensures InWithdrawn(w + [x], id) == InWithdrawn(w, id) + One(x == id)
  {
    assert (w + [x])[..|w|] == w;
  }

  /** A commit that fails to publish leaves only a withdrawn promise behind. */
  lemma FailedCommit(c: Config, s: St, op: Op)
    requires Find(s.pending, ReplyFor(c.prefix, op, s.sn + 1)) == -1
    ensures Commit(c, s, op, false).0 == s.(created := s.created + 1, withdrawn := s.withdrawn + [s.created])
  {
    PutThenDelete(s.pending, Entry(ReplyFor(c.prefix, op, s.sn + 1), s.sn + 1, op, s.created));
  }

  lemma WithdrawInv(c: Config, s: St)
    requires Inv(c, s)
    ensures Inv(c, s.(created := s.created + 1, withdrawn := s.withdrawn + [s.created]))
  {
    hide EntriesOk, DistinctKeys, WindowShut;
    var s1 := s.(created := s.created + 1, withdrawn := s.withdrawn + [s.created]);
    forall id: nat
      ensures Times(s1, id) == One(id < s1.created)
    {
      assert Times(s, id) == One(id < s.created);
      WithdrawnPush(s.withdrawn, s.created, id);
    }
  }

  lemma {:induction false} CommitInv(c: Config, s: St, op: Op, ok: bool)
    requires Inv(c, s) && !s.closed && s.sn > 0 && (op == Final || op == EOB)
    ensures Inv(c, Commit(c, s, op, ok).0)
  {
    hide Accounted, EntriesOk, DistinctKeys, WindowShut;
    var n := s.sn + 1;
    KeyIsFresh(c, s.pending, s.sn, op, n);
    if ok {
      PublishInv(c, s, op, n);
      WaitInv(c, Publish(s, op, n).(sn := n), op, n, s);
    } else {
      FailedCommit(c, s, op);
      WithdrawInv(c, s);
    }
  }

  lemma {:induction false} PingInv(c: Config, s: St, ok: bool)
    requires Inv(c, s)
    ensures Inv(c, PingCall(c, s, ok).0)
  {
    var key := ReplyFor(c.prefix, Ping, s.sn);
    var i := Find(s.pending, key);
    if !s.closed && s.sn > 0 && !(i >= 0 && s.pending[i].op == Ping) && ok {
      if i >= 0 {
        assert EntryOk(c, s.pending[i], s.sn);
        ReplyForInjective(c.prefix, s.pending[i].op, s.pending[i].sn, Ping, s.sn);
      }
      PublishInv(c, s, Ping, s.sn);
      WaitInv(c, Publish(s, Ping, s.sn), Ping, s.sn, s);
    }
  }

  lemma {:induction false} EndInv(c: Config, s: St, ok: bool)
    requires Inv(c, s)
    ensures Inv(c, End(c, s, ok).0) && Inv(c, Last(c, s, ok).0)
  {
    if !s.closed {
      if s.sn > 0 {
        CommitInv(c, s, EOB, ok);
        CommitInv(c, s, Final, ok);
      } else {
        var s1 := End(c, s, ok).0;
        assert forall id: nat :: Times(s1, id) == Times(s, id);
        PublishInv(c, s, Start, 1);
      }
    }
  }

  lemma {:induction false} StepInv(c: Config, s: St, e: Event)
    requires Inv(c, s)
    ensures Inv(c, Step(c, s, e))
  {
    hide Inv;
    match e {
      case DoAdd(ok) => AddInv(c, s, ok);
      case DoLast(ok) => EndInv(c, s, ok);
      case DoEnd(ok) => EndInv(c, s, ok);
      case DoPing(ok) => PingInv(c, s, ok);
      case DoTick(shared, ok) => TickInv(c, s, shared, ok);
      case DoDeadline =>
        if s.sn > 0 {
          CloseInv(c, s);
        }
      case DoRoute(m) => RouteInv(c, s, m);
    }
  }

  lemma TickInv(c: Config, s: St, shared: bool, ok: bool)
    requires Inv(c, s)
    ensures Inv(c, Tick(c, s, shared, ok))
  {
    if !s.closed {
      PublishInv(c, s, Ping, s.sn);
    }
  }

  lemma {:induction false} RunInv(c: Config, ackInterval: int, events: seq<Event>)
    ensures Inv(c, Run(c, Initial(ackInterval), events))
  {
    if events == [] {
      InitialInv(c, ackInterval);
    } else {
      RunInv(c, ackInterval, events[..|events| - 1]);
      StepInv(c, Run(c, Initial(ackInterval), events[..|events| - 1]), events[|events| - 1]);
    }
  }

  // ----- settlement

  /** Nothing a step does can be taken back: settlements, `acked` and `closed` only move forward. */
  lemma StepMonotone(c: Config, s: St, e: Event)
    ensures var s1 := Step(c, s, e);
            && s1.acked >= s.acked
            && (s.closed ==> s1.closed)
            && s.created <= s1.created
            && s.settled <= s1.settled
            && s.sent <= s1.sent
  {
    if e.DoRoute? && e.m.Flow? {
      var s1 := Acknowledge(s, e.m.msgs, e.m.sn);
      assert s1.settled <= ResolveExact(s1, e.m.subject).settled;
    }
  }

  lemma StepWithdrawn(c: Config, s: St, e: Event, id: nat)
    requires id < s.created
    ensures InWithdrawn(Step(c, s, e).withdrawn, id) == InWithdrawn(s.withdrawn, id)
  {
    WithdrawnPush(s.withdrawn, s.created, id);
  }

  /** What the caller gets from a step. */
  function AnswerOf(c: Config, s: St, e: Event): Option<Answer> {
    match e
    case DoAdd(ok) => Some(Add(c, s, ok).1)
    case DoLast(ok) => Some(Last(c, s, ok).1)
    case DoEnd(ok) => Some(End(c, s, ok).1)
    case DoPing(ok) => Some(PingCall(c, s, ok).1)
    case _ => None
  }

  /** Where the entry that a call waits on sits when the call returns. */
  lemma WaitingEntry(c: Config, s: St, e: Event, id: nat) returns (i: nat)
    requires AnswerOf(c, s, e) == Some(Waits(id))
    ensures var p := Step(c, s, e).pending; i < |p| && p[i].promise == id
  {
    var op, n := if e.DoAdd? then Append else if e.DoLast? then Final else if e.DoEnd? then EOB else Ping,
                 if e.DoPing? then s.sn else s.sn + 1;
    var at := Find(s.pending, ReplyFor(c.prefix, op, n));
    i := if at >= 0 then at else |s.pending|;
  }

  /** A promise handed to the caller is in `pending` when the call returns, once and nowhere else. */
  lemma HandedOutWaits(c: Config, s: St, e: Event, id: nat)
    requires Inv(c, s) && AnswerOf(c, s, e) == Some(Waits(id))
    ensures var s1 := Step(c, s, e);
            id < s1.created && InPending(s1.pending, id) == 1 && InWithdrawn(s1.withdrawn, id) == 0
  {
    StepInv(c, s, e);
    var s1 := Step(c, s, e);
    var i := WaitingEntry(c, s, e, id);
    PendingDelete(s1.pending, i, id);
    assert Times(s1, id) == One(id < s1.created);
  }

  lemma {:induction false} RunMonotone(c: Config, s: St, events: seq<Event>, id: nat)
    ensures var s1 := Run(c, s, events);
            s1.acked >= s.acked && (s.closed ==> s1.closed) && s.created <= s1.created && s.settled <= s1.settled
    ensures id < s.created ==> InWithdrawn(Run(c, s, events).withdrawn, id) == InWithdrawn(s.withdrawn, id)
  {
    if events != [] {
      var s0 := Run(c, s, events[..|events| - 1]);
      RunMonotone(c, s, events[..|events| - 1], id);
      StepMonotone(c, s0, events[|events| - 1]);
      if id < s.created {
        StepWithdrawn(c, s0, events[|events| - 1], id);
      }
    }
  }

  lemma {:induction false} RunConcat(c: Config, s: St, a: seq<Event>, b: seq<Event>)
    ensures Run(c, s, a + b) == Run(c, Run(c, s, a), b)
  {
    if b == [] {
      assert a + b == a;
    } else {
      RunConcat(c, s, a, b[..|b| - 1]);
      assert (a + b)[..|a + b| - 1] == a + b[..|b| - 1];
    }
  }

  /**
   * Settlement: a promise that some call handed out is, after whatever follows, either still
   * waiting or settled exactly once; when the batch is closed it is settled, exactly once.
   */
  lemma SettledExactlyOnce(c: Config, ackInterval: int, before: seq<Event>, e: Event, after: seq<Event>, id: nat)
    requires AnswerOf(c, Run(c, Initial(ackInterval), before), e) == Some(Waits(id))
    ensures var s := Run(c, Initial(ackInterval), before + [e] + after);
            && InPending(s.pending, id) + InSettled(s.settled, id) == 1
            && (s.closed ==> s.pending == [] && InSettled(s.settled, id) == 1)
  {
    var s0 := Run(c, Initial(ackInterval), before);
    RunInv(c, ackInterval, before);
    HandedOutWaits(c, s0, e, id);
    RunConcat(c, Initial(ackInterval), before, [e]);
    assert [e][..0] == [];
    assert Run(c, s0, [e]) == Step(c, Run(c, s0, []), e);
    RunConcat(c, Initial(ackInterval), before + [e], after);
    RunMonotone(c, Step(c, s0, e), after, id);
    RunInv(c, ackInterval, before + [e] + after);
    var s := Run(c, Initial(ackInterval), before + [e] + after);
    assert Times(s, id) == One(id < s.created);
  }

  /** Closed is for good, and with it `pending` stays empty and `done()` settled. */
  lemma ClosedForGood(c: Config, ackInterval: int, before: seq<Event>, after: seq<Event>)
    requires Run(c, Initial(ackInterval), before).closed
    ensures var s := Run(c, Initial(ackInterval), before + after);
            s.closed && s.pending == [] && s.done.Some?
  {
    RunConcat(c, Initial(ackInterval), before, after);
    RunMonotone(c, Run(c, Initial(ackInterval), before), after, 0);
    RunInv(c, ackInterval, before + after);
  }

  // ----- numbering

  /**
   * The published Start, Append, Final and EOB messages are numbered 1, 2, .., `seq`, whatever
   * publishes fail, and every add still waiting is outside the window.
   */
  lemma {:induction false} NumberedInOrder(c: Config, ackInterval: int, events: seq<Event>)
    ensures var s := Run(c, Initial(ackInterval), events);
            && Numbers(s.sent) == UpTo(s.sn)
            && forall i :: 0 <= i < |s.pending| && s.pending[i].op == Append ==>
                 s.pending[i].sn - s.acked >= s.ackInterval * c.maxOutstandingAcks
  {
    RunInv(c, ackInterval, events);
    var s := Run(c, Initial(ackInterval), events);
    assert forall i :: 0 <= i < |s.pending| ==> !Opens(s.pending[i], s.acked, Window(c, s));
  }

  // ----- the window, for a caller that awaits each add, last and end

  /** No add, last or end is outstanding. */
  predicate Idle(s: St) {
    && (forall i :: 0 <= i < |s.pending| ==> s.pending[i].op == Ping)
    && (s.sn > 0 ==> s.start.Some?)
  }

  /** An ack answers a message that was sent and reports at least its number. */
  ghost predicate HonestAck(c: Config, s: St, m: Incoming) {
    m.Flow? ==>
      && m.sn.Some? && (m.msgs.Some? ==> m.msgs.value >= 1)
      && exists op, n: nat :: 1 <= n <= m.sn.value && m.subject == ReplyFor(c.prefix, op, n)
  }

  predicate Sequential(s: St, e: Event) {
    e.DoAdd? || e.DoLast? || e.DoEnd? ==> Idle(s)
  }

  ghost predicate Disciplined(c: Config, s: St, e: Event) {
    Sequential(s, e) && (e.DoRoute? ==> HonestAck(c, s, e.m))
  }

  /** `largest` is at least every window so far; when idle there is room for one more message. */
  predicate Bounded(c: Config, s: St, largest: int) {
    && 1 <= s.ackInterval && Window(c, s) <= largest
    && 0 <= s.acked && s.sn - s.acked <= largest
    && (!s.closed && Idle(s) ==> s.sn - s.acked < largest)
    && (s.start.None? ==> s.sn <= 1)
    && (forall i :: 0 <= i < |s.pending| && s.pending[i].op != Ping ==> s.pending[i].sn == s.sn)
  }

  function Larger(a: int, b: int): int {
    if a < b then b else a
  }

  lemma WindowPositive(c: Config, s: St)
    requires c.maxOutstandingAcks >= 1 && s.ackInterval >= 1
    ensures Window(c, s) >= 1
  {
  }

  /** What an add, last or end leaves behind. */
  lemma CallEffect(c: Config, s: St, e: Event)
    requires Inv(c, s) && (e.DoAdd? || e.DoLast? || e.DoEnd?)
    ensures var s1 := Step(c, s, e);
            && s1.acked == s.acked && s1.ackInterval == s.ackInterval
            && (s.start.Some? ==> s1.start.Some?) && (!s1.closed ==> s1.start == s.start) && (s.closed ==> s1 == s)
            && (|| (s1.sn == s.sn && s1.pending == s.pending)
                || (s.sn == 0 && s1.sn == 1 && s1.pending == s.pending)
                || (s.sn > 0 && !s.closed && s1.sn == s.sn + 1 && s1.pending == s.pending && s1.sn - s.acked < Window(c, s))
                || (s.sn > 0 && !s.closed && s1.sn == s.sn + 1 && |s1.pending| == |s.pending| + 1 && s1.pending[..|s.pending|] == s.pending
                    && s1.pending[|s.pending|].op != Ping && s1.pending[|s.pending|].sn == s1.sn))
  {
    hide Window, Accounted;
    if !s.closed && s.sn > 0 {
      KeyIsFresh(c, s.pending, s.sn, Append, s.sn + 1);
      KeyIsFresh(c, s.pending, s.sn, Final, s.sn + 1);
      KeyIsFresh(c, s.pending, s.sn, EOB, s.sn + 1);
      FailedCommit(c, s, Final);
      FailedCommit(c, s, EOB);
    }
  }

  lemma CallBounded(c: Config, s: St, e: Event, largest: int)
    requires c.maxOutstandingAcks >= 1
    requires Inv(c, s) && Bounded(c, s, largest) && Idle(s) && (e.DoAdd? || e.DoLast? || e.DoEnd?)
    ensures Bounded(c, Step(c, s, e), largest)
  {
    hide Window, Step, Accounted, EntriesOk, DistinctKeys, WindowShut;
    WindowPositive(c, s);
    CallEffect(c, s, e);
    WindowDepends(c, s, Step(c, s, e));
    var s1 := Step(c, s, e);
    assert |s1.pending| > |s.pending| ==> forall j :: 0 <= j < |s.pending| ==> s1.pending[j] == s.pending[j];
  }

  /** A ping adds at most one entry, for itself. */
  lemma PingEffect(c: Config, s: St, ok: bool)
    requires EntriesOk(c, s.pending, s.sn)
    ensures var s1 := PingCall(c, s, ok).0;
            && s1.sn == s.sn && s1.acked == s.acked && s1.ackInterval == s.ackInterval
            && s1.closed == s.closed && s1.start == s.start
            && |s.pending| <= |s1.pending| <= |s.pending| + 1 && s1.pending[..|s.pending|] == s.pending
            && (|s1.pending| > |s.pending| ==> s1.pending[|s.pending|].op == Ping)
  {
    hide ReplyFor;
    var i := Find(s.pending, ReplyFor(c.prefix, Ping, s.sn));
    if i >= 0 {
      assert EntryOk(c, s.pending[i], s.sn);
      ReplyForInjective(c.prefix, s.pending[i].op, s.pending[i].sn, Ping, s.sn);
    }
  }

  lemma PingBounded(c: Config, s: St, ok: bool, largest: int)
    requires Inv(c, s) && Bounded(c, s, largest)
    ensures Bounded(c, PingCall(c, s, ok).0, largest)
  {
    hide PingCall, Window, Accounted, EntriesOk, DistinctKeys, WindowShut;
    PingEffect(c, s, ok);
    var s1 := PingCall(c, s, ok).0;
    WindowDepends(c, s1, s);
    assert forall j :: 0 <= j < |s.pending| ==> s1.pending[j] == s1.pending[..|s.pending|][j];
  }

  lemma {:induction false} BlockedKeeps(p: seq<Entry>, e: Entry, acked: int, window: int)
    requires e in p && !Opens(e, acked, window)
    ensures e in Blocked(p, acked, window)
  {
    if p[|p| - 1] != e {
      BlockedKeeps(p[..|p| - 1], e, acked, window);
    }
  }

  lemma ResolveEffect(s: St, subject: bytes)
    ensures var r := ResolveExact(s, subject);
            r == s.(pending := r.pending, settled := r.settled) && forall e :: e in r.pending ==> e in s.pending
  {
    hide Find;
  }

  /** What a flow ack changes besides settling promises. */
  lemma FlowEffect(c: Config, s: St, m: Incoming)
    requires m.Flow? && s.sn > 0
    ensures var s1, a := Route(c, s, m), Acknowledge(s, m.msgs, m.sn);
            && s1 == a.(pending := s1.pending, settled := s1.settled)
            && forall e :: e in s1.pending ==> e in s.pending
  {
    var a := Acknowledge(s, m.msgs, m.sn);
    var r := ResolveExact(a, m.subject);
    hide ResolveExact, Window, Blocked, Opened;
    ResolveEffect(a, m.subject);
    BlockedFrom(r.pending, r.acked, Window(c, r));
  }

  /** An entry that a flow ack neither answers nor opens stays. */
  lemma {:induction false} FlowKeeps(c: Config, s: St, m: Incoming, e: Entry)
    requires m.Flow? && s.sn > 0 && e in s.pending
    requires e.key != m.subject || !WaitsForFlow(e)
    requires DistinctKeys(s.pending)
    requires var a := Acknowledge(s, m.msgs, m.sn); !Opens(e, a.acked, Window(c, a))
    ensures e in Route(c, s, m).pending
  {
    hide Window;
    var a := Acknowledge(s, m.msgs, m.sn);
    var r := ResolveExact(a, m.subject);
    var i, j := Find(s.pending, m.subject), IndexOf(s.pending, e);
    if i >= 0 && WaitsForFlow(s.pending[i]) {
      assert i != j;
      assert r.pending == s.pending[..i] + s.pending[i + 1..];
      assert e == if j < i then r.pending[j] else r.pending[j - 1];
    }
    assert Window(c, r) == Window(c, a) by {
      WindowDepends(c, r, a);
    }
    BlockedKeeps(r.pending, e, r.acked, Window(c, r));
  }

  lemma WindowDepends(c: Config, s: St, s1: St)
    requires s.ackInterval == s1.ackInterval
    ensures Window(c, s) == Window(c, s1)
  {
  }

  function IndexOf(p: seq<Entry>, e: Entry): (i: nat)
    requires e in p
    ensures i < |p| && p[i] == e
  {
    if p[0] == e then 0 else 1 + IndexOf(p[1..], e)
  }

  /** When a flow ack leaves no add, last or end outstanding, one more message fits. */
  lemma FlowMakesRoom(c: Config, s: St, m: Incoming, op: Op, n: nat, largest: int)
    requires Inv(c, s) && Bounded(c, s, largest) && m.Flow? && s.sn > 0 && m.sn.Some?
    requires 1 <= n <= m.sn.value && m.subject == ReplyFor(c.prefix, op, n)
    requires var s1 := Route(c, s, m); !s1.closed && Idle(s1)
    ensures var s1 := Route(c, s, m); s1.sn - s1.acked < Larger(Larger(largest, Window(c, s1)), 1)
  {
    hide Route, Window, Accounted, ReplyFor;
    FlowEffect(c, s, m);
    var s1, a := Route(c, s, m), Acknowledge(s, m.msgs, m.sn);
    WindowDepends(c, s1, a);
    assert forall e :: e in s1.pending ==> e.op == Ping;
    if !Idle(s) && s.start.Some? {
      var j :| 0 <= j < |s.pending| && s.pending[j].op != Ping;
      var e := s.pending[j];
      assert EntryOk(c, e, s.sn);
      if e.key == m.subject {
        ReplyForInjective(c.prefix, e.op, e.sn, op, n);
      } else if !Opens(e, a.acked, Window(c, a)) {
        FlowKeeps(c, s, m, e);
      }
    }
  }

  lemma FlowBounded(c: Config, s: St, m: Incoming, largest: int)
    requires c.maxOutstandingAcks >= 1
    requires Inv(c, s) && Bounded(c, s, largest) && m.Flow? && HonestAck(c, s, m) && s.sn > 0
    ensures var s1 := Route(c, s, m); Bounded(c, s1, Larger(largest, Window(c, s1)))
  {
    hide Route, Window, Inv, ReplyFor;
    var op, n: nat :| 1 <= n <= m.sn.value && m.subject == ReplyFor(c.prefix, op, n);
    FlowEffect(c, s, m);
    var s1 := Route(c, s, m);
    forall j | 0 <= j < |s1.pending| && s1.pending[j].op != Ping
      ensures s1.pending[j].sn == s1.sn
    {
      assert s1.pending[j] in s.pending;
    }
    WindowPositive(c, s1);
    if !s1.closed && Idle(s1) {
      FlowMakesRoom(c, s, m, op, n, largest);
    }
  }

  lemma ClosingBounded(c: Config, s: St, e: Event, largest: int)
    requires Inv(c, s) && Bounded(c, s, largest)
    requires e.DoDeadline? || e.DoTick? || (e.DoRoute? && (e.m.Flow? ==> s.sn == 0))
    ensures Bounded(c, Step(c, s, e), largest)
  {
  }

  lemma StepBounded(c: Config, s: St, e: Event, largest: int)
    requires c.maxOutstandingAcks >= 1
    requires Inv(c, s) && Bounded(c, s, largest) && Disciplined(c, s, e)
    ensures var s1 := Step(c, s, e); Bounded(c, s1, Larger(largest, Window(c, s1)))
  {
    hide Inv;
    if e.DoRoute? && e.m.Flow? && s.sn > 0 {
      FlowBounded(c, s, e.m, largest);
    } else if e.DoPing? {
      PingBounded(c, s, e.ok, largest);
    } else if e.DoAdd? || e.DoLast? || e.DoEnd? {
      CallBounded(c, s, e, largest);
    } else {
      ClosingBounded(c, s, e, largest);
    }
  }

  /** The largest window over a run so far. */
  function LargestWindow(c: Config, ackInterval: int, events: seq<Event>): int {
    var s := Run(c, Initial(ackInterval), events);
    if events == [] then Window(c, s)
    else Larger(LargestWindow(c, ackInterval, events[..|events| - 1]), Window(c, s))
  }

  ghost predicate DisciplinedRun(c: Config, ackInterval: int, events: seq<Event>) {
    forall i :: 0 <= i < |events| ==> Disciplined(c, Run(c, Initial(ackInterval), events[..i]), events[i])
  }

  lemma {:induction false} RunBounded(c: Config, ackInterval: int, events: seq<Event>)
    requires c.maxOutstandingAcks >= 1 && ackInterval >= 1 && DisciplinedRun(c, ackInterval, events)
    ensures Bounded(c, Run(c, Initial(ackInterval), events), LargestWindow(c, ackInterval, events))
  {
    if events == [] {
      WindowPositive(c, Initial(ackInterval));
    } else {
      var n := |events| - 1;
      assert forall i :: 0 <= i < n ==> events[..n][..i] == events[..i];
      RunBounded(c, ackInterval, events[..n]);
      RunInv(c, ackInterval, events[..n]);
      StepBounded(c, Run(c, Initial(ackInterval), events[..n]), events[n], LargestWindow(c, ackInterval, events[..n]));
    }
  }

  /**
   * The window holds: when the caller awaits each add, last and end, and acks are honest, the
   * messages sent and not acked never outnumber the largest window the server has granted.
   */
  lemma {:induction false} WindowHolds(c: Config, ackInterval: int, events: seq<Event>)
    requires c.maxOutstandingAcks >= 1 && ackInterval >= 1 && DisciplinedRun(c, ackInterval, events)
    ensures var s := Run(c, Initial(ackInterval), events);
            s.sn - s.acked <= LargestWindow(c, ackInterval, events)
  {
    RunBounded(c, ackInterval, events);
  }
}
