/**
 * Ordered pull consumers read with `consume` (PullConsumerMessagesImpl in
 * jetstream/src/consumer.ts): the pulls, what they let the server send, the replacement of
 * consumers, and the recovery from missed heartbeats and reconnects. A pull names the consumer it
 * asks when it is made, and the inbox to answer on when it is published.
 */
module OrderedPull {
  import opened Bytes
  import opened Stream
  import opened OrderedConsumer
  import PullCredit

  /**
   * `overlaps` says whether the client may recover, or its caller ask for the consumer's info,
   * while a consumer is being replaced; `zeroBatch` is what a pull of 0 lets the server send.
   */
  datatype Config = Config(callback: bool, overlaps: bool, maxMessages: nat, threshold: nat, zeroBatch: nat)

  datatype PullFn = PullFn(target: nat, batch: int)

  /** A request for the info of a consumer, made by `resetPending` or by the caller. */
  datatype Ask = Ask(consumer: nat, recovering: bool)

  datatype Flight = Flight(consumer: nat, inbox: nat, dseq: nat)
  datatype Notice = Notice(consumer: nat, inbox: nat, left: nat)

  /**
   * The server and the network. What is in flight may arrive late, more than once, or never;
   * `credit` is what a consumer may still send to an inbox, and `sent` what it has sent.
   */
  datatype Net = Net(credit: map<(nat, nat), nat>, sent: map<nat, nat>, flights: seq<Flight>, notices: seq<Notice>)

  datatype St = St(
    reader: Reader,
    info: nat,             // the consumer that `_info` names, the target of pulls
    pending: int,          // pending.msgs
    queued: seq<PullFn>,   // the pulls waiting in the iterator
    creating: set<nat>,    // consumers whose creation has not been answered
    retries: nat,          // failed creations that will be tried again after a delay
    asks: seq<Ask>,        // infos that have not been answered
    net: Net)

  // ----- the client

  function Initial(c: Config, start: nat): St {
    Pull(c, St(Begin(start), 1, 0, [], {}, 0, [], Net(map[], map[], [], [])))
  }

  function CreditOf(net: Net, k: nat, inbox: nat): nat {
    if (k, inbox) in net.credit then net.credit[(k, inbox)] else 0
  }

  function SentBy(net: Net, k: nat): nat {
    if k in net.sent then net.sent[k] else 0
  }

  /** A pull is published, to be answered on the inbox of this moment. */
  function Publish(c: Config, s: St, f: PullFn): St {
    var more := if f.batch > 0 then f.batch else c.zeroBatch;
    s.(net := s.net.(credit := s.net.credit[(f.target, s.reader.serial) := CreditOf(s.net, f.target, s.reader.serial) + more]))
  }

  /** `pull(pullOptions())`: tops `pending` up to the limit. */
  function Pull(c: Config, s: St): St {
    var f := PullFn(s.info, c.maxMessages - s.pending);
    var s1 := s.(pending := s.pending + f.batch);
    if c.callback then Publish(c, s1, f) else s1.(queued := s1.queued + [f])
  }

  function Refill(c: Config, s: St): St {
    if PullCredit.Refills(c.maxMessages, c.threshold, s.pending) then Pull(c, s) else s
  }

  function Reset(s: St): St {
    s.(reader := Restart(s.reader), creating := s.creating + {s.reader.serial + 1})
  }

  function OnMessage(c: Config, s: St, inbox: nat, dseq: nat, sseq: nat): St {
    if inbox != s.reader.serial then s
    else if !Expected(s.reader, dseq) then Reset(s)
    else
      var s1 := s.(reader := OrderedConsumer.OnMessage(s.reader, inbox, dseq, sseq));
      Refill(c, if s1.pending != 0 then s1.(pending := s1.pending - 1) else s1)
  }

  /** A status: `left` messages of a request will not come; some statuses return before the refill. */
  function OnStatus(c: Config, s: St, inbox: nat, left: nat, stalls: bool): St {
    if inbox != s.reader.serial then s
    else
      var s1 := s.(pending := s.pending - left);
      if stalls then s1 else Refill(c, s1)
  }

  /** The server confirms consumer `k`, which is then pulled from. */
  function OnCreated(c: Config, s: St, k: nat): St {
    Pull(c, s.(info := k, creating := s.creating - {k}))
  }

  /** What was pending is taken to be gone. */
  function Recover(c: Config, s: St): St {
    Pull(c, s.(pending := 0))
  }

  function Forget(asks: seq<Ask>, i: nat): seq<Ask>
    requires i < |asks|
  {
    asks[..i] + asks[i + 1..]
  }

  /** The answer replaces `_info`, whatever that names by now; `resetPending` pulls. */
  function OnInfo(c: Config, s: St, i: nat): St
    requires i < |s.asks|
  {
    var s1 := s.(info := s.asks[i].consumer, asks := Forget(s.asks, i));
    if s.asks[i].recovering then Recover(c, s1) else s1
  }

  /** The consumer is gone: `resetPending` replaces it. */
  function OnNotFound(s: St, i: nat): St
    requires i < |s.asks|
  {
    var s1 := s.(asks := Forget(s.asks, i));
    if s.asks[i].recovering then Reset(s1) else s1
  }

  function RunQueued(c: Config, s: St): St
    requires s.queued != []
  {
    Publish(c, s.(queued := s.queued[1..]), s.queued[0])
  }

  // ----- the server

  function Sends(net: Net, k: nat, inbox: nat): Net
    requires CreditOf(net, k, inbox) > 0
  {
    var n := SentBy(net, k) + 1;
    net.(credit := net.credit[(k, inbox) := CreditOf(net, k, inbox) - 1], sent := net.sent[k := n],
         flights := net.flights + [Flight(k, inbox, n)])
  }

  function Ends(net: Net, k: nat, inbox: nat, left: nat): Net
    requires left <= CreditOf(net, k, inbox)
  {
    net.(credit := net.credit[(k, inbox) := CreditOf(net, k, inbox) - left],
         notices := net.notices + [Notice(k, inbox, left)])
  }

  // ----- runs

  datatype Event =
    | ServerSends(consumer: nat, inbox: nat)
    | RequestEnds(consumer: nat, inbox: nat, left: nat)
    | Arrives(flight: nat)
    | StatusArrives(notice: nat, stalls: bool)
    | Created(consumer: nat)
    | CreateFails(consumer: nat)
    | Retry
    | IteratorRuns
    | InfoAsked(recovering: bool)
    | InfoAnswered(i: nat)
    | InfoNotFound(i: nat)
    | InfoFails(i: nat)
    | RecoversBlind   // `resetPending` of a bound consumer, which asks nothing

  predicate Recovering(s: St) {
    exists i :: 0 <= i < |s.asks| && s.asks[i].recovering
  }

  /** A consumer sends, under the credit it has, its messages in order. */
  predicate Possible(log: seq<nat>, s: St, e: Event) {
    match e
    case ServerSends(k, inbox) => CreditOf(s.net, k, inbox) > 0 && Has(log, s.reader, k, SentBy(s.net, k) + 1)
    case RequestEnds(k, inbox, left) => (k, inbox) in s.net.credit && left <= CreditOf(s.net, k, inbox)
    case Arrives(i) =>
      i < |s.net.flights| && Has(log, s.reader, s.net.flights[i].consumer, s.net.flights[i].dseq)
    case StatusArrives(i, _) => i < |s.net.notices|
    case Created(k) => k in s.creating
    case CreateFails(k) => k in s.creating
    case Retry => s.retries > 0
    case IteratorRuns => s.queued != []
    case InfoAsked(recovering) => recovering ==> !Recovering(s)
    case InfoAnswered(i) => i < |s.asks|
    case InfoNotFound(i) => i < |s.asks|
    case InfoFails(i) => i < |s.asks|
    case RecoversBlind => !Recovering(s)
  }

  function Step(c: Config, log: seq<nat>, s: St, e: Event): St
    requires Possible(log, s, e)
  {
    match e
    case ServerSends(k, inbox) => s.(net := Sends(s.net, k, inbox))
    case RequestEnds(k, inbox, left) => s.(net := Ends(s.net, k, inbox, left))
    case Arrives(i) =>
      var m := s.net.flights[i];
      OnMessage(c, s, m.inbox, m.dseq, Content(log, s.reader, m.consumer, m.dseq))
    case StatusArrives(i, stalls) => OnStatus(c, s, s.net.notices[i].inbox, s.net.notices[i].left, stalls)
    case Created(k) => OnCreated(c, s, k)
    case CreateFails(k) => s.(creating := s.creating - {k}, retries := s.retries + 1)
    case Retry => Reset(s.(retries := s.retries - 1))
    case IteratorRuns => RunQueued(c, s)
    case InfoAsked(recovering) => s.(asks := s.asks + [Ask(s.info, recovering)])
    case InfoAnswered(i) => OnInfo(c, s, i)
    case InfoNotFound(i) => OnNotFound(s, i)
    case InfoFails(i) => s.(asks := Forget(s.asks, i))
    case RecoversBlind => Recover(c, s)
  }

  /** The creation of the current consumer has not been answered, or failed. */
  predicate Replacing(s: St) {
    s.creating != {} || s.retries > 0
  }

  /** An info is awaited, or a blind recovery happens, while a consumer is being replaced. */
  predicate Overlaps(c: Config, log: seq<nat>, s: St, e: Event)
    requires Possible(log, s, e)
  {
    || (Replacing(Step(c, log, s, e)) && Step(c, log, s, e).asks != [])
    || (e.RecoversBlind? && Replacing(s))
  }

  predicate Enabled(c: Config, log: seq<nat>, s: St, e: Event) {
    Possible(log, s, e) && (Overlaps(c, log, s, e) ==> c.overlaps)
  }

  /** Where a run ends, if every event of it is enabled. */
  function After(c: Config, log: seq<nat>, s: St, events: seq<Event>): Option<St>
    decreases |events|
  {
    if events == [] then Some(s)
    else if Enabled(c, log, s, events[0]) then After(c, log, Step(c, log, s, events[0]), events[1..])
    else None
  }

  predicate Run(c: Config, log: seq<nat>, s: St, events: seq<Event>, s1: St) {
    After(c, log, s, events) == Some(s1)
  }

  // ----- the prefix property

  /** A message that reaches the current inbox comes from the current consumer. */
  predicate FromCurrent(s: St, e: Event) {
    e.Arrives? && e.flight < |s.net.flights| && s.net.flights[e.flight].inbox == s.reader.serial ==>
      s.net.flights[e.flight].consumer == s.reader.serial
  }

  predicate OldSilent(c: Config, log: seq<nat>, s: St, events: seq<Event>)
    decreases |events|
  {
    events != [] ==>
      && Enabled(c, log, s, events[0]) && FromCurrent(s, events[0])
      && OldSilent(c, log, Step(c, log, s, events[0]), events[1..])
  }

  /** Pulling does not touch what was read. */
  lemma PullReader(c: Config, s: St)
    ensures Pull(c, s).reader == s.reader && Refill(c, s).reader == s.reader
  {
  }

  lemma StepInv(c: Config, log: seq<nat>, start: nat, s: St, e: Event)
    requires Increasing(log) && Inv(log, start, s.reader) && Possible(log, s, e) && FromCurrent(s, e)
    ensures Inv(log, start, Step(c, log, s, e).reader)
  {
    hide Inv, Pull, Refill;
    RestartInv(log, start, s.reader);
    match e {
      case Arrives(i) =>
        var m := s.net.flights[i];
        if m.inbox == s.reader.serial {
          MessageInv(log, start, s.reader, m.dseq);
          var r := OrderedConsumer.OnMessage(s.reader, m.inbox, m.dseq, Content(log, s.reader, m.consumer, m.dseq));
          PullReader(c, s.(reader := r));
          PullReader(c, s.(reader := r, pending := s.pending - 1));
        }
      case StatusArrives(i, stalls) => PullReader(c, s.(pending := s.pending - s.net.notices[i].left));
      case Created(k) => PullReader(c, s.(info := k, creating := s.creating - {k}));
      case InfoAnswered(i) =>
        PullReader(c, s.(info := s.asks[i].consumer, asks := Forget(s.asks, i), pending := 0));
      case RecoversBlind => PullReader(c, s.(pending := 0));
      case _ =>
    }
  }

  /** Prefix property, for iterators and callbacks alike, when replaced consumers stay silent. */
  lemma {:induction false} SilentInv(c: Config, log: seq<nat>, start: nat, s: St, events: seq<Event>, s1: St)
    requires Increasing(log) && Inv(log, start, s.reader) && Run(c, log, s, events, s1) && OldSilent(c, log, s, events)
    ensures Inv(log, start, s1.reader)
    decreases |events|
  {
    if events != [] {
      hide Inv, Step;
      StepInv(c, log, start, s, events[0]);
      SilentInv(c, log, start, Step(c, log, s, events[0]), events[1..], s1);
    }
  }

  lemma OrderedPullSilent(c: Config, log: seq<nat>, start: nat, events: seq<Event>, s: St)
    requires Increasing(log) && Run(c, log, Initial(c, start), events, s) && OldSilent(c, log, Initial(c, start), events)
    ensures IsPrefix(log, start, s.reader)
  {
    BeginInv(log, start);
    SilentInv(c, log, start, Initial(c, start), events, s);
  }

  // ----- progress

  /** Events after which `resetPending` or a new consumer pulls. */
  predicate Pulls(s: St, e: Event) {
    e.Created? || e.RecoversBlind? || (e.InfoAnswered? && e.i < |s.asks| && s.asks[e.i].recovering)
  }

  /**
   * A new consumer, and a recovery, is pulled from: `pending` is at the limit, and the pull for what
   * was missing to it, all of it after a recovery, is published to the current inbox or queued.
   */
  lemma PullsFrom(c: Config, log: seq<nat>, s: St, e: Event)
    requires Possible(log, s, e) && Pulls(s, e)
    ensures var s1 := Step(c, log, s, e);
            var target := if e.Created? then e.consumer else if e.InfoAnswered? then s.asks[e.i].consumer else s.info;
            var batch := if e.Created? then c.maxMessages - s.pending else c.maxMessages;
            && s1.pending == c.maxMessages && s1.info == target && s1.reader == s.reader
            && (if c.callback then
                  s1.queued == s.queued && (batch > 0 ==>
                    CreditOf(s1.net, target, s.reader.serial) == CreditOf(s.net, target, s.reader.serial) + batch)
                else s1.queued == s.queued + [PullFn(target, batch)] && s1.net == s.net)
  {
  }

  /** The iterator publishes its oldest pull, to the inbox that is current by then. */
  lemma QueuedIsPublished(c: Config, log: seq<nat>, s: St)
    requires Possible(log, s, IteratorRuns)
    ensures var s1, f := Step(c, log, s, IteratorRuns), s.queued[0];
            && s.queued == [f] + s1.queued
            && (f.batch > 0 ==> CreditOf(s1.net, f.target, s.reader.serial) == CreditOf(s.net, f.target, s.reader.serial) + f.batch)
  {
  }

  /**
   * A message does to the reader what it does in push. When it is taken it is taken off `pending`,
   * and the client pulls again unless that is above the threshold; when it is not, a new consumer
   * is asked for.
   */
  lemma ArrivesExactly(c: Config, log: seq<nat>, s: St, i: nat)
    requires Possible(log, s, Arrives(i)) && s.net.flights[i].inbox == s.reader.serial
    ensures var s1, m := Step(c, log, s, Arrives(i)), s.net.flights[i];
            var left := if s.pending != 0 then s.pending - 1 else 0;
            && s1.reader == OrderedConsumer.OnMessage(s.reader, m.inbox, m.dseq, Content(log, s.reader, m.consumer, m.dseq))
            && (if Expected(s.reader, m.dseq) then
                  s1.pending == (if c.maxMessages == 0 || left > c.threshold then left else c.maxMessages)
                else s1 == s.(reader := s1.reader, creating := s.creating + {s.reader.serial + 1}))
  {
  }

  /**
   * An info that was asked for is answered once; when its consumer is gone, a recovery asks for a new
   * one, on a new inbox.
   */
  lemma AnsweredOnce(c: Config, log: seq<nat>, s: St, e: Event)
    requires Possible(log, s, e) && (e.InfoAnswered? || e.InfoNotFound? || e.InfoFails?)
    ensures var s1 := Step(c, log, s, e);
            && multiset(s1.asks) == multiset(s.asks) - multiset{s.asks[e.i]}
            && (!s.asks[e.i].recovering || e.InfoFails? ==> s1 == s.(asks := s1.asks, info := s1.info))
            && (e.InfoNotFound? && s.asks[e.i].recovering ==>
                  s1.reader == Restart(s.reader) && s1.creating == s.creating + {s1.reader.serial} && s1.net == s.net)
  {
    hide Forget, Recovering, CreditOf;
    ForgetIs(s.asks, e.i);
  }

  lemma ForgetIs(asks: seq<Ask>, i: nat)
    requires i < |asks|
    ensures multiset(Forget(asks, i)) == multiset(asks) - multiset{asks[i]}
  {
    assert asks == asks[..i] + [asks[i]] + asks[i + 1..];
  }

  /** What will not come any more is taken off `pending`, and unless the status stalls the client tops it up. */
  lemma StatusExactly(c: Config, log: seq<nat>, s: St, i: nat, stalls: bool)
    requires Possible(log, s, StatusArrives(i, stalls)) && s.net.notices[i].inbox == s.reader.serial
    ensures var s1, left := Step(c, log, s, StatusArrives(i, stalls)), s.net.notices[i].left;
            if stalls || c.maxMessages == 0 || s.pending - left > c.threshold then s1 == s.(pending := s.pending - left)
            else s1.pending == c.maxMessages
  {
  }

  // ----- a callback, and no overlap

  /** Pulls name the consumer of the inbox they are answered on. */
  predicate Straight(s: St) {
    && s.queued == []
    && (forall r :: r in s.net.credit ==> r.0 == r.1 <= s.reader.serial)
    && (forall i :: 0 <= i < |s.net.flights| ==>
          s.net.flights[i].consumer == s.net.flights[i].inbox
          && (s.net.flights[i].inbox, s.net.flights[i].inbox) in s.net.credit)
    && (forall i :: 0 <= i < |s.net.notices| ==>
          (s.net.notices[i].inbox, s.net.notices[i].inbox) in s.net.credit)
  }

  /** A consumer being replaced is not pulled from, and nobody asks for its info. */
  predicate InTurn(s: St) {
    && (forall k :: k in s.creating ==> k == s.reader.serial)
    && (s.retries > 0 ==> s.creating == {} && s.retries == 1)
    && (!Replacing(s) ==> s.info == s.reader.serial)
    && ((s.reader.serial, s.reader.serial) in s.net.credit ==> !Replacing(s))
    && (s.asks != [] ==> !Replacing(s))
    && (forall i :: 0 <= i < |s.asks| ==> s.asks[i].consumer == s.reader.serial)
  }

  predicate CallbackInv(s: St) {
    Straight(s) && InTurn(s)
  }

  lemma PullStraight(c: Config, s: St)
    requires c.callback && CallbackInv(s) && !Replacing(s)
    ensures CallbackInv(Pull(c, s)) && CallbackInv(Refill(c, s))
  {
  }

  lemma ResetStraight(s: St)
    requires CallbackInv(s) && !Replacing(s) && s.asks == []
    ensures CallbackInv(Reset(s))
  {
  }

  lemma {:induction false} CallbackMessage(c: Config, log: seq<nat>, s: St, i: nat)
    requires c.callback && !c.overlaps && CallbackInv(s) && Enabled(c, log, s, Arrives(i))
    ensures CallbackInv(Step(c, log, s, Arrives(i))) && FromCurrent(s, Arrives(i))
  {
    hide Pull, Refill;
    var m := s.net.flights[i];
    if m.inbox == s.reader.serial {
      var r := OrderedConsumer.OnMessage(s.reader, m.inbox, m.dseq, Content(log, s.reader, m.consumer, m.dseq));
      if Expected(s.reader, m.dseq) {
        PullStraight(c, s.(reader := r));
        PullStraight(c, s.(reader := r, pending := s.pending - 1));
      } else {
        ResetStraight(s);
      }
    }
  }

  lemma StraightKept(s: St, r: St)
    requires Straight(s) && r.net == s.net && r.reader == s.reader && r.queued == s.queued
    ensures Straight(r)
  {
  }

  /** An answer less to wait for. */
  lemma Forgotten(s: St, i: nat)
    requires CallbackInv(s) && i < |s.asks|
    ensures CallbackInv(s.(asks := Forget(s.asks, i))) && !Replacing(s) && s.asks[i].consumer == s.info
  {
  }

  lemma {:induction false} CallbackInfo(c: Config, log: seq<nat>, s: St, e: Event)
    requires c.callback && !c.overlaps && CallbackInv(s) && Enabled(c, log, s, e)
    requires e.InfoAsked? || e.InfoAnswered? || e.InfoNotFound? || e.InfoFails? || e.RecoversBlind?
    ensures CallbackInv(Step(c, log, s, e))
  {
    hide Pull, Refill, Straight, Forget, Recovering, Has;
    if e.InfoAnswered? || e.InfoNotFound? || e.InfoFails? {
      Forgotten(s, e.i);
    }
    match e {
      case InfoAnswered(i) =>
        var s1 := s.(info := s.asks[i].consumer, asks := Forget(s.asks, i));
        StraightKept(s, s1.(pending := 0));
        PullStraight(c, s1.(pending := 0));
      case InfoNotFound(i) =>
        if s.asks[i].recovering {
          ResetStraight(s.(asks := Forget(s.asks, i)));
        }
      case RecoversBlind =>
        StraightKept(s, s.(pending := 0));
        PullStraight(c, s.(pending := 0));
      case InfoAsked(_) => StraightKept(s, Step(c, log, s, e));
      case InfoFails(_) =>
    }
  }

  lemma {:induction false} CallbackStep(c: Config, log: seq<nat>, s: St, e: Event)
    requires c.callback && !c.overlaps && CallbackInv(s) && Enabled(c, log, s, e)
    ensures CallbackInv(Step(c, log, s, e)) && FromCurrent(s, e)
  {
    hide Pull, Refill;
    match e {
      case Arrives(i) => CallbackMessage(c, log, s, i);
      case StatusArrives(i, stalls) =>
        if s.net.notices[i].inbox == s.reader.serial {
          PullStraight(c, s.(pending := s.pending - s.net.notices[i].left));
        }
      case Created(k) => PullStraight(c, s.(info := k, creating := s.creating - {k}));
      case InfoAsked(_) => CallbackInfo(c, log, s, e);
      case InfoAnswered(_) => CallbackInfo(c, log, s, e);
      case InfoNotFound(_) => CallbackInfo(c, log, s, e);
      case InfoFails(_) => CallbackInfo(c, log, s, e);
      case RecoversBlind => CallbackInfo(c, log, s, e);
      case _ =>
    }
  }

  lemma {:induction false} CallbackIsSilent(c: Config, log: seq<nat>, s: St, events: seq<Event>, s1: St)
    requires c.callback && !c.overlaps && CallbackInv(s) && Run(c, log, s, events, s1)
    ensures OldSilent(c, log, s, events)
    decreases |events|
  {
    if events != [] {
      hide Step, CallbackInv;
      CallbackStep(c, log, s, events[0]);
      CallbackIsSilent(c, log, Step(c, log, s, events[0]), events[1..], s1);
    }
  }

  lemma {:induction false} CallbackKept(c: Config, log: seq<nat>, s: St, events: seq<Event>, s1: St)
    requires c.callback && !c.overlaps && CallbackInv(s) && Run(c, log, s, events, s1)
    ensures CallbackInv(s1)
    decreases |events|
  {
    if events != [] {
      hide Step, CallbackInv;
      CallbackStep(c, log, s, events[0]);
      CallbackKept(c, log, Step(c, log, s, events[0]), events[1..], s1);
    }
  }

  /** A recovery always lets the current consumer send the whole limit, to the current inbox. */
  lemma {:induction false} RecoveryPulls(c: Config, log: seq<nat>, start: nat, events: seq<Event>, s: St, e: Event)
    requires c.callback && !c.overlaps && c.maxMessages > 0 && Run(c, log, Initial(c, start), events, s)
    requires Enabled(c, log, s, e) && Pulls(s, e) && !e.Created?
    ensures var s1 := Step(c, log, s, e);
            s1.pending == c.maxMessages && CreditOf(s1.net, s1.reader.serial, s1.reader.serial) >= c.maxMessages
  {
    assert CallbackInv(Initial(c, start));
    CallbackKept(c, log, Initial(c, start), events, s);
    PullsFrom(c, log, s, e);
  }

  /** With a callback, and recoveries that overlap no replacement, the prefix property holds on every run. */
  lemma {:induction false} OrderedPullCallback(c: Config, log: seq<nat>, start: nat, events: seq<Event>, s: St)
    requires c.callback && !c.overlaps && Increasing(log) && Run(c, log, Initial(c, start), events, s)
    ensures IsPrefix(log, start, s.reader)
  {
    assert CallbackInv(Initial(c, start));
    CallbackIsSilent(c, log, Initial(c, start), events, s);
    OrderedPullSilent(c, log, start, events, s);
  }
}
