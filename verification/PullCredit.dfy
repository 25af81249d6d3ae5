/**
 * Back-pressure of a pull consumer in `consume` with a limit on messages
 * (PullConsumerMessagesImpl in jetstream/src/consumer.ts). Pulls wait in the iterator's queue
 * behind the messages they replace, and the server may only send what published pulls allow.
 */
module PullCredit {

  /** The queue of the iterator: messages, and pulls that are published when they are reached. */
  datatype Item = Message | PullFn(batch: int)

  datatype Config = Config(maxMessages: nat, threshold: nat, callback: bool)

  /** `credit` is what the server may still send; `notices` are ends of requests on their way. */
  datatype St = St(pending: int, queue: seq<Item>, credit: int, notices: seq<nat>)

  datatype Event =
    | MessageArrives
    | RequestEnds(left: nat)             // the server drops what is left of a request
    | NoticeArrives(i: nat, stalls: bool)
    | NoticeLost(i: nat)
    | StatusArrives
    | IteratorRuns

  /** `pull(pullOptions())`: the batch tops `pending.msgs` up to the limit. */
  function Pull(c: Config, s: St): St {
    var batch := c.maxMessages - s.pending;
    var s1 := s.(pending := s.pending + batch);
    if c.callback then s1.(credit := s1.credit + batch) else s1.(queue := s1.queue + [PullFn(batch)])
  }

  /** Whether a message or a status makes the client pull again. */
  predicate Refills(maxMessages: nat, threshold: nat, pending: int) {
    maxMessages != 0 && pending <= threshold
  }

  /** The end of the message callback. */
  function Refill(c: Config, s: St): St {
    if Refills(c.maxMessages, c.threshold, s.pending) then Pull(c, s) else s
  }

  function OnMessage(c: Config, s: St): St {
    var s1 := if c.callback then s else s.(queue := s.queue + [Message]);
    Refill(c, if s1.pending != 0 then s1.(pending := s1.pending - 1) else s1)
  }

  /** A request ended with `left` messages not sent; some statuses return before the refill. */
  function OnNotice(c: Config, s: St, left: nat, stalls: bool): St {
    var s1 := s.(pending := s.pending - left);
    if stalls then s1 else Refill(c, s1)
  }

  /** The iterator yields its next message, or publishes its next pull. */
  function OnNext(s: St): St
    requires s.queue != []
  {
    var s1 := s.(queue := s.queue[1..]);
    match s.queue[0]
    case Message => s1
    case PullFn(batch) => s1.(credit := s1.credit + batch)
  }

  function Initial(c: Config): St {
    Pull(c, St(0, [], 0, []))
  }

  /** An honest server sends and ends no more than published pulls allow. */
  predicate Enabled(s: St, e: Event) {
    match e
    case MessageArrives => s.credit >= 1
    case RequestEnds(left) => left <= s.credit
    case NoticeArrives(i, _) => i < |s.notices|
    case NoticeLost(i) => i < |s.notices|
    case StatusArrives => true
    case IteratorRuns => s.queue != []
  }

  function Without(notices: seq<nat>, i: nat): seq<nat>
    requires i < |notices|
  {
    notices[..i] + notices[i + 1..]
  }

  function Step(c: Config, s: St, e: Event): St
    requires Enabled(s, e)
  {
    match e
    case MessageArrives => OnMessage(c, s.(credit := s.credit - 1))
    case RequestEnds(left) => s.(credit := s.credit - left, notices := s.notices + [left])
    case NoticeArrives(i, stalls) => OnNotice(c, s.(notices := Without(s.notices, i)), s.notices[i], stalls)
    case NoticeLost(i) => s.(notices := Without(s.notices, i))
    case StatusArrives => Refill(c, s)
    case IteratorRuns => OnNext(s)
  }

  predicate Run(c: Config, s: St, events: seq<Event>, s1: St)
    decreases |events|
  {
    if events == [] then s1 == s
    else Enabled(s, events[0]) && Run(c, Step(c, s, events[0]), events[1..], s1)
  }

  // ----- the bound

  function Messages(queue: seq<Item>): nat {
    if queue == [] then 0
    else Messages(queue[..|queue| - 1]) + if queue[|queue| - 1].Message? then 1 else 0
  }

  function Batches(queue: seq<Item>): int {
    if queue == [] then 0
    else Batches(queue[..|queue| - 1]) + if queue[|queue| - 1].PullFn? then queue[|queue| - 1].batch else 0
  }

  function Sum(notices: seq<nat>): nat {
    if notices == [] then 0 else Sum(notices[..|notices| - 1]) + notices[|notices| - 1]
  }

  /** Every message waits in front of a pull that replaces it, or within the last `room`. */
  predicate Covered(queue: seq<Item>, room: int) {
    room >= 0 &&
    if queue == [] then true
    else
      var rest := queue[..|queue| - 1];
      match queue[|queue| - 1]
      case Message => Covered(rest, room - 1)
      case PullFn(batch) => Covered(rest, batch)
  }

  predicate Inv(c: Config, s: St) {
    && 0 <= s.credit
    && s.pending <= c.maxMessages
    && s.credit + Batches(s.queue) + Sum(s.notices) <= s.pending
    && Covered(s.queue, c.maxMessages - s.pending)
    && (c.callback ==> s.queue == [])
  }

  lemma {:induction false} CoveredMore(queue: seq<Item>, room: int, more: int)
    requires Covered(queue, room) && room <= more
    ensures Covered(queue, more)
  {
    if queue != [] && queue[|queue| - 1].Message? {
      CoveredMore(queue[..|queue| - 1], room - 1, more - 1);
    }
  }

  lemma {:induction false} CoveredBounds(queue: seq<Item>, room: int)
    requires Covered(queue, room)
    ensures Messages(queue) <= room + Batches(queue) && Batches(queue) >= 0
  {
    if queue != [] {
      var rest := queue[..|queue| - 1];
      match queue[|queue| - 1] {
        case Message => CoveredBounds(rest, room - 1);
        case PullFn(batch) => CoveredBounds(rest, batch);
      }
    }
  }

  /** Taking the first item away keeps the rest covered. */
  lemma {:induction false} CoveredTail(queue: seq<Item>, room: int)
    requires queue != [] && Covered(queue, room)
    ensures Covered(queue[1..], room)
    ensures Batches(queue[1..]) == Batches(queue) - if queue[0].PullFn? then queue[0].batch else 0
    ensures queue[0].PullFn? ==> queue[0].batch >= 0
  {
    if |queue| > 1 {
      var rest := queue[..|queue| - 1];
      CoveredTail(rest, match queue[|queue| - 1] case Message => room - 1 case PullFn(batch) => batch);
      assert queue[1..][..|queue| - 2] == rest[1..];
    } else {
      assert queue[..0] == [] && queue[1..] == [];
    }
  }

  lemma QueuePush(queue: seq<Item>, item: Item, room: int)
    requires room >= 0
    requires match item case Message => Covered(queue, room - 1) case PullFn(batch) => Covered(queue, batch)
    ensures Batches(queue + [item]) == Batches(queue) + if item.PullFn? then item.batch else 0
    ensures Covered(queue + [item], room)
  {
    assert (queue + [item])[..|queue|] == queue;
  }

  lemma RoomLeft(queue: seq<Item>, room: int)
    requires Covered(queue, room)
    ensures room >= 0
  {
  }

  lemma {:induction false} SumWithout(notices: seq<nat>, i: nat)
    requires i < |notices|
    ensures Sum(Without(notices, i)) + notices[i] == Sum(notices)
  {
    var n := |notices| - 1;
    if i == n {
      assert Without(notices, i) == notices[..n];
    } else {
      SumWithout(notices[..n], i);
      assert Without(notices, i)[..n - 1] == Without(notices[..n], i);
    }
  }

  lemma NothingQueued(room: nat)
    ensures Covered([], room) && Batches([]) == 0
  {
  }

  /** A pull tops `pending` up to exactly the limit and keeps the bound. */
  lemma {:induction false} PullInv(c: Config, s: St)
    requires Inv(c, s)
    ensures Inv(c, Pull(c, s)) && Pull(c, s).pending == c.maxMessages
  {
    hide Covered, Batches, Sum;
    RoomLeft(s.queue, c.maxMessages - s.pending);
    QueuePush(s.queue, PullFn(c.maxMessages - s.pending), 0);
    if c.callback {
      NothingQueued(0);
    }
  }

  lemma RefillInv(c: Config, s: St)
    requires Inv(c, s)
    ensures Inv(c, Refill(c, s))
  {
    hide Covered, Batches, Sum, Pull;
    PullInv(c, s);
  }

  /** A message that arrives moves one unit of credit into the queue. */
  function Received(c: Config, s: St): St {
    s.(credit := s.credit - 1, pending := s.pending - 1, queue := if c.callback then s.queue else s.queue + [Message])
  }

  lemma ReceivedInv(c: Config, s: St)
    requires Inv(c, s) && s.credit >= 1
    ensures Inv(c, Received(c, s)) && s.pending >= 1
  {
    hide Covered, Batches, Sum;
    var room := c.maxMessages - s.pending;
    CoveredBounds(s.queue, room);
    RoomLeft(s.queue, room);
    QueuePush(s.queue, Message, room + 1);
    CoveredMore(s.queue, room, room + 1);
  }

  lemma MessageInv(c: Config, s: St)
    requires Inv(c, s) && s.credit >= 1
    ensures Inv(c, OnMessage(c, s.(credit := s.credit - 1)))
  {
    hide Inv, Refill;
    ReceivedInv(c, s);
    RefillInv(c, Received(c, s));
  }

  lemma NoticeInv(c: Config, s: St, i: nat, stalls: bool)
    requires Inv(c, s) && i < |s.notices|
    ensures Inv(c, OnNotice(c, s.(notices := Without(s.notices, i)), s.notices[i], stalls))
    ensures Inv(c, s.(notices := Without(s.notices, i)))
  {
    hide Covered, Batches, Sum, Refill, Without;
    var left := s.notices[i];
    SumWithout(s.notices, i);
    CoveredMore(s.queue, c.maxMessages - s.pending, c.maxMessages - s.pending + left);
    var s1 := s.(notices := Without(s.notices, i));
    RefillInv(c, s1.(pending := s.pending - left));
  }

  lemma SumPush(notices: seq<nat>, left: nat)
    ensures Sum(notices + [left]) == Sum(notices) + left
  {
    assert (notices + [left])[..|notices|] == notices;
  }

  lemma StepInv(c: Config, s: St, e: Event)
    requires Inv(c, s) && Enabled(s, e)
    ensures Inv(c, Step(c, s, e))
  {
    hide Covered, Batches, Sum, Refill, Without, OnMessage, OnNotice;
    match e {
      case MessageArrives => MessageInv(c, s);
      case RequestEnds(left) => SumPush(s.notices, left);
      case NoticeArrives(i, stalls) => NoticeInv(c, s, i, stalls);
      case NoticeLost(i) => NoticeInv(c, s, i, true);
      case StatusArrives => RefillInv(c, s);
      case IteratorRuns => CoveredTail(s.queue, c.maxMessages - s.pending);
    }
  }

  lemma {:induction false} RunInv(c: Config, s: St, events: seq<Event>, s1: St)
    requires Inv(c, s) && Run(c, s, events, s1)
    ensures Inv(c, s1)
    decreases |events|
  {
    if events != [] {
      StepInv(c, s, events[0]);
      RunInv(c, Step(c, s, events[0]), events[1..], s1);
    }
  }

  /**
   * Back-pressure: over every run with an honest server, the messages buffered in the iterator
   * and those the server may still send never exceed the limit, even when notices are lost.
   */
  lemma BackPressure(c: Config, events: seq<Event>, s: St)
    requires Run(c, Initial(c), events, s)
    ensures Messages(s.queue) + s.credit <= c.maxMessages
    ensures 0 <= s.credit <= s.pending <= c.maxMessages
  {
    PullInv(c, St(0, [], 0, []));
    RunInv(c, Initial(c), events, s);
    CoveredBounds(s.queue, c.maxMessages - s.pending);
  }

  // ----- progress

  /** The end of a request is not lost, and its status does not keep the client from pulling again. */
  predicate Smooth(e: Event) {
    !e.NoticeLost? && (e.NoticeArrives? ==> !e.stalls)
  }

  /** `pending` is exactly what the server may still send, what waits to be pulled, and what ended. */
  predicate Exact(s: St) {
    s.credit + Batches(s.queue) + Sum(s.notices) == s.pending
  }

  predicate Topped(c: Config, s: St) {
    c.maxMessages != 0 ==> s.pending > c.threshold || s.pending == c.maxMessages
  }

  lemma PullExact(c: Config, s: St)
    requires Inv(c, s) && Exact(s)
    ensures Exact(Pull(c, s)) && Exact(Refill(c, s)) && Topped(c, Refill(c, s)) && Topped(c, Pull(c, s))
  {
    hide Covered, Batches, Sum;
    QueueAdds(s.queue, PullFn(c.maxMessages - s.pending));
    QueueAdds([], PullFn(c.maxMessages - s.pending));
  }

  lemma QueueAdds(queue: seq<Item>, x: Item)
    ensures Batches(queue + [x]) == Batches(queue) + (if x.PullFn? then x.batch else 0)
  {
    assert (queue + [x])[..|queue|] == queue;
  }

  lemma {:induction false} QueueTakes(queue: seq<Item>)
    requires queue != []
    ensures Batches(queue) == (if queue[0].PullFn? then queue[0].batch else 0) + Batches(queue[1..])
  {
    var n := |queue| - 1;
    if n > 0 {
      QueueTakes(queue[..n]);
      assert queue[..n][1..] == queue[1..][..n - 1];
    }
  }

  lemma {:induction false} StepExact(c: Config, s: St, e: Event)
    requires Inv(c, s) && Exact(s) && Topped(c, s) && Enabled(s, e) && Smooth(e)
    ensures Exact(Step(c, s, e)) && Topped(c, Step(c, s, e))
  {
    hide Covered, Batches, Sum, Refill, Without, Inv;
    match e {
      case MessageArrives =>
        QueueAdds(s.queue, Message);
        ReceivedInv(c, s);
        PullExact(c, Received(c, s));
      case RequestEnds(left) => SumPush(s.notices, left);
      case NoticeArrives(i, stalls) =>
        SumWithout(s.notices, i);
        NoticeTaken(c, s, i);
        var s1 := s.(notices := Without(s.notices, i));
        PullExact(c, s1.(pending := s.pending - s.notices[i]));
      case StatusArrives => PullExact(c, s);
      case IteratorRuns => QueueTakes(s.queue);
    }
  }

  lemma NoticeTaken(c: Config, s: St, i: nat)
    requires Inv(c, s) && i < |s.notices|
    ensures var s1 := s.(notices := Without(s.notices, i));
            Inv(c, s1.(pending := s.pending - s.notices[i]))
  {
    hide Covered, Batches, Sum, Without;
    SumWithout(s.notices, i);
    CoveredMore(s.queue, c.maxMessages - s.pending, c.maxMessages - s.pending + s.notices[i]);
  }

  lemma {:induction false} RunExact(c: Config, s: St, events: seq<Event>, s1: St)
    requires Inv(c, s) && Exact(s) && Topped(c, s) && Run(c, s, events, s1) && forall e :: e in events ==> Smooth(e)
    ensures Inv(c, s1) && Exact(s1) && Topped(c, s1)
    decreases |events|
  {
    if events != [] {
      hide Inv, Exact, Topped, Step, Enabled;
      StepInv(c, s, events[0]);
      StepExact(c, s, events[0]);
      RunExact(c, Step(c, s, events[0]), events[1..], s1);
    }
  }

  /**
   * The client keeps pulling: while no status stalls it and none is lost, no credit leaks, and
   * whenever the iterator has worked off its queue and no status is on its way, the server may
   * send more than the threshold or the whole limit, so never nothing.
   */
  lemma {:induction false} NeverStarves(c: Config, events: seq<Event>, s: St)
    requires c.maxMessages > 0 && Run(c, Initial(c), events, s) && forall e :: e in events ==> Smooth(e)
    ensures s.credit + Batches(s.queue) + Sum(s.notices) == s.pending
    ensures s.pending > c.threshold || s.pending == c.maxMessages
    ensures s.queue == [] && s.notices == [] ==> s.credit >= 1 && (s.credit > c.threshold || s.credit == c.maxMessages)
  {
    InitialExact(c);
    hide Run, Initial, Batches, Sum, Covered;
    RunExact(c, Initial(c), events, s);
    NothingLeft();
  }

  lemma InitialExact(c: Config)
    ensures Inv(c, Initial(c)) && Exact(Initial(c)) && Topped(c, Initial(c))
  {
    PullInv(c, St(0, [], 0, []));
    PullExact(c, St(0, [], 0, []));
  }

  lemma NothingLeft()
    ensures Batches([]) == 0 && Sum([]) == 0
  {
  }

  /**
   * What `pending` is after a message, and after a status: the client pulls exactly when it falls to
   * the threshold, and then up to the limit.
   */
  lemma PendingExactly(c: Config, s: St, e: Event)
    requires Enabled(s, e) && (e.MessageArrives? || e.NoticeArrives?)
    ensures var left := if e.NoticeArrives? then s.pending - s.notices[e.i] else if s.pending != 0 then s.pending - 1 else 0;
            var stays := c.maxMessages == 0 || left > c.threshold || (e.NoticeArrives? && e.stalls);
            && Step(c, s, e).pending == (if stays then left else c.maxMessages)
            && Step(c, s, e).queue == s.queue + (if e.MessageArrives? && !c.callback then [Message] else [])
                                     + (if !stays && !c.callback then [PullFn(c.maxMessages - left)] else [])
  {
  }

  // ----- the callbacks

  class PullMessages {
    const c: Config
    var pending: int   // pending.msgs
    var queue: seq<Item>
    var credit: int          // what the server may still send
    var notices: seq<nat>    // ends of requests on their way

    function View(): St
      reads this
    {
      St(pending, queue, credit, notices)
    }

    constructor (c: Config)
      ensures this.c == c && View() == Initial(c)
    {
      this.c := c;
      pending, queue, credit, notices := 0, [], 0, [];
      new;
      PullNow(PullOptions());
    }

    function PullOptions(): (batch: int)
      reads this
      ensures pending + batch == c.maxMessages
    {
      c.maxMessages - pending
    }

    method PullNow(batch: int)
      requires batch == PullOptions()
      modifies this
      ensures View() == Pull(c, old(View()))
    {
      pending := pending + batch;
      if c.callback {
        credit := credit + batch;
      } else {
        queue := queue + [PullFn(batch)];
      }
    }

    method AfterMessage()
      modifies this
      ensures View() == Refill(c, old(View()))
    {
      if c.maxMessages != 0 && pending <= c.threshold {
        PullNow(PullOptions());
      }
    }

    method MessageCallback()
      modifies this
      ensures View() == OnMessage(c, old(View()))
    {
      if !c.callback {
        queue := queue + [Message];
      }
      if pending != 0 {
        pending := pending - 1;
      }
      AfterMessage();
    }

    method NoticeCallback(msgsLeft: nat, stalls: bool)
      modifies this
      ensures View() == OnNotice(c, old(View()), msgsLeft, stalls)
    {
      if msgsLeft > 0 {
        pending := pending - msgsLeft;
      }
      if stalls {
        return;
      }
      AfterMessage();
    }

    /** The iterator takes the next item off its queue. */
    method Next()
      requires queue != []
      modifies this
      ensures View() == OnNext(old(View()))
    {
      var item := queue[0];
      queue := queue[1..];
      if item.PullFn? {
        credit := credit + item.batch;
      }
    }

    /** One event of the server, the network or the iterator. */
    method Handle(e: Event)
      requires Enabled(View(), e)
      modifies this
      ensures View() == Step(c, old(View()), e)
    {
      hide Refill, Pull, OnMessage, OnNotice, OnNext, Without;
      match e {
        case MessageArrives =>
          credit := credit - 1;
          MessageCallback();
        case RequestEnds(left) =>
          credit := credit - left;
          notices := notices + [left];
        case NoticeArrives(i, stalls) =>
          var left := notices[i];
          notices := Without(notices, i);
          NoticeCallback(left, stalls);
        case NoticeLost(i) => notices := Without(notices, i);
        case StatusArrives => AfterMessage();
        case IteratorRuns => Next();
      }
    }
  }

  /** The class on any run with an honest server: it ends where the model does, within the limit. */
  method Consume(c: Config, events: seq<Event>, ghost end: St) returns (p: PullMessages)
    requires Run(c, Initial(c), events, end)
    ensures p.View() == end
    ensures Messages(p.queue) + p.credit <= c.maxMessages && p.credit >= 0
  {
    hide Step, Enabled, Initial;
    p := new PullMessages(c);
    var i := 0;
    assert events[0..] == events;
    while i < |events|
      invariant 0 <= i <= |events| && p.c == c && fresh(p)
      invariant Run(c, p.View(), events[i..], end)
    {
      assert events[i..][0] == events[i] && events[i..][1..] == events[i + 1..];
      p.Handle(events[i]);
      i := i + 1;
    }
    BackPressure(c, events, end);
  }
}
