/**
 * The classes behind ordered consumers, each proved to take the steps of OrderedPull and of
 * OrderedConsumer, and driven by whole runs of the server and the network.
 */
module OrderedClients {
  import opened Bytes
  import opened OrderedConsumer
  import opened OrderedPull
  import opened Stream
  import PullCredit

  /** What a reset asks the server for: the name ends in the serial, as does the inbox. */
  datatype ConsumerConfig = ConsumerConfig(serial: nat, optStartSeq: nat)

  /** PullConsumerMessagesImpl and the state it keeps in PullConsumerImpl. */
  class PullMessages {
    const c: Config
    var serial: nat
    var info: nat
    var streamSeq: nat
    var deliverSeq: nat
    var pending: int         // pending.msgs
    var queue: seq<PullFn>   // the pulls among the items that the iterator has not reached
    var accepted: seq<nat>   // the messages pushed to the iterator or the callback

    // What was asked of the server, and what the network has.
    var starts: map<nat, nat>
    var creating: set<nat>
    var retries: nat
    var asks: seq<Ask>
    var net: Net

    function View(): St
      reads this
    {
      St(Reader(serial, Cursor(streamSeq, deliverSeq), starts, accepted),
         info, pending, queue, creating, retries, asks, net)
    }

    constructor (c: Config, optStartSeq: nat)
      ensures this.c == c && View() == Initial(c, optStartSeq)
    {
      this.c := c;
      serial, info, pending := 1, 1, 0;
      streamSeq := if optStartSeq > 0 then optStartSeq - 1 else 0;
      deliverSeq, queue, accepted := 0, [], [];
      starts := map[1 := if optStartSeq > 0 then optStartSeq else 1];
      creating, retries, asks, net := {}, 0, [], Net(map[], map[], [], []);
      new;
      IssuePull();
    }

    /** Publishes a pull to be answered on the inbox of this moment. */
    method PublishPull(f: PullFn)
      modifies this`net
      ensures View() == Publish(c, old(View()), f)
    {
      var more := if f.batch > 0 then f.batch else c.zeroBatch;
      net := net.(credit := net.credit[(f.target, serial) := CreditOf(net, f.target, serial) + more]);
    }

    function PullOptions(): (batch: int)
      reads this
      ensures pending + batch == c.maxMessages
    {
      c.maxMessages - pending
    }

    /** `pull(pullOptions())` */
    method IssuePull()
      modifies this`net, this`queue, this`pending
      ensures View() == Pull(c, old(View()))
    {
      var f := PullFn(info, PullOptions());
      pending := pending + f.batch;
      if c.callback {
        PublishPull(f);
      } else {
        queue := queue + [f];
      }
    }

    /** The end of the message callback. */
    method AfterMessage()
      modifies this`net, this`queue, this`pending
      ensures View() == Refill(c, old(View()))
    {
      if c.maxMessages != 0 && pending <= c.threshold {
        IssuePull();
      }
    }

    /** The iterator runs the next queued pull. */
    method RunNext()
      requires queue != []
      modifies this`net, this`queue
      ensures View() == RunQueued(c, old(View()))
    {
      var f := queue[0];
      queue := queue[1..];
      PublishPull(f);
    }

    method GetConsumerOpts() returns (config: ConsumerConfig)
      modifies this`serial
      ensures config == ConsumerConfig(serial, streamSeq + 1) && serial == old(serial) + 1
    {
      serial := serial + 1;
      return ConsumerConfig(serial, streamSeq + 1);
    }

    method ResetConsumer() returns (config: ConsumerConfig)
      modifies this`serial, this`deliverSeq, this`starts, this`creating
      ensures View() == Reset(old(View()))
      ensures config == ConsumerConfig(serial, starts[serial])
    {
      config := GetConsumerOpts();
      deliverSeq := 0;
      starts := starts[config.serial := config.optStartSeq];
      creating := creating + {config.serial};
    }

    /** The subscription callback for a message. */
    method MessageCallback(inbox: nat, dseq: nat, sseq: nat)
      modifies this
      ensures View() == OrderedPull.OnMessage(c, old(View()), inbox, dseq, sseq)
    {
      if inbox != serial {
        return;
      }
      if dseq != deliverSeq + 1 {
        var config := ResetConsumer();
        return;
      }
      deliverSeq := dseq;
      streamSeq := sseq;
      accepted := accepted + [sseq];
      if pending != 0 {
        pending := pending - 1;
      }
      AfterMessage();
    }

    /** The subscription callback for a status that says how many messages will not come. */
    method StatusCallback(inbox: nat, msgsLeft: nat, stalls: bool)
      modifies this
      ensures View() == OnStatus(c, old(View()), inbox, msgsLeft, stalls)
    {
      if inbox != serial {
        return;
      }
      if msgsLeft > 0 {
        pending := pending - msgsLeft;
      }
      if !stalls {
        AfterMessage();
      }
    }

    method ConsumerCreated(k: nat)
      modifies this
      ensures View() == OnCreated(c, old(View()), k)
    {
      info := k;
      creating := creating - {k};
      IssuePull();
    }

    /** A failed creation is tried again after a delay. */
    method CreateFailed(k: nat)
      modifies this`creating, this`retries
      ensures View() == old(View()).(creating := old(creating) - {k}, retries := old(retries) + 1)
    {
      creating := creating - {k};
      retries := retries + 1;
    }

    method DelayEnds()
      requires retries > 0
      modifies this
      ensures View() == Reset(old(View()).(retries := old(retries) - 1))
    {
      retries := retries - 1;
      var config := ResetConsumer();
    }

    /** `consumer.info()`, called by `resetPending` or by the user. */
    method AskInfo(recovering: bool)
      modifies this`asks
      ensures View() == old(View()).(asks := old(asks) + [Ask(info, recovering)])
    {
      asks := asks + [Ask(info, recovering)];
    }

    method ResetPending()
      modifies this
      ensures View() == Recover(c, old(View()))
    {
      pending := 0;
      IssuePull();
    }

    method InfoArrives(i: nat)
      requires i < |asks|
      modifies this
      ensures View() == OnInfo(c, old(View()), i)
    {
      var ask := asks[i];
      asks := asks[..i] + asks[i + 1..];
      info := ask.consumer;
      if ask.recovering {
        ResetPending();
      }
    }

    method ConsumerNotFound(i: nat)
      requires i < |asks|
      modifies this
      ensures View() == OnNotFound(old(View()), i)
    {
      var ask := asks[i];
      asks := asks[..i] + asks[i + 1..];
      if ask.recovering {
        var config := ResetConsumer();
      }
    }

    /** The message in flight that arrives. */
    method Deliver(log: seq<nat>, i: nat)
      requires Possible(log, View(), Arrives(i))
      modifies this
      ensures View() == Step(c, log, old(View()), Arrives(i))
    {
      var m := net.flights[i];
      MessageCallback(m.inbox, m.dseq, Content(log, View().reader, m.consumer, m.dseq));
    }

    /** One event of the server, the network or the client. */
    method Handle(log: seq<nat>, e: Event)
      requires Possible(log, View(), e)
      modifies this
      ensures View() == Step(c, log, old(View()), e)
    {
      hide Pull, Refill, Publish, Reset, OrderedPull.OnMessage, OnStatus, OnCreated, OnInfo, OnNotFound, RunQueued, Recover, Has;
      match e {
        case ServerSends(k, inbox) => net := Sends(net, k, inbox);
        case RequestEnds(k, inbox, left) => net := Ends(net, k, inbox, left);
        case Arrives(i) => Deliver(log, i);
        case StatusArrives(i, stalls) => StatusCallback(net.notices[i].inbox, net.notices[i].left, stalls);
        case Created(k) => ConsumerCreated(k);
        case CreateFails(k) => CreateFailed(k);
        case Retry => DelayEnds();
        case IteratorRuns => RunNext();
        case InfoAsked(recovering) => AskInfo(recovering);
        case InfoAnswered(i) => InfoArrives(i);
        case InfoNotFound(i) => ConsumerNotFound(i);
        case InfoFails(i) => asks := asks[..i] + asks[i + 1..];
        case RecoversBlind => ResetPending();
      }
    }
  }

  /**
   * The class on any run: it ends where the model does, and with a callback and without overlap
   * what it handed on is a prefix of the stream.
   */
  method Consume(c: Config, log: seq<nat>, optStartSeq: nat, events: seq<Event>, ghost end: St)
    returns (p: PullMessages)
    requires Increasing(log) && OrderedPull.Run(c, log, Initial(c, optStartSeq), events, end)
    ensures p.View() == end
    ensures c.callback && !c.overlaps ==> IsPrefix(log, optStartSeq, p.View().reader)
  {
    hide Initial, Step, Possible, Overlaps;
    p := new PullMessages(c, optStartSeq);
    var i := 0;
    assert events[0..] == events;
    while i < |events|
      invariant 0 <= i <= |events| && p.c == c && fresh(p)
      invariant OrderedPull.Run(c, log, p.View(), events[i..], end)
    {
      assert events[i..][0] == events[i] && events[i..][1..] == events[i + 1..];
      p.Handle(log, events[i]);
      i := i + 1;
    }
    if c.callback && !c.overlaps {
      OrderedPullCallback(c, log, optStartSeq, events, end);
    }
  }

  /** PushConsumerMessagesImpl: the consumer delivers to the inbox of its serial. */
  class PushMessages {
    var serial: nat
    var streamSeq: nat
    var deliverSeq: nat
    var accepted: seq<nat>   // the messages pushed to the iterator or the callback
    var starts: map<nat, nat>

    function View(): Reader
      reads this
    {
      Reader(serial, Cursor(streamSeq, deliverSeq), starts, accepted)
    }

    constructor (optStartSeq: nat)
      ensures View() == Begin(optStartSeq)
    {
      serial := 1;
      streamSeq := if optStartSeq > 0 then optStartSeq - 1 else 0;
      deliverSeq, accepted := 0, [];
      starts := map[1 := if optStartSeq > 0 then optStartSeq else 1];
    }

    method GetConsumerOpts() returns (config: ConsumerConfig)
      modifies this`serial
      ensures config == ConsumerConfig(serial, streamSeq + 1) && serial == old(serial) + 1
    {
      serial := serial + 1;
      return ConsumerConfig(serial, streamSeq + 1);
    }

    /** Also what follows missed heartbeats, and the delay after a creation that failed. */
    method ResetConsumer() returns (config: ConsumerConfig)
      modifies this
      ensures View() == Restart(old(View()))
      ensures config == ConsumerConfig(serial, starts[serial])
    {
      config := GetConsumerOpts();
      deliverSeq := 0;
      starts := starts[config.serial := config.optStartSeq];
    }

    method MessageCallback(inbox: nat, dseq: nat, sseq: nat)
      modifies this
      ensures View() == OrderedConsumer.OnMessage(old(View()), inbox, dseq, sseq)
    {
      if inbox != serial {
        return;
      }
      if dseq != deliverSeq + 1 {
        var config := ResetConsumer();
        return;
      }
      deliverSeq := dseq;
      streamSeq := sseq;
      accepted := accepted + [sseq];
    }

    method HeartbeatCallback(inbox: nat, lastConsumerSequence: nat, stalled: bool)
      modifies this
      ensures View() == OnHeartbeat(old(View()), inbox, lastConsumerSequence, stalled)
    {
      if inbox != serial {
        return;
      }
      if !stalled && lastConsumerSequence != deliverSeq {
        var config := ResetConsumer();
      }
    }

    /** One event of the server or the network. */
    method Handle(log: seq<nat>, e: PushEvent)
      requires PushEnabled(log, View(), e)
      modifies this
      ensures View() == PushStep(log, old(View()), e)
    {
      match e {
        case Delivers(inbox, dseq) => MessageCallback(inbox, dseq, Content(log, View(), inbox, dseq));
        case Heartbeat(inbox, lastSent, stalled) => HeartbeatCallback(inbox, lastSent, stalled);
        case Fails => var config := ResetConsumer();
      }
    }
  }

  /** The class on any run: what it handed on is a prefix of the stream. */
  method ConsumePushed(log: seq<nat>, optStartSeq: nat, events: seq<PushEvent>, ghost end: Reader)
    returns (p: PushMessages)
    requires Increasing(log) && PushRun(log, Begin(optStartSeq), events, end)
    ensures p.View() == end && IsPrefix(log, optStartSeq, p.View())
  {
    hide PushStep, PushEnabled;
    p := new PushMessages(optStartSeq);
    var i := 0;
    assert events[0..] == events;
    while i < |events|
      invariant 0 <= i <= |events| && fresh(p)
      invariant PushRun(log, p.View(), events[i..], end)
    {
      assert events[i..][0] == events[i] && events[i..][1..] == events[i + 1..];
      p.Handle(log, events[i]);
      i := i + 1;
    }
    OrderedPush(log, optStartSeq, events, end);
  }
}
