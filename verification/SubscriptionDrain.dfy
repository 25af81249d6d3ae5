/**
 * Draining one subscription (SubscriptionImpl and Subscriptions in core/src/protocol.ts): UNSUB,
 * then a PING; when its PONG has come, the subscription closes behind the messages it has. One
 * connection, no reconnect; the subscription ends by this drain.
 */
module SubscriptionDrain {
  import opened Bytes
  import opened IteratorSpec
  import opened QueuedIterator

  type Msg = nat

  /** What the client sends, in order; a PING belongs to this drain or to another flush. */
  datatype Command = Unsub | Ping(drain: bool)

  /** What the server sends, in order; a PONG answers the PING it is marked with. */
  datatype Frame = Message(m: Msg) | Pong(drain: bool)

  /** `close` of an iterator queues this function, which stops the iterator and resolves `closed`. */
  const CLOSE: Item<Msg> := Callback(0, Stops(false))

  datatype St = St(
    callback: bool,               // noIterator
    serverSub: bool,
    routed: seq<Msg>,             // what the server routed to the subscription
    toServer: seq<Command>,
    toClient: seq<Frame>,
    pongs: seq<bool>,             // the deferreds; true for the drain's
    subscribed: bool,             // in the map of subscriptions
    drained: bool,
    cancels: nat,                 // resolved drains whose `then` has not run
    called: seq<Msg>,             // messages the user's callback got
    accepted: seq<Item<Msg>>,     // pushed to the iterator
    handled: nat,                 // how many of these were yielded or run
    done: bool)

  datatype Event =
    | ServerRoutes(m: Msg)
    | ServerReads
    | ClientReads
    | CallDrain
    | OtherFlush
    | MicrotaskRuns
    | IteratorRuns(n: nat)
    | AfterClose

  /** The messages the user has got. */
  function Delivered(s: St): seq<Msg> {
    if s.callback then s.called else if s.handled <= |s.accepted| then Values(s.accepted[..s.handled]) else []
  }

  /** `closed` is resolved. */
  predicate Closed(s: St) {
    if s.callback then s.done else s.handled <= |s.accepted| && CLOSE in s.accepted[..s.handled]
  }

  // ----- the steps

  function ProcessMsg(s: St, m: Msg): St {
    if !s.subscribed then s
    else if s.callback then s.(called := s.called + [m])
    else if s.done then s
    else s.(accepted := s.accepted + [Value(m)])
  }

  function ProcessPong(s: St): St {
    if s.pongs == [] then s
    else
      s.(pongs := s.pongs[1..], cancels := if s.pongs[0] then s.cancels + 1 else s.cancels)
  }

  function Drain(s: St): St {
    if s.done || s.drained then s
    else s.(drained := true, toServer := s.toServer + [Unsub, Ping(true)], pongs := s.pongs + [true])
  }

  /** `close`, then out of the map. */
  function Cancel(s: St): St {
    var s1 := s.(subscribed := false);
    if s.done then s1
    else if s.callback then s1.(done := true)
    else s1.(accepted := s1.accepted + [CLOSE])
  }

  function ServerRead(s: St): St
    requires s.toServer != []
  {
    var s1 := s.(toServer := s.toServer[1..]);
    match s.toServer[0]
    case Unsub => s1.(serverSub := false)
    case Ping(d) => s1.(toClient := s1.toClient + [Pong(d)])
  }

  function ClientRead(s: St): St
    requires s.toClient != []
  {
    var s1 := s.(toClient := s.toClient[1..]);
    match s.toClient[0]
    case Message(m) => ProcessMsg(s1, m)
    case Pong(_) => ProcessPong(s1)
  }

  /** The iterator has handled its first n items; `done` is set by the close function. */
  function IteratorTo(s: St, n: nat): St
    requires n <= |s.accepted|
  {
    s.(handled := n, done := s.done || CLOSE in s.accepted[..n])
  }

  predicate Enabled(s: St, e: Event) {
    match e
    case ServerRoutes(_) => s.serverSub
    case ServerReads => s.toServer != []
    case ClientReads => s.toClient != []
    case CallDrain => true
    case OtherFlush => true
    case MicrotaskRuns => s.cancels > 0
    case IteratorRuns(n) => !s.callback && s.handled <= n <= |s.accepted|
    case AfterClose => !s.callback && s.done
  }

  function Step(s: St, e: Event): St
    requires Enabled(s, e)
  {
    match e
    case ServerRoutes(m) => s.(routed := s.routed + [m], toClient := s.toClient + [Message(m)])
    case ServerReads => ServerRead(s)
    case ClientReads => ClientRead(s)
    case CallDrain => Drain(s)
    case OtherFlush => s.(toServer := s.toServer + [Ping(false)], pongs := s.pongs + [false])
    case MicrotaskRuns => Cancel(s.(cancels := s.cancels - 1))
    case IteratorRuns(n) => IteratorTo(s, n)
    // `iterClosed` resolved: unsubscribe
    case AfterClose => s.(toServer := s.toServer + [Unsub], subscribed := false)
  }

  predicate Run(s: St, events: seq<Event>, s1: St)
    decreases |events|
  {
    if events == [] then s1 == s
    else Enabled(s, events[0]) && Run(Step(s, events[0]), events[1..], s1)
  }

  /** A subscription the server knows of. */
  function Initial(callback: bool): St {
    St(callback, true, [], [], [], [], true, false, 0, [], [], 0, false)
  }

  // ----- the invariant

  function Messages(frames: seq<Frame>): seq<Msg> {
    if frames == [] then []
    else (if frames[0].Message? then [frames[0].m] else []) + Messages(frames[1..])
  }

  function Answers(frames: seq<Frame>): seq<bool> {
    if frames == [] then []
    else (if frames[0].Pong? then [frames[0].drain] else []) + Answers(frames[1..])
  }

  function Pings(commands: seq<Command>): seq<bool> {
    if commands == [] then []
    else (if commands[0].Ping? then [commands[0].drain] else []) + Pings(commands[1..])
  }

  /** What the subscription was given so far. */
  function Received(s: St): seq<Msg> {
    if s.callback then s.called else Values(s.accepted)
  }

  /** The server reads an UNSUB before the drain's PING, or has read one. */
  predicate UnsubFirst(serverSub: bool, toServer: seq<Command>) {
    serverSub ==>
      forall j :: 0 <= j < |toServer| && toServer[j] == Ping(true) ==> Unsub in toServer[..j]
  }

  /** Nothing is routed behind the answer to the drain's PING. */
  predicate NothingBehind(serverSub: bool, toClient: seq<Frame>) {
    forall i :: 0 <= i < |toClient| && toClient[i] == Pong(true) ==>
      !serverSub && Messages(toClient[i..]) == []
  }

  predicate Quiet(s: St) {
    !s.serverSub && Messages(s.toClient) == []
  }

  predicate ClosesLast(s: St) {
    && s.handled <= |s.accepted|
    && (forall i :: 0 <= i < |s.accepted| ==> s.accepted[i].Value? || (s.accepted[i] == CLOSE && !s.subscribed))
    && (forall i, j :: 0 <= i < j < |s.accepted| && s.accepted[i] == CLOSE ==> !s.accepted[j].Value?)
    && (s.done ==> !s.subscribed)
  }

  predicate Inv(s: St) {
    && Received(s) + Messages(s.toClient) == s.routed
    && s.pongs == Answers(s.toClient) + Pings(s.toServer)
    && UnsubFirst(s.serverSub, s.toServer) && NothingBehind(s.serverSub, s.toClient) && ClosesLast(s)
    && (s.cancels > 0 || !s.subscribed ==> Quiet(s))
  }

  lemma {:induction false} FramePushed(frames: seq<Frame>, f: Frame)
    ensures Messages(frames + [f]) == Messages(frames) + (if f.Message? then [f.m] else [])
    ensures Answers(frames + [f]) == Answers(frames) + (if f.Pong? then [f.drain] else [])
  {
    if frames == [] {
      assert frames + [f] == [f] && [f][1..] == [];
    } else {
      FramePushed(frames[1..], f);
      Reassociate(if frames[0].Message? then [frames[0].m] else [], Messages(frames[1..]), if f.Message? then [f.m] else []);
      Reassociate(if frames[0].Pong? then [frames[0].drain] else [], Answers(frames[1..]), if f.Pong? then [f.drain] else []);
      assert (frames + [f])[1..] == frames[1..] + [f];
    }
  }

  lemma {:induction false} CommandPushed(commands: seq<Command>, c: Command)
    ensures Pings(commands + [c]) == Pings(commands) + (if c.Ping? then [c.drain] else [])
  {
    if commands == [] {
      assert commands + [c] == [c] && [c][1..] == [];
    } else {
      CommandPushed(commands[1..], c);
      Reassociate(if commands[0].Ping? then [commands[0].drain] else [], Pings(commands[1..]), if c.Ping? then [c.drain] else []);
      assert (commands + [c])[1..] == commands[1..] + [c];
    }
  }

  lemma ItemPushed(items: seq<Item<Msg>>, item: Item<Msg>)
    ensures Values(items + [item]) == Values(items) + (if item.Value? then [item.v] else [])
  {
    assert (items + [item])[..|items|] == items;
  }

  lemma {:induction false} NoMoreValues(items: seq<Item<Msg>>, n: nat)
    requires n <= |items| && forall j :: n <= j < |items| ==> !items[j].Value?
    ensures Values(items[..n]) == Values(items)
    decreases |items|
  {
    if n == |items| {
      assert items[..n] == items;
    } else {
      var m := |items| - 1;
      NoMoreValues(items[..m], n);
      assert items[..m][..n] == items[..n];
    }
  }

  lemma RouteInv(s: St, m: Msg)
    requires Inv(s) && s.serverSub
    ensures Inv(Step(s, ServerRoutes(m)))
  {
    hide Messages, Answers, Pings, Values, UnsubFirst, NothingBehind;
    FramePushed(s.toClient, Message(m));
    MessageBehind(s.serverSub, s.toClient, m);
    Reassociate(Received(s), Messages(s.toClient), [m]);
  }

  /** While messages are routed, no answer to the drain is on its way. */
  lemma MessageBehind(serverSub: bool, frames: seq<Frame>, m: Msg)
    requires serverSub && NothingBehind(serverSub, frames)
    ensures NothingBehind(serverSub, frames + [Message(m)])
  {
    hide Messages;
    assert forall i :: 0 <= i < |frames| ==> (frames + [Message(m)])[i] == frames[i];
  }

  /** A frame at the end leaves what is behind the others as quiet as it was. */
  lemma PongBehind(serverSub: bool, frames: seq<Frame>, d: bool)
    requires NothingBehind(serverSub, frames) && (d ==> !serverSub)
    ensures NothingBehind(serverSub, frames + [Pong(d)])
  {
    hide Messages;
    var f := frames + [Pong(d)];
    forall i | 0 <= i < |f| && f[i] == Pong(true)
      ensures !serverSub && Messages(f[i..]) == []
    {
      if i < |frames| {
        FramePushed(frames[i..], Pong(d));
        assert f[i..] == frames[i..] + [Pong(d)];
      } else {
        OnlyPong(d);
        assert f[i..] == [Pong(d)];
      }
    }
  }

  lemma OnlyPong(d: bool)
    ensures Messages([Pong(d)]) == []
  {
    assert [Pong(d)][1..] == [];
  }

  lemma UnsubFirstTail(serverSub: bool, commands: seq<Command>)
    requires commands != [] && UnsubFirst(serverSub, commands)
    ensures commands[0] == Ping(true) ==> !serverSub
    ensures commands[0] != Unsub ==> UnsubFirst(serverSub, commands[1..])
    ensures UnsubFirst(false, commands[1..])
  {
    assert commands[..0] == [];
    if serverSub && commands[0] != Unsub {
      var t := commands[1..];
      forall j | 0 <= j < |t| && t[j] == Ping(true)
        ensures Unsub in t[..j]
      {
        assert commands[j + 1] == Ping(true);
        assert commands[..j + 1] == [commands[0]] + t[..j];
      }
    }
  }

  lemma StillNothing(serverSub: bool, frames: seq<Frame>)
    requires NothingBehind(serverSub, frames)
    ensures NothingBehind(false, frames)
  {
    hide Messages;
  }

  lemma FirstCommand(commands: seq<Command>)
    requires commands != []
    ensures Pings(commands) == (if commands[0].Ping? then [commands[0].drain] else []) + Pings(commands[1..])
  {
  }

  lemma ServerReadInv(s: St)
    requires Inv(s) && s.toServer != []
    ensures Inv(ServerRead(s))
  {
    hide Messages, Answers, Values, UnsubFirst, NothingBehind, Pings;
    UnsubFirstTail(s.serverSub, s.toServer);
    FirstCommand(s.toServer);
    var rest := Pings(s.toServer[1..]);
    match s.toServer[0] {
      case Unsub =>
        StillNothing(s.serverSub, s.toClient);
        assert [] + rest == rest;
      case Ping(d) =>
        Reassociate(Answers(s.toClient), [d], rest);
        FramePushed(s.toClient, Pong(d));
        PongBehind(s.serverSub, s.toClient, d);
    }
  }

  lemma BehindTail(serverSub: bool, frames: seq<Frame>)
    requires frames != [] && NothingBehind(serverSub, frames)
    ensures NothingBehind(serverSub, frames[1..])
    ensures frames[0] == Pong(true) ==> !serverSub && Messages(frames[1..]) == []
  {
    var t := frames[1..];
    forall i | 0 <= i < |t| && t[i] == Pong(true)
      ensures !serverSub && Messages(t[i..]) == []
    {
      assert frames[i + 1] == Pong(true) && frames[i + 1..] == t[i..];
    }
    if frames[0] == Pong(true) {
      assert frames[0..] == frames;
    }
  }

  lemma FirstFrame(frames: seq<Frame>)
    requires frames != []
    ensures match frames[0]
            case Message(m) => Messages(frames) == [m] + Messages(frames[1..]) && Answers(frames) == Answers(frames[1..])
            case Pong(d) => Messages(frames) == Messages(frames[1..]) && Answers(frames) == [d] + Answers(frames[1..])
  {
  }

  lemma MessageReadInv(s: St)
    requires Inv(s) && s.toClient != [] && s.toClient[0].Message?
    ensures Inv(ClientRead(s))
  {
    hide Messages, Answers, Pings, Values, UnsubFirst, NothingBehind;
    FirstFrame(s.toClient);
    BehindTail(s.serverSub, s.toClient);
    var m := s.toClient[0].m;
    var r := ClientRead(s);
    ItemPushed(s.accepted, Value(m));
    Reassociate(Received(s), [m], Messages(r.toClient));
  }

  lemma PongReadInv(s: St)
    requires Inv(s) && s.toClient != [] && s.toClient[0].Pong?
    ensures Inv(ClientRead(s))
  {
    hide Messages, Answers, Pings, Values, UnsubFirst, NothingBehind;
    FirstFrame(s.toClient);
    BehindTail(s.serverSub, s.toClient);
    var d := s.toClient[0].drain;
    var r := ClientRead(s);
    Reassociate([d], Answers(r.toClient), Pings(s.toServer));
    assert s.pongs == [d] + r.pongs;
  }

  lemma UnsubFirstPush(serverSub: bool, commands: seq<Command>, c: Command)
    requires UnsubFirst(serverSub, commands) && (c == Ping(true) ==> Unsub in commands)
    ensures UnsubFirst(serverSub, commands + [c])
  {
    var t := commands + [c];
    if serverSub {
      forall j | 0 <= j < |t| && t[j] == Ping(true)
        ensures Unsub in t[..j]
      {
        if j < |commands| {
          assert t[..j] == commands[..j];
        } else {
          assert t[..j] == commands;
        }
      }
    }
  }

  /** A command that is not the drain's PING goes to the server, and its deferred to `pongs`. */
  lemma PushCommandInv(s: St, c: Command)
    requires Inv(s) && c != Ping(true)
    ensures var t := s.toServer + [c];
            UnsubFirst(s.serverSub, t) && s.pongs + (if c.Ping? then [c.drain] else []) == Answers(s.toClient) + Pings(t)
  {
    hide Messages, Answers, Pings, UnsubFirst, NothingBehind, Values;
    CommandPushed(s.toServer, c);
    UnsubFirstPush(s.serverSub, s.toServer, c);
    Reassociate(Answers(s.toClient), Pings(s.toServer), if c.Ping? then [c.drain] else []);
  }

  lemma DrainInv(s: St)
    requires Inv(s)
    ensures Inv(Drain(s))
  {
    hide Messages, Answers, Pings, Values, UnsubFirst, NothingBehind;
    if !s.done && !s.drained {
      var t := s.toServer + [Unsub];
      CommandPushed(s.toServer, Unsub);
      CommandPushed(t, Ping(true));
      UnsubFirstPush(s.serverSub, s.toServer, Unsub);
      assert t[|s.toServer|] == Unsub;
      UnsubFirstPush(s.serverSub, t, Ping(true));
      assert t + [Ping(true)] == s.toServer + [Unsub, Ping(true)];
      Reassociate(Answers(s.toClient), Pings(s.toServer), [true]);
    }
  }

  lemma FlushInv(s: St)
    requires Inv(s)
    ensures Inv(Step(s, OtherFlush))
  {
    hide Messages, Answers, Pings, Values, UnsubFirst, NothingBehind;
    PushCommandInv(s, Ping(false));
  }

  lemma AfterCloseInv(s: St)
    requires Inv(s) && Enabled(s, AfterClose)
    ensures Inv(Step(s, AfterClose))
  {
    hide Messages, Answers, Pings, Values, UnsubFirst, NothingBehind;
    PushCommandInv(s, Unsub);
  }

  lemma CancelInv(s: St)
    requires Inv(s) && s.cancels > 0
    ensures Inv(Step(s, MicrotaskRuns))
  {
    hide Messages, Answers, Pings, Values, UnsubFirst, NothingBehind;
    ItemPushed(s.accepted, CLOSE);
  }

  lemma IteratorInv(s: St, n: nat)
    requires Inv(s) && Enabled(s, IteratorRuns(n))
    ensures Inv(IteratorTo(s, n))
  {
    hide Messages, Answers, Pings, Values, UnsubFirst, NothingBehind;
  }

  lemma {:induction false} StepInv(s: St, e: Event)
    requires Inv(s) && Enabled(s, e)
    ensures Inv(Step(s, e))
  {
    hide Inv, ServerRead, ClientRead, Drain, Cancel, IteratorTo;
    match e {
      case ServerRoutes(m) => RouteInv(s, m);
      case ServerReads => ServerReadInv(s);
      case ClientReads =>
        if s.toClient[0].Message? {
          MessageReadInv(s);
        } else {
          PongReadInv(s);
        }
      case CallDrain => DrainInv(s);
      case OtherFlush => FlushInv(s);
      case MicrotaskRuns => CancelInv(s);
      case IteratorRuns(n) => IteratorInv(s, n);
      case AfterClose => AfterCloseInv(s);
    }
  }

  lemma {:induction false} RunInv(s: St, events: seq<Event>, s1: St)
    requires Inv(s) && Run(s, events, s1)
    ensures Inv(s1)
    decreases |events|
  {
    hide Inv, Step;
    if events != [] {
      StepInv(s, events[0]);
      RunInv(Step(s, events[0]), events[1..], s1);
    }
  }

  lemma {:induction false} ValuesPrefix(items: seq<Item<Msg>>, n: nat)
    requires n <= |items|
    ensures Values(items[..n]) <= Values(items)
    decreases |items|
  {
    if n == |items| {
      assert items[..n] == items;
    } else {
      var m := |items| - 1;
      ValuesPrefix(items[..m], n);
      assert items[..m][..n] == items[..n];
    }
  }

  lemma InitialInv(callback: bool)
    ensures Inv(Initial(callback))
  {
  }

  /**
   * Over every run, the user gets the routed messages in order, and once the subscription is closed
   * the user has got every message the server routed to it, and the server routes no more.
   */
  lemma DrainConserves(callback: bool, events: seq<Event>, s: St)
    requires Run(Initial(callback), events, s)
    ensures Delivered(s) <= s.routed
    ensures Closed(s) ==> Delivered(s) == s.routed && !s.serverSub
  {
    hide Run, Step, Messages, Answers, Pings, UnsubFirst, NothingBehind;
    InitialInv(callback);
    RunInv(Initial(callback), events, s);
    ValuesPrefix(s.accepted, s.handled);
    if Closed(s) && !s.callback {
      var i :| 0 <= i < s.handled && s.accepted[..s.handled][i] == CLOSE;
      assert s.accepted[i] == CLOSE && !s.subscribed;
      NoMoreValues(s.accepted, s.handled);
    }
  }

  // ----- a drain comes to its end

  /** The close of the subscription has been called for. */
  predicate Cancelled(s: St) {
    if s.callback then s.done else CLOSE in s.accepted
  }

  /** A drain that was called is on its way to the server, on its way back, or has cancelled. */
  predicate Progress(s: St) {
    && (s.done && !s.callback ==> CLOSE in s.accepted)
    && (s.drained ==> Ping(true) in s.toServer || Pong(true) in s.toClient || s.cancels > 0 || Cancelled(s))
  }

  lemma ServerReadProgress(s: St)
    requires Progress(s) && s.toServer != []
    ensures Progress(ServerRead(s))
  {
    var r := ServerRead(s);
    assert s.toServer == [s.toServer[0]] + s.toServer[1..];
    if s.toServer[0] == Ping(true) {
      assert r.toClient[|s.toClient|] == Pong(true);
    }
    assert forall f :: f in s.toClient ==> f in r.toClient;
  }

  lemma ClientReadProgress(s: St)
    requires Inv(s) && Progress(s) && s.toClient != []
    ensures Progress(ClientRead(s))
  {
    hide Messages, Values, Pings, UnsubFirst, NothingBehind, ClosesLast;
    FirstFrame(s.toClient);
    var r := ClientRead(s);
    assert s.toClient == [s.toClient[0]] + s.toClient[1..];
    if s.toClient[0].Pong? {
      assert s.pongs[0] == s.toClient[0].drain;
    }
    assert forall x :: x in s.accepted ==> x in r.accepted;
  }

  lemma StepProgress(s: St, e: Event)
    requires Inv(s) && Progress(s) && Enabled(s, e)
    ensures Progress(Step(s, e))
  {
    hide Inv, ServerRead, ClientRead;
    var r := Step(s, e);
    match e {
      case ServerReads => ServerReadProgress(s);
      case ClientReads => ClientReadProgress(s);
      case CallDrain =>
        if !s.done && !s.drained {
          assert r.toServer[|s.toServer| + 1] == Ping(true);
        }
      case MicrotaskRuns =>
        if !s.done && !s.callback {
          assert r.accepted[|s.accepted|] == CLOSE;
        }
      case IteratorRuns(n) =>
        assert CLOSE in s.accepted[..n] ==> CLOSE in s.accepted;
      case ServerRoutes(m) => assert forall f :: f in s.toClient ==> f in r.toClient;
      case OtherFlush => assert forall c :: c in s.toServer ==> c in r.toServer;
      case AfterClose => assert forall c :: c in s.toServer ==> c in r.toServer;
    }
  }

  lemma {:induction false} RunProgress(s: St, events: seq<Event>, s1: St)
    requires Inv(s) && Progress(s) && Run(s, events, s1)
    ensures Progress(s1)
    decreases |events|
  {
    hide Inv, Progress, Step;
    if events != [] {
      StepInv(s, events[0]);
      StepProgress(s, events[0]);
      RunProgress(Step(s, events[0]), events[1..], s1);
    }
  }

  /**
   * A drain does not stall: when both sides have read everything, the microtasks have run and the
   * iterator has handled its queue, a drained subscription is closed and has handed everything on.
   */
  lemma DrainCompletes(callback: bool, events: seq<Event>, s: St)
    requires Run(Initial(callback), events, s)
    requires s.drained && s.toServer == [] && s.toClient == [] && s.cancels == 0
    requires s.callback || s.handled == |s.accepted|
    ensures Closed(s) && Delivered(s) == s.routed
  {
    hide Run, Step, Messages, Answers, Pings, UnsubFirst, NothingBehind;
    InitialInv(callback);
    RunProgress(Initial(callback), events, s);
    assert s.accepted[..|s.accepted|] == s.accepted;
    DrainConserves(callback, events, s);
  }

  lemma {:induction false} StaysDrained(s: St, events: seq<Event>, s1: St)
    requires s.drained && Run(s, events, s1)
    ensures s1.drained
    decreases |events|
  {
    if events != [] {
      StaysDrained(Step(s, events[0]), events[1..], s1);
    }
  }

  lemma {:induction false} RunConcat(s: St, a: seq<Event>, s1: St, b: seq<Event>, s2: St)
    requires Run(s, a, s1) && Run(s1, b, s2)
    ensures Run(s, a + b, s2)
    decreases |a|
  {
    if a == [] {
      assert a + b == b;
    } else {
      hide Step, Enabled;
      RunConcat(Step(s, a[0]), a[1..], s1, b, s2);
      assert (a + b)[1..] == a[1..] + b;
    }
  }

  /**
   * A drain called on an open subscription closes it: at any later time when both sides have read
   * everything, the microtasks have run and the iterator has handled its queue, the subscription
   * is closed and the user has every message the server routed to it.
   */
  lemma {:induction false} DrainCloses(callback: bool, before: seq<Event>, s0: St, after: seq<Event>, s: St)
    requires Run(Initial(callback), before, s0) && !s0.done
    requires Run(Step(s0, CallDrain), after, s)
    requires s.toServer == [] && s.toClient == [] && s.cancels == 0 && (s.callback || s.handled == |s.accepted|)
    ensures Closed(s) && Delivered(s) == s.routed && !s.serverSub
  {
    StaysDrained(Step(s0, CallDrain), after, s);
    assert Run(s0, [CallDrain] + after, s) by {
      assert ([CallDrain] + after)[1..] == after;
    }
    hide Run;
    RunConcat(Initial(callback), before, s0, [CallDrain] + after, s);
    DrainCompletes(callback, before + ([CallDrain] + after), s);
    RunInv(Initial(callback), before + ([CallDrain] + after), s) by {
      InitialInv(callback);
    }
  }

  lemma RunCons(s: St, e: Event, events: seq<Event>, s1: St)
    requires Enabled(s, e) && Run(Step(s, e), events, s1)
    ensures Run(s, [e] + events, s1)
  {
    assert ([e] + events)[1..] == events;
  }

  /** What is still to be read, and the drains whose `then` has not run. */
  function Work(s: St): nat {
    3 * |s.toServer| + 2 * |s.toClient| + s.cancels
  }

  predicate Busy(s: St) {
    s.toServer != [] || s.toClient != [] || s.cancels > 0
  }

  function Next(s: St): Event {
    if s.toServer != [] then ServerReads else if s.toClient != [] then ClientReads else MicrotaskRuns
  }

  lemma WorksOn(s: St)
    requires Busy(s)
    ensures Enabled(s, Next(s)) && Work(Step(s, Next(s))) < Work(s)
  {
    if s.toServer != [] {
      hide ClientRead, Cancel;
    } else if s.toClient != [] {
      hide Cancel;
      ClientWorks(s);
      hide ClientRead;
    }
  }

  lemma ClientWorks(s: St)
    requires s.toClient != []
    ensures var r := ClientRead(s);
            r.toServer == s.toServer && |r.toClient| == |s.toClient| - 1 && r.cancels <= s.cancels + 1
  {
  }

  lemma IteratorWorks(s: St) returns (after: seq<Event>, s1: St)
    requires !Busy(s)
    ensures Run(s, after, s1) && !Busy(s1) && (s1.callback || s1.handled >= |s1.accepted|)
  {
    after, s1 := [], s;
    if !s.callback && s.handled < |s.accepted| {
      var e := IteratorRuns(|s.accepted|);
      s1 := Step(s, e);
      RunCons(s, e, [], s1);
      after := [e] + [];
    }
  }

  /** The two sides read what is there, the microtasks run, and then the iterator works off its queue. */
  lemma {:induction false} WorksOff(s: St) returns (after: seq<Event>, s1: St)
    ensures Run(s, after, s1) && !Busy(s1) && (s1.callback || s1.handled >= |s1.accepted|)
    decreases Work(s)
  {
    hide Run, Step, Enabled, Busy, Next, Work;
    if Busy(s) {
      WorksOn(s);
      after, s1 := WorksOff(Step(s, Next(s)));
      RunCons(s, Next(s), after, s1);
      after := [Next(s)] + after;
    } else {
      after, s1 := IteratorWorks(s);
    }
  }

  /**
   * A drain can always be completed: from any state after it there is a run to the end, and it closes
   * the subscription.
   */
  lemma {:induction false} DrainFinishes(callback: bool, before: seq<Event>, s0: St, between: seq<Event>, s: St)
    returns (after: seq<Event>, s1: St)
    requires Run(Initial(callback), before, s0) && !s0.done && Run(Step(s0, CallDrain), between, s)
    ensures Run(s, after, s1) && Closed(s1) && Delivered(s1) == s1.routed
  {
    after, s1 := WorksOff(s);
    hide Run;
    RunConcat(Step(s0, CallDrain), between, s, after, s1);
    DrainReaches(callback, before, s0, between + after, s1);
    DrainCloses(callback, before, s0, between + after, s1);
  }

  /** The iterator never handles more than it was given. */
  lemma DrainReaches(callback: bool, before: seq<Event>, s0: St, after: seq<Event>, s: St)
    requires Run(Initial(callback), before, s0) && Run(Step(s0, CallDrain), after, s)
    ensures s.handled <= |s.accepted|
  {
    hide Run;
    InitialInv(callback);
    RunInv(Initial(callback), before, s0);
    StepInv(s0, CallDrain);
    RunInv(Step(s0, CallDrain), after, s);
  }

  // ----- the methods

  class SubscriptionImpl {
    const it: QueuedIterator<Msg>   // the iterator it extends
    const noIterator: bool
    var subscribed: bool            // whether Subscriptions has it
    var drained: bool
    var cancels: nat
    var pongs: seq<bool>
    var called: seq<Msg>            // the calls of the user's callback

    ghost var rest: St              // the server and what is on its way

    ghost predicate Valid()
      reads this, it, it.queue, it.batch, it.signal
    {
      it.Valid() && (!noIterator ==> StoppedInside(it.View()))
    }

    ghost function View(): St
      reads this, it
    {
      rest.(callback := noIterator, subscribed := subscribed, drained := drained, cancels := cancels,
            pongs := pongs, called := called, accepted := it.accepted, handled := |it.handled|, done := it.done)
    }

    constructor (noIterator: bool)
      ensures Valid() && View() == Initial(noIterator)
    {
      it := new QueuedIterator<Msg>();
      this.noIterator := noIterator;
      subscribed, drained, cancels, pongs, called := true, false, 0, [], [];
      rest := Initial(noIterator);
    }

    method OnMsg(m: Msg)
      requires Valid()
      modifies this`called, it`accepted, it.queue, it.signal
      ensures Valid() && View() == ProcessMsg(old(View()), m)
    {
      if !subscribed {
        return;
      }
      if noIterator {
        called := called + [m];
      } else {
        it.Push(Value(m));
      }
    }

    method OnPong()
      requires Valid()
      modifies this`pongs, this`cancels
      ensures Valid() && View() == ProcessPong(old(View()))
    {
      if pongs == [] {
        return;
      }
      if pongs[0] {
        cancels := cancels + 1;
      }
      pongs := pongs[1..];
    }

    /** Returns the commands it gave to the connection. */
    method CallDrain() returns (sent: seq<Command>)
      requires Valid()
      modifies this
      ensures Valid() && View() == Drain(old(View()))
      ensures View().toServer == old(View()).toServer + sent
    {
      sent := [];
      if it.done || drained {
        return;
      }
      sent := [Unsub, Ping(true)];
      pongs := pongs + [true];
      drained := true;
      rest := rest.(toServer := rest.toServer + sent);
    }

    method Close()
      requires Valid()
      modifies it`accepted, it`done, it`err, it.queue, it.signal
      ensures Valid()
      ensures View().(subscribed := false) == Cancel(old(View()))
    {
      if it.done {
        return;
      }
      if noIterator {
        it.Stop(false);
      } else {
        it.Push(CLOSE);
      }
    }

    /** The `then` of a drain's flush: `subscriptions.cancel`. */
    method CancelSubscription()
      requires Valid() && cancels > 0
      modifies this, it`accepted, it`done, it`err, it.queue, it.signal
      ensures Valid() && View() == Cancel(old(View()).(cancels := old(cancels) - 1))
    {
      cancels := cancels - 1;
      Close();
      subscribed := false;
    }

    /** The iterator runs to its next value, which is yielded, or to its end. */
    method Next() returns (r: Option<Msg>)
      requires Valid() && !noIterator && CloseOnly(it.accepted)
      requires CanResume(it.View())
      modifies it, it.queue, it.batch, it.signal
      ensures old(it.handled) <= it.handled <= it.accepted == old(it.accepted)
      ensures Valid() && View() == IteratorTo(old(View()), |it.handled|)
      ensures Delivered(View()) == old(Delivered(View())) + if r.Some? then [r.value] else []
    {
      ghost var before := it.handled;
      ResumeRan(it.View());
      ResumeInside(it.View());
      r := it.Resume();
      assert it.accepted[..|before|] == before;
      EndedAtClose(it.accepted, it.handled);
      assert it.accepted[..|it.handled|] == it.handled;
    }
  }

  /** The only function pushed to the iterator is the close function. */
  predicate CloseOnly(items: seq<Item<Msg>>) {
    forall i :: 0 <= i < |items| ==> items[i].Value? || items[i] == CLOSE
  }

  lemma EndedAtClose(accepted: seq<Item<Msg>>, handled: seq<Item<Msg>>)
    requires CloseOnly(accepted) && handled <= accepted
    ensures Ended(handled) <==> CLOSE in handled
  {
    if Ended(handled) {
      var k :| 0 <= k < |handled| && Ends(handled[k]);
      assert accepted[k] == handled[k];
    }
    if CLOSE in handled {
      var k :| 0 <= k < |handled| && handled[k] == CLOSE;
      assert Ends(handled[k]);
    }
  }
}
