/**
 * Outbound buffering and PING/PONG matching of a connection (ProtocolHandler in
 * core/src/protocol.ts), with a server that reads what it is sent in order and answers
 * every PING it reads with one PONG.
 */
module Outbound {
  import opened Bytes

  /** Whom a PONG settles: the handshake of a dial, or one call of `flush`. */
  datatype Deferred = Handshake | Flush(id: nat)

  /** `Direct` goes straight to the transport: CONNECT, the SUBs after a dial; so does `Pong`. */
  datatype Command = Ping(owner: Deferred) | Cmd(text: bytes) | Direct(text: bytes) | Pong

  datatype St = St(
    outbound: seq<Command>,
    connected: bool,
    info: bool,                        // infoReceived
    asking: bool,                      // an authenticator has not answered yet
    greeted: bool,                     // CONNECT and its PING were sent
    dialing: bool,
    shaken: bool,                      // the dial's own PONG came
    flushes: nat,                      // flushPending microtasks that have not run
    pongs: seq<Deferred>,
    wire: seq<Command>,                // what this connection's transport was given
    read: nat,                         // how much of it the server has read
    replies: nat,                      // PONGs on their way back
    answered: nat,                     // PONGs processed
    queued: seq<Command>,              // everything put in `outbound` since the last reset
    before: map<nat, seq<Command>>,    // per flush, what was queued before it
    done: map<nat, seq<Command>>,      // per resolved flush, what the server had read by then
    rejected: set<nat>)

  datatype Event =
    | Dial
    | DialFails
    | InfoArrives(greeting: Option<bytes>)  // None if the authenticator is asynchronous
    | AuthResolves(connect: bytes)
    | PongArrives
    | PingArrives
    | Connects(subs: seq<bytes>)
    | Disconnects
    | SendCommand(text: bytes)
    | CallFlush(id: nat)
    | MicrotaskRuns
    | ServerReads

  function PingText(): bytes {
    [80, 73, 78, 71, 13, 10]
  }

  function PongText(): bytes {
    [80, 79, 78, 71, 13, 10]
  }

  /** The bytes of a list of commands. */
  function Text(commands: seq<Command>): bytes {
    if commands == [] then []
    else
      Text(commands[..|commands| - 1]) + TextOf(commands[|commands| - 1])
  }

  function TextOf(c: Command): bytes {
    match c
    case Ping(_) => PingText()
    case Cmd(text) => text
    case Direct(text) => text
    case Pong => PongText()
  }

  predicate ViaBuffer(c: Command) {
    c.Cmd? || (c.Ping? && c.owner.Flush?)
  }

  /** The commands that came through `outbound`. */
  function Flushed(commands: seq<Command>): seq<Command> {
    if commands == [] then []
    else
      var c := commands[|commands| - 1];
      Flushed(commands[..|commands| - 1]) + (if ViaBuffer(c) then [c] else [])
  }

  /** The owners of the PINGs. */
  function Owners(commands: seq<Command>): seq<Deferred> {
    if commands == [] then []
    else
      var c := commands[|commands| - 1];
      Owners(commands[..|commands| - 1]) + (if c.Ping? then [c.owner] else [])
  }

  // ----- the steps

  function FlushPending(s: St): St {
    if !s.info || !s.connected || Text(s.outbound) == [] then s
    else s.(wire := s.wire + s.outbound, outbound := [])
  }

  function OnSend(s: St, text: bytes, pendingLimit: nat): St {
    var s1 := s.(outbound := s.outbound + [Cmd(text)], queued := s.queued + [Cmd(text)]);
    if s.outbound == [] then s1.(flushes := s.flushes + 1)
    else if |Text(s1.outbound)| >= pendingLimit then FlushPending(s1)
    else s1
  }

  function OnFlush(s: St, id: nat): St {
    var ping := Ping(Flush(id));
    FlushPending(s.(
      pongs := s.pongs + [Flush(id)], outbound := s.outbound + [ping],
      queued := s.queued + [ping], before := s.before[id := s.queued]))
  }

  function Ids(pongs: seq<Deferred>): set<nat> {
    set p | p in pongs && p.Flush? :: p.id
  }

  /** `resetOutbound`, and the dial's own deferred put at the front of `pongs`. */
  function OnDial(s: St): St {
    s.(outbound := [], connected := false, info := false, asking := false, greeted := false, dialing := true, shaken := false,
       pongs := [Handshake], wire := [], read := 0, replies := 0, answered := 0,
       queued := [], rejected := s.rejected + Ids(s.pongs))
  }

  /** `sendConnect` */
  function Greet(s: St, connect: bytes): St {
    s.(asking := false, greeted := true, wire := s.wire + [Direct(connect), Ping(Handshake)])
  }

  function OnInfo(s: St, connect: Option<bytes>): St {
    if s.info then s
    else
      match connect
      case Some(c) => Greet(s.(info := true), c)
      case None => s.(info := true, asking := true)
  }

  /** The commands from `outbound` that the server has read on this connection. */
  function ReadByServer(wire: seq<Command>, read: nat): seq<Command> {
    if read <= |wire| then Flushed(wire[..read]) else []
  }

  /** The deferred at the head of `pongs` is resolved, if there is one. */
  function OnPong(s: St): St {
    var cb := if s.pongs == [] then None else Some(s.pongs[0]);
    s.(answered := s.answered + 1,
       pongs := if s.pongs == [] then s.pongs else s.pongs[1..],
       shaken := s.shaken || cb == Some(Handshake),
       done := if cb.Some? && cb.value.Flush? then s.done[cb.value.id := ReadByServer(s.wire, s.read)] else s.done)
  }

  function OnConnect(s: St, subs: seq<bytes>): St {
    var s1 := s.(connected := true, dialing := false);
    FlushPending(if subs == [] then s1 else s1.(wire := s1.wire + [Direct(Flatten(subs))]))
  }

  function OnRead(s: St): St
    requires s.read < |s.wire|
  {
    s.(read := s.read + 1, replies := if s.wire[s.read].Ping? then s.replies + 1 else s.replies)
  }

  /** Commands are never empty; the ids of flushes are fresh; every PONG answers a PING. */
  predicate Enabled(s: St, e: Event) {
    match e
    case Dial => !s.connected && !s.dialing
    case DialFails => s.dialing
    case InfoArrives(_) => true
    case AuthResolves(_) => s.asking
    case PongArrives => s.replies > 0
    case PingArrives => true
    case Connects(_) => s.dialing && s.shaken
    case Disconnects => s.connected
    case SendCommand(text) => text != []
    case CallFlush(id) => id !in s.before
    case MicrotaskRuns => s.flushes > 0
    case ServerReads => s.read < |s.wire|
  }

  function Step(s: St, e: Event, pendingLimit: nat): St
    requires Enabled(s, e)
  {
    match e
    case Dial => OnDial(s)
    case DialFails => s.(dialing := false, asking := false)
    case InfoArrives(connect) => OnInfo(s, connect)
    case AuthResolves(connect) => Greet(s, connect)
    case PongArrives => OnPong(s.(replies := s.replies - 1))
    case PingArrives => s.(wire := s.wire + [Pong])
    case Connects(subs) => OnConnect(s, subs)
    case Disconnects => s.(connected := false)
    case SendCommand(text) => OnSend(s, text, pendingLimit)
    case CallFlush(id) => OnFlush(s, id)
    case MicrotaskRuns => FlushPending(s.(flushes := s.flushes - 1))
    case ServerReads => OnRead(s)
  }

  predicate Run(s: St, events: seq<Event>, pendingLimit: nat, s1: St)
    decreases |events|
  {
    if events == [] then s1 == s
    else Enabled(s, events[0]) && Run(Step(s, events[0], pendingLimit), events[1..], pendingLimit, s1)
  }

  const NEVER_DIALED := St([], false, false, false, false, false, false, 0, [], [], 0, 0, 0, [], map[], map[], {})

  /** The first dial. */
  function Initial(): St {
    OnDial(NEVER_DIALED)
  }

  // ----- lists of commands

  lemma {:induction false} Appended(a: seq<Command>, b: seq<Command>)
    ensures Text(a + b) == Text(a) + Text(b)
    ensures Flushed(a + b) == Flushed(a) + Flushed(b)
    ensures Owners(a + b) == Owners(a) + Owners(b)
  {
    if b == [] {
      assert a + b == a;
    } else {
      var n := |b| - 1;
      Appended(a, b[..n]);
      assert (a + b)[..|a| + n] == a + b[..n] && (a + b)[|a| + n] == b[n];
      Reassociate(Text(a), Text(b[..n]), TextOf(b[n]));
      Reassociate(Flushed(a), Flushed(b[..n]), if ViaBuffer(b[n]) then [b[n]] else []);
      Reassociate(Owners(a), Owners(b[..n]), if b[n].Ping? then [b[n].owner] else []);
    }
  }

  /** A single command. */
  lemma One(c: Command)
    ensures Flushed([c]) == if ViaBuffer(c) then [c] else []
    ensures Owners([c]) == if c.Ping? then [c.owner] else []
  {
    assert [c][..0] == [];
  }

  predicate AllQueued(commands: seq<Command>) {
    forall i :: 0 <= i < |commands| ==> ViaBuffer(commands[i]) && (commands[i].Cmd? ==> commands[i].text != [])
  }

  /** What one more command adds. */
  lemma Grows(commands: seq<Command>, c: Command)
    ensures Flushed(commands + [c]) == Flushed(commands) + (if ViaBuffer(c) then [c] else [])
    ensures Text(commands + [c]) == Text(commands) + TextOf(c)
  {
    assert (commands + [c])[..|commands|] == commands;
  }

  lemma AllQueuedPush(commands: seq<Command>, c: Command)
    ensures AllQueued(commands + [c]) <==> AllQueued(commands) && ViaBuffer(c) && (c.Cmd? ==> c.text != [])
  {
    if AllQueued(commands + [c]) {
      assert (commands + [c])[|commands|] == c;
      assert forall i :: 0 <= i < |commands| ==> commands[i] == (commands + [c])[i];
    }
  }

  lemma {:induction false} FlushedAll(commands: seq<Command>)
    requires AllQueued(commands)
    ensures Flushed(commands) == commands
    ensures Text(commands) == [] <==> commands == []
  {
    if commands != [] {
      hide Flushed, Text, AllQueued;
      var a, c := commands[..|commands| - 1], commands[|commands| - 1];
      assert commands == a + [c];
      AllQueuedPush(a, c);
      FlushedAll(a);
      Grows(a, c);
    }
  }

  /** The PINGs of a prefix are the first PINGs. */
  lemma {:induction false} OwnersPrefix(commands: seq<Command>, k: nat)
    requires k <= |commands|
    ensures Owners(commands[..k]) <= Owners(commands) && Flushed(commands[..k]) <= Flushed(commands)
  {
    Appended(commands[..k], commands[k..]);
    assert commands[..k] + commands[k..] == commands;
  }

  /** The PING of a flush is among the commands that came through `outbound`. */
  lemma {:induction false} FlushedPing(commands: seq<Command>, k: nat) returns (q: nat)
    requires k < |Owners(commands)| && Owners(commands)[k].Flush?
    ensures q < |Flushed(commands)| && Flushed(commands)[q] == Ping(Owners(commands)[k])
  {
    var n := |commands| - 1;
    if k < |Owners(commands[..n])| {
      q := FlushedPing(commands[..n], k);
    } else {
      q := |Flushed(commands)| - 1;
    }
  }

  // ----- the invariants

  /** The deferreds in `pongs` are the owners of the PINGs not answered yet, in order. */
  predicate Matched(s: St) {
    var sent := Owners(s.wire);
    if s.greeted then
      s.answered <= |sent| && s.pongs == sent[s.answered..] + Owners(s.outbound)
    else
      s.answered == 0 && sent == [] && s.pongs == [Handshake] + Owners(s.outbound)
  }

  /** What was flushed, followed by what waits, is what was queued. */
  predicate Conserved(s: St) {
    AllQueued(s.outbound) && Flushed(s.wire) + s.outbound == s.queued
  }

  predicate ServerInOrder(s: St) {
    s.read <= |s.wire| && |Owners(s.wire[..s.read])| == s.answered + s.replies
  }

  predicate Phases(s: St) {
    && (s.asking ==> s.info && !s.greeted)
    && (s.greeted ==> s.info)
    && (s.shaken ==> s.greeted)
    && (s.connected ==> s.shaken)
  }

  predicate Live(s: St) {
    && Phases(s)
    && (s.connected && s.outbound != [] ==> s.flushes > 0)
  }

  /** `before` records what the queue held in front of the PING of each flush. */
  predicate Recorded(s: St) {
    forall q :: 0 <= q < |s.queued| && s.queued[q].Ping? && s.queued[q].owner.Flush? ==>
      s.queued[q].owner.id in s.before && s.before[s.queued[q].owner.id] == s.queued[..q]
  }

  ghost predicate Fulfilled(s: St) {
    forall id :: id in s.done ==> id in s.before && s.before[id] <= s.done[id]
  }

  /** Every flush called is waiting, resolved or rejected, and only one of them. */
  ghost predicate Settled(s: St) {
    && (forall i, j :: 0 <= i < j < |s.pongs| ==> s.pongs[i] != s.pongs[j])
    && Ids(s.pongs) + s.done.Keys + s.rejected == s.before.Keys
    && Ids(s.pongs) !! s.done.Keys !! s.rejected
  }

  ghost predicate Inv(s: St) {
    Matched(s) && Conserved(s) && ServerInOrder(s) && Live(s) && Recorded(s) && Fulfilled(s) && Settled(s)
  }

  lemma NoOwners()
    ensures Owners([]) == []
  {
  }

  lemma FlushPendingInv(s: St)
    requires Matched(s) && Conserved(s) && ServerInOrder(s) && Phases(s)
    ensures var r := FlushPending(s);
            Matched(r) && Conserved(r) && ServerInOrder(r) && Live(r)
    ensures s.connected ==> FlushPending(s).outbound == []
  {
    hide Text, Owners, Flushed;
    FlushedAll(s.outbound);
    if s.info && s.connected && s.outbound != [] {
      Appended(s.wire, s.outbound);
      assert (s.wire + s.outbound)[..s.read] == s.wire[..s.read];
      NoOwners();
    }
  }

  // ----- every step keeps the invariant

  /** What the bookkeeping half of the invariant reads. */
  predicate SameBooks(s: St, r: St) {
    r.queued == s.queued && r.before == s.before && r.done == s.done && r.pongs == s.pongs && r.rejected == s.rejected
  }

  lemma BooksKept(s: St, r: St)
    requires SameBooks(s, r) && Recorded(s) && Fulfilled(s) && Settled(s)
    ensures Recorded(r) && Fulfilled(r) && Settled(r)
  {
  }

  /** One more command is queued; what was recorded stays, and a flush is recorded. */
  lemma RecordedPush(s: St, r: St, c: Command)
    requires Recorded(s) && Fulfilled(s) && r.queued == s.queued + [c] && r.done == s.done
    requires if c.Ping? && c.owner.Flush? then c.owner.id !in s.before && r.before == s.before[c.owner.id := s.queued]
             else r.before == s.before
    ensures Recorded(r) && Fulfilled(r)
    ensures Settled(s) && r.before == s.before && r.pongs == s.pongs && r.rejected == s.rejected ==> Settled(r)
  {
    forall q | 0 <= q < |r.queued| && r.queued[q].Ping? && r.queued[q].owner.Flush?
      ensures r.queued[q].owner.id in r.before && r.before[r.queued[q].owner.id] == r.queued[..q]
    {
      if q < |s.queued| {
        assert s.queued[q] == r.queued[q] && s.queued[..q] == r.queued[..q];
      } else {
        assert r.queued[..q] == s.queued;
      }
    }
  }

  lemma {:induction false} SendInv(s: St, text: bytes, pendingLimit: nat)
    requires Inv(s) && text != []
    ensures Inv(OnSend(s, text, pendingLimit))
  {
    hide Text, Owners, Flushed, FlushPending, Recorded, Fulfilled, Settled;
    One(Cmd(text));
    Appended(s.outbound, [Cmd(text)]);
    assert Flushed(s.wire) + s.outbound + [Cmd(text)] == Flushed(s.wire) + (s.outbound + [Cmd(text)]);
    var s1 := s.(outbound := s.outbound + [Cmd(text)], queued := s.queued + [Cmd(text)]);
    RecordedPush(s, s1, Cmd(text));
    if s.outbound == [] {
      BooksKept(s1, OnSend(s, text, pendingLimit));
    } else {
      FlushPendingInv(s1);
      FlushKeepsBooks(s1);
      BooksKept(s1, FlushPending(s1));
    }
  }

  lemma FlushKeepsBooks(s: St)
    ensures SameBooks(s, FlushPending(s))
  {
    hide Text;
  }

  lemma PushSettled(s: St, r: St, id: nat)
    requires Settled(s) && id !in s.before
    requires r.pongs == s.pongs + [Flush(id)] && r.before.Keys == s.before.Keys + {id}
    requires r.done == s.done && r.rejected == s.rejected
    ensures Settled(r)
  {
    assert Ids(r.pongs) == Ids(s.pongs) + {id} by {
      forall i | i in Ids(s.pongs) + {id} ensures i in Ids(r.pongs) {
        assert Flush(i) in s.pongs || Flush(i) == r.pongs[|s.pongs|];
      }
    }
    assert Flush(id) in s.pongs ==> id in Ids(s.pongs);
  }

  lemma {:induction false} FlushInv(s: St, id: nat)
    requires Inv(s) && id !in s.before
    ensures Inv(OnFlush(s, id))
  {
    hide Text, Owners, Flushed, FlushPending, Recorded, Fulfilled, Settled;
    var ping := Ping(Flush(id));
    One(ping);
    Appended(s.outbound, [ping]);
    assert Flushed(s.wire) + s.outbound + [ping] == Flushed(s.wire) + (s.outbound + [ping]);
    var s1 := s.(
      pongs := s.pongs + [Flush(id)], outbound := s.outbound + [ping],
      queued := s.queued + [ping], before := s.before[id := s.queued]);
    FlushPendingInv(s1);
    FlushKeepsBooks(s1);
    PushSettled(s, s1, id);
    RecordedPush(s, s1, ping);
    BooksKept(s1, FlushPending(s1));
  }

  lemma DialInv(s: St)
    requires Inv(s) || s == NEVER_DIALED
    ensures Inv(OnDial(s))
  {
    DialSettled(s);
    hide Settled;
  }

  lemma DialSettled(s: St)
    requires Settled(s) || s == NEVER_DIALED
    ensures Settled(OnDial(s))
  {
  }

  lemma PopSettled(s: St, r: St)
    requires Settled(s) && s.pongs != [] && r.pongs == s.pongs[1..]
    requires r.before == s.before && r.rejected == s.rejected
    requires r.done.Keys == s.done.Keys + (if s.pongs[0].Flush? then {s.pongs[0].id} else {})
    ensures Settled(r)
  {
    var p := s.pongs[0];
    assert s.pongs == [p] + r.pongs;
    assert p !in r.pongs;
    assert Ids(s.pongs) == Ids(r.pongs) + (if p.Flush? then {p.id} else {}) by {
      forall i | i in Ids(r.pongs) ensures i in Ids(s.pongs) {
        assert Flush(i) in s.pongs;
      }
      if p.Flush? {
        assert s.pongs[0] in s.pongs;
      }
    }
  }

  /** A PONG answers the PING at the head of the deferreds, and the server has read that PING. */
  lemma PongMatches(s: St)
    requires Matched(s) && ServerInOrder(s) && s.replies > 0
    ensures s.greeted && s.pongs != []
    ensures s.answered < |Owners(s.wire[..s.read])| && s.pongs[0] == Owners(s.wire[..s.read])[s.answered]
    ensures s.answered < |Owners(s.wire)| && s.pongs[1..] == Owners(s.wire)[s.answered + 1..] + Owners(s.outbound)
  {
    hide Owners, Flushed;
    OwnersPrefix(s.wire, s.read);
  }

  /** The server has read everything queued before a flush whose PONG comes. */
  lemma PongMeansRead(s: St)
    requires Inv(s) && s.replies > 0 && s.pongs != [] && s.pongs[0].Flush?
    ensures s.pongs[0].id in s.before && s.before[s.pongs[0].id] <= Flushed(s.wire[..s.read])
  {
    hide Owners, Flushed, Settled, Live, Fulfilled;
    PongMatches(s);
    OwnersPrefix(s.wire, s.read);
    var q := FlushedPing(s.wire[..s.read], s.answered);
    assert Flushed(s.wire[..s.read])[..q] == s.queued[..q];
    assert s.queued[q] == Ping(s.pongs[0]);
  }

  lemma RecordedKept(s: St, r: St)
    requires Recorded(s) && r.queued == s.queued && r.before == s.before
    ensures Recorded(r)
  {
  }

  lemma PongInv(s: St)
    requires Inv(s) && s.replies > 0
    ensures Inv(OnPong(s.(replies := s.replies - 1)))
  {
    hide Text, Owners, Flushed, Recorded, Settled, AllQueued;
    var r := OnPong(s.(replies := s.replies - 1));
    PongMatches(s);
    PopSettled(s, r);
    if s.pongs[0].Flush? {
      PongMeansRead(s);
    }
    RecordedKept(s, r);
  }

  /** Sending past `outbound` something that is not a PING. */
  lemma DirectInv(s: St, c: Command)
    requires Inv(s) && (c.Direct? || c.Pong?)
    ensures Inv(s.(wire := s.wire + [c]))
  {
    hide Text, Owners, Flushed, Recorded, Settled, Fulfilled;
    var r := s.(wire := s.wire + [c]);
    One(c);
    Appended(s.wire, [c]);
    assert r.wire[..s.read] == s.wire[..s.read];
    BooksKept(s, r);
  }

  lemma GreetInv(s: St, connect: bytes)
    requires Inv(s) && (s.asking || (s.info && !s.greeted))
    ensures Inv(Greet(s, connect))
  {
    hide Text, Owners, Flushed, Recorded, Settled, Fulfilled;
    DirectInv(s, Direct(connect));
    var w := s.wire + [Direct(connect)];
    One(Ping(Handshake));
    Appended(w, [Ping(Handshake)]);
    var r := Greet(s, connect);
    assert r.wire == w + [Ping(Handshake)];
    assert r.wire[..s.read] == s.wire[..s.read];
    BooksKept(s, r);
  }

  lemma InfoInv(s: St, connect: Option<bytes>)
    requires Inv(s)
    ensures Inv(OnInfo(s, connect))
  {
    hide Text, Owners, Flushed, Recorded, Settled, Fulfilled, Greet;
    if !s.info {
      var s1 := s.(info := true);
      BooksKept(s, s1);
      BooksKept(s, s1.(asking := true));
      if connect.Some? {
        GreetInv(s1, connect.value);
      }
    }
  }

  lemma ConnectInv(s: St, subs: seq<bytes>)
    requires Inv(s) && s.dialing && s.shaken
    ensures Inv(OnConnect(s, subs))
  {
    hide Text, Owners, Flushed, Recorded, Settled, Fulfilled, FlushPending;
    DirectInv(s, Direct(Flatten(subs)));
    var s1 := s.(connected := true, dialing := false);
    var s2 := if subs == [] then s1 else s1.(wire := s1.wire + [Direct(Flatten(subs))]);
    FlushPendingInv(s2);
    FlushKeepsBooks(s2);
    BooksKept(s, FlushPending(s2));
  }

  lemma ReadInv(s: St)
    requires Inv(s) && s.read < |s.wire|
    ensures Inv(OnRead(s))
  {
    hide Text, Owners, Flushed, Recorded, Settled, Fulfilled;
    var c := s.wire[s.read];
    One(c);
    Appended(s.wire[..s.read], [c]);
    assert s.wire[..s.read] + [c] == s.wire[..s.read + 1];
    BooksKept(s, OnRead(s));
  }

  lemma MicrotaskInv(s: St)
    requires Inv(s) && s.flushes > 0
    ensures Inv(FlushPending(s.(flushes := s.flushes - 1)))
  {
    hide Text, Owners, Flushed, Recorded, Settled, Fulfilled, FlushPending;
    var s1 := s.(flushes := s.flushes - 1);
    FlushPendingInv(s1);
    FlushKeepsBooks(s1);
    BooksKept(s, FlushPending(s1));
  }

  lemma FlagsInv(s: St, r: St)
    requires Inv(s) && (r == s.(dialing := false, asking := false) || r == s.(connected := false))
    ensures Inv(r)
  {
    hide Text, Owners, Flushed, Recorded, Settled, Fulfilled;
    BooksKept(s, r);
  }

  lemma StepInv(s: St, e: Event, pendingLimit: nat)
    requires Inv(s) && Enabled(s, e)
    ensures Inv(Step(s, e, pendingLimit))
  {
    hide OnSend, OnFlush, OnDial, OnInfo, Greet, OnPong, OnConnect, OnRead, FlushPending, Inv;
    match e {
      case Dial => DialInv(s);
      case DialFails => FlagsInv(s, s.(dialing := false, asking := false));
      case InfoArrives(connect) => InfoInv(s, connect);
      case AuthResolves(connect) => GreetInv(s, connect);
      case PongArrives => PongInv(s);
      case PingArrives => DirectInv(s, Pong);
      case Connects(subs) => ConnectInv(s, subs);
      case Disconnects => FlagsInv(s, s.(connected := false));
      case SendCommand(text) => SendInv(s, text, pendingLimit);
      case CallFlush(id) => FlushInv(s, id);
      case MicrotaskRuns => MicrotaskInv(s);
      case ServerReads => ReadInv(s);
    }
  }

  lemma {:induction false} RunInv(s: St, events: seq<Event>, pendingLimit: nat, s1: St)
    requires Inv(s) && Run(s, events, pendingLimit, s1)
    ensures Inv(s1)
    decreases |events|
  {
    hide Inv, Step;
    if events != [] {
      StepInv(s, events[0], pendingLimit);
      RunInv(Step(s, events[0], pendingLimit), events[1..], pendingLimit, s1);
    }
  }

  // ----- the theorems

  lemma ReachableInv(events: seq<Event>, pendingLimit: nat, s: St)
    requires Run(Initial(), events, pendingLimit, s)
    ensures Inv(s)
  {
    hide Run, Step;
    DialInv(NEVER_DIALED);
    RunInv(Initial(), events, pendingLimit, s);
  }

  /**
   * Over every run, the commands flushed on this connection followed by those still in `outbound`
   * are all the commands queued since the last reset, in call order; so are their bytes.
   */
  lemma QueueConserved(events: seq<Event>, pendingLimit: nat, s: St)
    requires Run(Initial(), events, pendingLimit, s)
    ensures Flushed(s.wire) + s.outbound == s.queued
    ensures Text(Flushed(s.wire)) + Text(s.outbound) == Text(s.queued)
  {
    hide Run, Step;
    ReachableInv(events, pendingLimit, s);
    Appended(Flushed(s.wire), s.outbound);
  }

  /** On a live connection, commands that wait have a flush on its way. */
  lemma FlushIsPending(events: seq<Event>, pendingLimit: nat, s: St)
    requires Run(Initial(), events, pendingLimit, s)
    requires s.connected && s.outbound != []
    ensures s.info && s.flushes > 0
    ensures FlushPending(s).outbound == [] && FlushPending(s).wire == s.wire + s.outbound
  {
    hide Run, Step;
    ReachableInv(events, pendingLimit, s);
    FlushedAll(s.outbound);
  }

  /**
   * Not so for an empty command, which `FlushIsPending` leaves out and no caller in the repository
   * sends: it stays in the buffer when its flush runs, and no flush is queued for what follows.
   */
  lemma EmptyCommandWaits(s: St, text: bytes, pendingLimit: nat)
    requires s.connected && s.info && s.outbound == [] && s.flushes == 0 && text != [] && |text| < pendingLimit
    ensures var s1 := OnSend(s, [], pendingLimit);
            var s2 := FlushPending(s1.(flushes := s1.flushes - 1));
            var s3 := OnSend(s2, text, pendingLimit);
            s3.connected && s3.outbound == [Cmd([]), Cmd(text)] && s3.flushes == 0
  {
    One(Cmd([]));
    var none: bytes := [];
    var c: seq<Command> := [Cmd(none)];
    assert c[..0] == [] && Text(c) == Text(c[..0]) + none;
    Appended(c, [Cmd(text)]);
    assert [Cmd(text)][..0] == [];
    assert c + [Cmd(text)] == [Cmd(none), Cmd(text)];
  }

  /**
   * A flush resolves only after the server has read every command queued before it, on the
   * connection it was called on; every flush is waiting, resolved or rejected, and never two of these.
   */
  lemma FlushMeansRead(events: seq<Event>, pendingLimit: nat, s: St, id: nat)
    requires Run(Initial(), events, pendingLimit, s)
    ensures id in s.done ==> id in s.before && s.before[id] <= s.done[id]
    ensures id in s.before <==> Flush(id) in s.pongs || id in s.done || id in s.rejected
    ensures !(Flush(id) in s.pongs && id in s.done) && !(Flush(id) in s.pongs && id in s.rejected)
    ensures !(id in s.done && id in s.rejected)
  {
    hide Run, Step;
    ReachableInv(events, pendingLimit, s);
    assert id in Ids(s.pongs) <==> Flush(id) in s.pongs;
  }

  // ----- the order on the wire

  /** What a dial went through: the text of its CONNECT, the SUBs after it, and the server's PINGs. */
  datatype Dialed = Dialed(connect: Option<bytes>, subs: Option<seq<bytes>>, pings: nat)

  function Noted(s: St, d: Dialed, e: Event): Dialed {
    match e
    case Dial => Dialed(None, None, 0)
    case InfoArrives(greeting) => if s.info || greeting.None? then d else d.(connect := greeting)
    case AuthResolves(connect) => d.(connect := Some(connect))
    case Connects(subs) => d.(subs := Some(subs))
    case PingArrives => d.(pings := d.pings + 1)
    case _ => d
  }

  function LastDial(s: St, d: Dialed, events: seq<Event>, pendingLimit: nat): Dialed
    decreases |events|
  {
    if events == [] || !Enabled(s, events[0]) then d
    else LastDial(Step(s, events[0], pendingLimit), Noted(s, d, events[0]), events[1..], pendingLimit)
  }

  /** What was sent without being asked. */
  function NoPongs(commands: seq<Command>): seq<Command> {
    if commands == [] then []
    else
      var c := commands[|commands| - 1];
      NoPongs(commands[..|commands| - 1]) + (if c.Pong? then [] else [c])
  }

  /**
   * What a dial sends before anything that was queued: CONNECT, its PING, and the subscriptions if
   * there are any.
   */
  function Opening(d: Dialed): seq<Command> {
    (if d.connect.Some? then [Direct(d.connect.value), Ping(Handshake)] else [])
    + (if d.subs.Some? && d.subs.value != [] then [Direct(Flatten(d.subs.value))] else [])
  }

  lemma {:induction false} NoPongsConcat(a: seq<Command>, b: seq<Command>)
    ensures NoPongs(a + b) == NoPongs(a) + NoPongs(b)
  {
    if b == [] {
      assert a + b == a;
    } else {
      var n := |b| - 1;
      NoPongsConcat(a, b[..n]);
      assert (a + b)[..|a| + n] == a + b[..n] && (a + b)[|a| + n] == b[n];
      Reassociate(NoPongs(a), NoPongs(b[..n]), if b[n].Pong? then [] else [b[n]]);
    }
  }

  lemma {:induction false} QueuedHasNoPongs(commands: seq<Command>)
    requires AllQueued(commands)
    ensures NoPongs(commands) == commands
  {
    if commands != [] {
      var n := |commands| - 1;
      QueuedHasNoPongs(commands[..n]);
      assert ViaBuffer(commands[n]) && commands == commands[..n] + [commands[n]];
    }
  }

  /** The opening comes first, once and in order, and behind it everything that was flushed. */
  predicate Ordered(s: St, d: Dialed) {
    && NoPongs(s.wire) == Opening(d) + Flushed(s.wire)
    && |s.wire| == |NoPongs(s.wire)| + d.pings
    && (d.connect.Some? <==> s.greeted) && (d.subs.Some? ==> s.greeted)
    && (d.subs.None? ==> Flushed(s.wire) == [])
    && (s.connected ==> d.subs.Some?) && (s.dialing ==> d.subs.None?)
  }

  lemma FlushPendingOrdered(s: St, d: Dialed)
    requires Conserved(s) && Ordered(s, d)
    ensures Ordered(FlushPending(s), d)
  {
    hide Text, Flushed, NoPongs, Opening;
    FlushedAll(s.outbound);
    QueuedHasNoPongs(s.outbound);
    Appended(s.wire, s.outbound);
    NoPongsConcat(s.wire, s.outbound);
    Reassociate(Opening(d), Flushed(s.wire), s.outbound);
  }

  lemma WireGrows(w: seq<Command>, c: Command)
    ensures NoPongs(w + [c]) == NoPongs(w) + (if c.Pong? then [] else [c])
    ensures Flushed(w + [c]) == Flushed(w) + (if ViaBuffer(c) then [c] else [])
  {
    assert (w + [c])[..|w|] == w;
  }

  lemma PongOrdered(s: St, d: Dialed)
    requires Ordered(s, d)
    ensures Ordered(s.(wire := s.wire + [Pong]), d.(pings := d.pings + 1))
  {
    WireGrows(s.wire, Pong);
    hide Flushed, NoPongs;
    assert NoPongs(s.wire) + [] == NoPongs(s.wire) && Flushed(s.wire) + [] == Flushed(s.wire);
  }

  /** Something more is sent past `outbound` before anything was flushed. */
  lemma OpeningGrows(w: seq<Command>, c: Command, opening: seq<Command>)
    requires NoPongs(w) == opening && Flushed(w) == [] && c != Pong && !ViaBuffer(c)
    ensures NoPongs(w + [c]) == opening + [c] && Flushed(w + [c]) == []
  {
    WireGrows(w, c);
  }

  lemma {:induction false} GreetOrdered(s: St, d: Dialed, connect: bytes)
    requires Ordered(s, d) && !s.greeted && !s.connected && d.subs.None?
    ensures Ordered(Greet(s, connect), d.(connect := Some(connect)))
  {
    hide Flushed, NoPongs;
    var w := s.wire + [Direct(connect)];
    assert Opening(d) == [] && NoPongs(s.wire) == [];
    OpeningGrows(s.wire, Direct(connect), []);
    OpeningGrows(w, Ping(Handshake), [Direct(connect)]);
    assert s.wire + [Direct(connect), Ping(Handshake)] == w + [Ping(Handshake)];
    var d1 := d.(connect := Some(connect));
    assert Opening(d1) == [Direct(connect)] + [Ping(Handshake)];
    hide Opening;
    assert Opening(d1) + [] == Opening(d1);
  }

  lemma {:induction false} ConnectOrdered(s: St, d: Dialed, subs: seq<bytes>)
    requires Conserved(s) && Ordered(s, d) && s.dialing && s.greeted
    ensures Ordered(OnConnect(s, subs), d.(subs := Some(subs)))
  {
    hide Flushed, NoPongs, Flatten, FlushPending;
    var d1 := d.(subs := Some(subs));
    var s1 := s.(connected := true, dialing := false);
    if subs == [] {
      FlushPendingOrdered(s1, d1);
    } else {
      var c := Direct(Flatten(subs));
      assert Opening(d1) == Opening(d) + [c];
      hide Opening;
      assert Opening(d) + [] == Opening(d) && Opening(d1) + [] == Opening(d1);
      OpeningGrows(s.wire, c, Opening(d));
      FlushPendingOrdered(s1.(wire := s1.wire + [c]), d1);
    }
  }

  lemma {:induction false} StepOrdered(s: St, d: Dialed, e: Event, pendingLimit: nat)
    requires Inv(s) && Enabled(s, e) && Ordered(s, d)
    ensures Ordered(Step(s, e, pendingLimit), Noted(s, d, e))
  {
    hide Flushed, NoPongs, Flatten, FlushPending, Opening, Owners, Text, Recorded, Fulfilled, Settled;
    match e {
      case Dial => DialOrdered(s);
      case InfoArrives(connect) =>
        if !s.info && connect.Some? {
          GreetOrdered(s.(info := true), d, connect.value);
        }
      case AuthResolves(connect) => GreetOrdered(s, d, connect);
      case PingArrives => PongOrdered(s, d);
      case Connects(subs) => ConnectOrdered(s, d, subs);
      case SendCommand(text) => SendOrdered(s, d, text, pendingLimit);
      case CallFlush(id) => CallOrdered(s, d, id);
      case MicrotaskRuns => FlushPendingOrdered(s.(flushes := s.flushes - 1), d);
      case _ =>
    }
  }

  lemma DialOrdered(s: St)
    ensures Ordered(OnDial(s), Dialed(None, None, 0))
  {
  }

  lemma QueuedConserved(s: St, c: Command)
    requires Conserved(s) && ViaBuffer(c) && (c.Cmd? ==> c.text != [])
    ensures Conserved(s.(outbound := s.outbound + [c], queued := s.queued + [c]))
  {
    hide Flushed;
    Reassociate(Flushed(s.wire), s.outbound, [c]);
  }

  lemma SendOrdered(s: St, d: Dialed, text: bytes, pendingLimit: nat)
    requires Conserved(s) && Ordered(s, d) && text != []
    ensures Ordered(OnSend(s, text, pendingLimit), d)
  {
    hide Flushed, NoPongs, Opening, FlushPending, Text;
    QueuedConserved(s, Cmd(text));
    FlushPendingOrdered(s.(outbound := s.outbound + [Cmd(text)], queued := s.queued + [Cmd(text)]), d);
  }

  lemma CallOrdered(s: St, d: Dialed, id: nat)
    requires Conserved(s) && Ordered(s, d)
    ensures Ordered(OnFlush(s, id), d)
  {
    hide Flushed, NoPongs, Opening, FlushPending;
    var ping := Ping(Flush(id));
    QueuedConserved(s, ping);
    FlushPendingOrdered(
      s.(pongs := s.pongs + [Flush(id)], outbound := s.outbound + [ping], queued := s.queued + [ping],
         before := s.before[id := s.queued]), d);
  }

  lemma {:induction false} RunOrdered(s: St, d: Dialed, events: seq<Event>, pendingLimit: nat, s1: St)
    requires Inv(s) && Ordered(s, d) && Run(s, events, pendingLimit, s1)
    ensures Inv(s1) && Ordered(s1, LastDial(s, d, events, pendingLimit))
    decreases |events|
  {
    if events != [] {
      hide Inv, Step, Ordered, Noted;
      StepInv(s, events[0], pendingLimit);
      StepOrdered(s, d, events[0], pendingLimit);
      RunOrdered(Step(s, events[0], pendingLimit), Noted(s, d, events[0]), events[1..], pendingLimit, s1);
    }
  }

  /**
   * On every connection the server is given the CONNECT, then the PING of the dial, then the
   * subscriptions of the client, and only then what was queued, all of it in call order; between
   * them stand only PONGs, one for each PING of the server.
   */
  lemma {:induction false} WireOrder(events: seq<Event>, pendingLimit: nat, s: St)
    requires Run(Initial(), events, pendingLimit, s)
    ensures var d := LastDial(Initial(), Dialed(None, None, 0), events, pendingLimit);
            && NoPongs(s.wire) + s.outbound == Opening(d) + s.queued
            && |s.wire| == |NoPongs(s.wire)| + d.pings
            && (s.connected ==> d.connect.Some? && d.subs.Some?)
            && (!s.greeted ==> NoPongs(s.wire) == [])
            && (d.subs.None? ==> s.outbound == s.queued)
  {
    hide Run, LastDial, Flushed, NoPongs, Settled, Recorded, Fulfilled, Matched, ServerInOrder, Live;
    var d := LastDial(Initial(), Dialed(None, None, 0), events, pendingLimit);
    DialInv(NEVER_DIALED);
    DialOrdered(NEVER_DIALED);
    RunOrdered(Initial(), Dialed(None, None, 0), events, pendingLimit, s);
    Reassociate(Opening(d), Flushed(s.wire), s.outbound);
  }

  // ----- when commands go out

  /** A flush call on a live connection sends everything that waits, and its PING behind it. */
  lemma {:induction false} FlushCallSends(events: seq<Event>, pendingLimit: nat, s: St, id: nat)
    requires Run(Initial(), events, pendingLimit, s) && s.connected && id !in s.before
    ensures var s1 := Step(s, CallFlush(id), pendingLimit);
            s1.outbound == [] && s1.wire == s.wire + s.outbound + [Ping(Flush(id))] && s1.pongs == s.pongs + [Flush(id)]
  {
    hide Run, Flushed;
    ReachableInv(events, pendingLimit, s);
    assert AllQueued(s.outbound) && s.info;
    hide Inv, ReadByServer, Text, AllQueued;
    AllQueuedPush(s.outbound, Ping(Flush(id)));
    FlushedAll(s.outbound + [Ping(Flush(id))]);
    Reassociate(s.wire, s.outbound, [Ping(Flush(id))]);
  }

  /**
   * A command that fills the buffer of a live connection is sent at once, with what waits; another one
   * waits behind it.
   */
  lemma {:induction false} FullBufferSends(events: seq<Event>, pendingLimit: nat, s: St, text: bytes)
    requires Run(Initial(), events, pendingLimit, s) && s.connected && text != [] && s.outbound != []
    ensures var s1 := Step(s, SendCommand(text), pendingLimit);
            if |Text(s.outbound)| + |text| >= pendingLimit then s1.outbound == [] && s1.wire == s.wire + s.outbound + [Cmd(text)]
            else s1.outbound == s.outbound + [Cmd(text)] && s1.wire == s.wire
  {
    hide Run, Flushed;
    ReachableInv(events, pendingLimit, s);
    assert AllQueued(s.outbound) && s.info;
    hide Inv, ReadByServer, AllQueued;
    AllQueuedPush(s.outbound, Cmd(text));
    Grows(s.outbound, Cmd(text));
    hide Text;
    FlushedAll(s.outbound + [Cmd(text)]);
    Reassociate(s.wire, s.outbound, [Cmd(text)]);
  }

  /** What was queued while the client was not connected goes out when it connects, behind the subscriptions. */
  lemma {:induction false} ConnectSends(events: seq<Event>, pendingLimit: nat, s: St, subs: seq<bytes>)
    requires Run(Initial(), events, pendingLimit, s) && Enabled(s, Connects(subs))
    ensures var s1 := Step(s, Connects(subs), pendingLimit);
            && s1.connected && s1.outbound == []
            && s1.wire == s.wire + (if subs == [] then [] else [Direct(Flatten(subs))]) + s.outbound
  {
    hide Run, Flushed, Text, Flatten;
    ReachableInv(events, pendingLimit, s);
    FlushedAll(s.outbound);
  }

  // ----- reconnecting

  lemma RunCons(s: St, e: Event, events: seq<Event>, pendingLimit: nat, s1: St)
    requires Enabled(s, e) && Run(Step(s, e, pendingLimit), events, pendingLimit, s1)
    ensures Run(s, [e] + events, pendingLimit, s1)
  {
    assert ([e] + events)[1..] == events;
  }

  /** The dial from the greeting to its end, with an authenticator that answers at once or later. */
  function Handshaking(connect: bytes, later: bool, subs: seq<bytes>): seq<Event> {
    (if later then [InfoArrives(None), AuthResolves(connect)] else [InfoArrives(Some(connect))])
    + ([ServerReads, ServerReads] + [PongArrives, Connects(subs)])
  }

  lemma ServerReadsTwo(s: St, connect: bytes, pendingLimit: nat) returns (s1: St)
    requires s.wire == [Direct(connect), Ping(Handshake)] && s.read == 0 && s.replies == 0
    ensures s1 == s.(read := 2, replies := 1)
    ensures forall more, s2 :: Run(s1, more, pendingLimit, s2) ==> Run(s, [ServerReads, ServerReads] + more, pendingLimit, s2)
  {
    var a := Step(s, ServerReads, pendingLimit);
    s1 := Step(a, ServerReads, pendingLimit);
    assert a == s.(read := 1) && s1 == s.(read := 2, replies := 1);
    forall more, s2 | Run(s1, more, pendingLimit, s2)
      ensures Run(s, [ServerReads, ServerReads] + more, pendingLimit, s2)
    {
      RunCons(a, ServerReads, more, pendingLimit, s2);
      RunCons(s, ServerReads, [ServerReads] + more, pendingLimit, s2);
      assert [ServerReads] + ([ServerReads] + more) == [ServerReads, ServerReads] + more;
    }
  }

  /** Once CONNECT and PING were sent, the server reads them, its PONG comes, and the client is connected. */
  lemma {:induction false} GreetedConnects(s: St, connect: bytes, subs: seq<bytes>, pendingLimit: nat) returns (s1: St)
    requires s.dialing && s.info && s.outbound == [] && s.pongs == [Handshake] && s.read == 0 && s.replies == 0
    requires s.wire == [Direct(connect), Ping(Handshake)]
    ensures Run(s, [ServerReads, ServerReads] + [PongArrives, Connects(subs)], pendingLimit, s1)
    ensures s1.connected && s1.outbound == []
    ensures s1.wire == [Direct(connect), Ping(Handshake)] + (if subs == [] then [] else [Direct(Flatten(subs))])
  {
    hide Text, Flushed, Flatten, Run, OnRead;
    var b := ServerReadsTwo(s, connect, pendingLimit);
    var c := Step(b, PongArrives, pendingLimit);
    assert c.shaken && c.dialing && c.info && c.outbound == [] && c.wire == s.wire;
    s1 := Step(c, Connects(subs), pendingLimit);
    RunNothing(s1, pendingLimit);
    RunCons(c, Connects(subs), [], pendingLimit, s1);
    assert [Connects(subs)] + [] == [Connects(subs)];
    RunCons(b, PongArrives, [Connects(subs)], pendingLimit, s1);
    assert [PongArrives] + [Connects(subs)] == [PongArrives, Connects(subs)];
  }

  lemma RunNothing(s: St, pendingLimit: nat)
    ensures Run(s, [], pendingLimit, s)
  {
  }

  /** A dial goes through with INFO, CONNECT, PING and PONG, whatever was lost with the connection before. */
  lemma {:induction false} DialConnects(events: seq<Event>, pendingLimit: nat, s: St, connect: bytes, later: bool, subs: seq<bytes>)
    returns (s1: St)
    requires Run(Initial(), events, pendingLimit, s) && !s.connected && !s.dialing
    ensures Run(s, [Dial] + Handshaking(connect, later, subs), pendingLimit, s1)
    ensures s1.connected && s1.outbound == []
    ensures s1.wire == [Direct(connect), Ping(Handshake)] + (if subs == [] then [] else [Direct(Flatten(subs))])
  {
    hide Text, Flushed, Flatten, Run;
    var d := Step(s, Dial, pendingLimit);
    var tail := [ServerReads, ServerReads] + [PongArrives, Connects(subs)];
    if later {
      var a := Step(d, InfoArrives(None), pendingLimit);
      var g := Step(a, AuthResolves(connect), pendingLimit);
      s1 := GreetedConnects(g, connect, subs, pendingLimit);
      assert a.asking;
      RunCons(a, AuthResolves(connect), tail, pendingLimit, s1);
      RunCons(d, InfoArrives(None), [AuthResolves(connect)] + tail, pendingLimit, s1);
      assert [InfoArrives(None)] + ([AuthResolves(connect)] + tail) == Handshaking(connect, later, subs);
    } else {
      var g := Step(d, InfoArrives(Some(connect)), pendingLimit);
      s1 := GreetedConnects(g, connect, subs, pendingLimit);
      RunCons(d, InfoArrives(Some(connect)), tail, pendingLimit, s1);
      assert [InfoArrives(Some(connect))] + tail == Handshaking(connect, later, subs);
    }
    RunCons(s, Dial, Handshaking(connect, later, subs), pendingLimit, s1);
  }

  /**
   * A connection that is lost, and a dial that fails, make room for the next dial; everything that
   * waits for a PONG is rejected by it.
   */
  lemma {:induction false} NextDial(events: seq<Event>, pendingLimit: nat, s: St)
    requires Run(Initial(), events, pendingLimit, s)
    ensures s.connected ==> !s.dialing && Enabled(Step(s, Disconnects, pendingLimit), Dial)
    ensures s.dialing ==> Enabled(Step(s, DialFails, pendingLimit), Dial)
    ensures Enabled(s, Dial) ==> forall id :: Flush(id) in s.pongs ==> id in Step(s, Dial, pendingLimit).rejected
  {
    hide Run, Text, Flushed, LastDial, Settled, Recorded, Fulfilled, Matched, Conserved, ServerInOrder, Live;
    DialInv(NEVER_DIALED);
    DialOrdered(NEVER_DIALED);
    RunOrdered(Initial(), Dialed(None, None, 0), events, pendingLimit, s);
    hide Inv;
    forall id | Flush(id) in s.pongs
      ensures id in Ids(s.pongs)
    {
    }
  }
}
