/** The methods of ProtocolHandler (core/src/protocol.ts) behind the steps of Outbound. */
module Connection {
  import opened Bytes
  import opened Outbound
  import opened DataBuffer

  const PING_CMD: bytes := PingText()
  const PONG_CMD: bytes := PongText()

  /** The buffer holds the bytes of `commands`, each of which put at least one array in it. */
  ghost predicate Holds(b: DataBuffer, commands: seq<Command>)
    reads b
  {
    && b.Valid() && b.Contents() == Text(commands)
    && (b.buffers == [] <==> commands == [])
  }

  lemma NoPayloads()
    ensures Flatten([]) == []
  {
  }

  lemma TextPush(commands: seq<Command>, c: Command)
    ensures Text(commands + [c]) == Text(commands) + TextOf(c)
  {
    assert (commands + [c])[..|commands|] == commands;
  }

  lemma TextOne(c: Command)
    ensures Text([c]) == TextOf(c)
  {
    assert [c][..0] == [];
  }

  /** What a PONG leaves as it is. */
  lemma PongKeeps(s: St)
    ensures var r := OnPong(s);
            && r.connected == s.connected && r.info == s.info && r.flushes == s.flushes
            && r.outbound == s.outbound && r.wire == s.wire
            && r.pongs == (if s.pongs == [] then s.pongs else s.pongs[1..])
  {
    hide ReadByServer;
  }

  class ProtocolHandler {
    var outbound: DataBuffer
    var connected: bool
    var infoReceived: bool
    var pongs: seq<Deferred>
    var microtasks: nat            // queued calls of flushPending
    var transport: seq<bytes>      // the transport's `send` calls on this connection
    const pendingLimit: nat

    // What the steps of Outbound see besides the fields.
    ghost var rest: St

    ghost function View(): St
      reads this
    {
      rest.(connected := connected, info := infoReceived, pongs := pongs, flushes := microtasks)
    }

    ghost predicate Valid()
      reads this, outbound
    {
      && Holds(outbound, rest.outbound)
      && Flatten(transport) == Text(rest.wire)
    }

    /** `new ProtocolHandler` and the start of its first dial. */
    constructor (pendingLimit: nat)
      ensures Valid() && View() == Initial() && this.pendingLimit == pendingLimit
      ensures fresh(outbound)
    {
      this.pendingLimit := pendingLimit;
      outbound := new DataBuffer();
      connected, infoReceived, pongs, microtasks, transport := false, false, [], 0, [];
      rest := NEVER_DIALED;
      new;
      Prepare();
    }

    /** `transport.send(d)`; `commands` is what the bytes are. */
    method TransportSend(d: bytes, ghost commands: seq<Command>)
      requires Valid() && d == Text(commands)
      modifies this`transport, this`rest
      ensures Valid() && rest == old(rest).(wire := old(rest.wire) + commands)
      ensures transport == old(transport) + [d]
    {
      FlattenConcat(transport, [d]);
      FlattenOne(d);
      Appended(rest.wire, commands);
      transport := transport + [d];
      rest := rest.(wire := rest.wire + commands);
    }

    method ResetOutbound()
      requires Valid()
      modifies this, outbound
      ensures Valid() && outbound == old(outbound) && pongs == [] && !infoReceived
      ensures connected == old(connected) && microtasks == old(microtasks)
      ensures rest == old(rest).(outbound := [], wire := [], read := 0, replies := 0, answered := 0,
                                 queued := [], rejected := old(rest.rejected) + Ids(old(pongs)))
    {
      outbound.Reset();
      rest := rest.(outbound := [], wire := [], read := 0, replies := 0, answered := 0, queued := [],
                    rejected := rest.rejected + Ids(pongs));
      pongs := [];
      transport := [];
      infoReceived := false;
    }

    /** `prepare`, which starts a dial; it only runs while the client is not connected. */
    method Prepare()
      requires Valid() && !connected
      modifies this, outbound
      ensures Valid() && outbound == old(outbound) && View() == OnDial(old(View()))
    {
      ResetOutbound();
      pongs := [Handshake] + pongs;
      rest := rest.(asking := false, greeted := false, dialing := true, shaken := false);
    }

    method FlushNow()
      requires Valid()
      modifies this, outbound
      ensures Valid() && outbound == old(outbound) && View() == FlushPending(old(View()))
    {
      if !infoReceived || !connected {
        return;
      }
      if outbound.Size() != 0 {
        var d := outbound.Drain(None);
        assert d == old(Text(rest.outbound)) && outbound.Contents() == [];
        ghost var commands := rest.outbound;
        rest := rest.(outbound := []);
        TransportSend(d, commands);
      }
    }

    /** `outbound.fill` with the parts of the command `c`. */
    method Enqueue(cmd: bytes, payloads: seq<bytes>, ghost c: Command)
      requires Valid() && ViaBuffer(c) && TextOf(c) == cmd + Flatten(payloads)
      modifies this`rest, outbound
      ensures Valid() && outbound.buffers != []
      ensures rest == old(rest).(outbound := old(rest.outbound) + [c], queued := old(rest.queued) + [c])
    {
      hide Text, Flatten;
      outbound.Fill(cmd, payloads);
      TextPush(rest.outbound, c);
      Reassociate(Text(rest.outbound), cmd, Flatten(payloads));
      rest := rest.(outbound := rest.outbound + [c], queued := rest.queued + [c]);
    }

    /** One command with its payloads. */
    method SendCommand(cmd: bytes, payloads: seq<bytes>)
      requires Valid()
      modifies this, outbound
      ensures Valid() && outbound == old(outbound)
      ensures View() == OnSend(old(View()), cmd + Flatten(payloads), pendingLimit)
    {
      hide FlushPending, Text, Flatten;
      var len := outbound.Length();
      Enqueue(cmd, payloads, Cmd(cmd + Flatten(payloads)));
      if len == 0 {
        microtasks := microtasks + 1;
      } else if outbound.Size() >= pendingLimit {
        FlushNow();
      }
    }

    method Microtask()
      requires Valid() && microtasks > 0
      modifies this, outbound
      ensures Valid() && outbound == old(outbound)
      ensures View() == FlushPending(old(View()).(flushes := old(microtasks) - 1))
    {
      microtasks := microtasks - 1;
      FlushNow();
    }

    method FlushCall(id: nat)
      requires Valid()
      modifies this, outbound
      ensures Valid() && outbound == old(outbound) && View() == OnFlush(old(View()), id)
    {
      hide FlushPending, Text, Flatten;
      NoPayloads();
      pongs := pongs + [Flush(id)];
      rest := rest.(before := rest.before[id := rest.queued]);
      Enqueue(PING_CMD, [], Ping(Flush(id)));
      FlushNow();
    }

    method ProcessPing()
      requires Valid()
      modifies this`transport, this`rest
      ensures Valid()
      ensures View() == old(View()).(wire := old(View()).wire + [Pong])
    {
      hide Text, Flatten;
      TextOne(Pong);
      TransportSend(PONG_CMD, [Pong]);
    }

    /** The deferred at the head of `pongs` is resolved, if there is one. */
    method ProcessPong() returns (cb: Option<Deferred>)
      requires Valid()
      modifies this`pongs, this`rest
      ensures Valid() && View() == OnPong(old(View()))
      ensures cb == if old(pongs) == [] then None else Some(old(pongs)[0])
    {
      hide Text, Flatten, OnPong;
      cb := None;
      PongKeeps(View());
      rest := OnPong(View());
      if pongs != [] {
        cb := Some(pongs[0]);
        pongs := pongs[1..];
      }
    }

    method SendConnect(connect: bytes)
      requires Valid()
      modifies this`transport, this`rest
      ensures Valid() && View() == Greet(old(View()), connect)
    {
      hide Text, Flatten;
      TextOne(Direct(connect));
      TextOne(Ping(Handshake));
      ghost var w := rest.wire;
      TransportSend(connect, [Direct(connect)]);
      TransportSend(PING_CMD, [Ping(Handshake)]);
      assert w + [Direct(connect)] + [Ping(Handshake)] == w + [Direct(connect), Ping(Handshake)];
      rest := rest.(asking := false, greeted := true);
    }

    /**
     * The first INFO of a connection sends CONNECT and PING, unless an authenticator has to answer
     * first (`connect` is None); later ones send nothing.
     */
    method ProcessInfo(connect: Option<bytes>)
      requires Valid()
      modifies this`infoReceived, this`transport, this`rest
      ensures Valid() && View() == OnInfo(old(View()), connect)
    {
      hide Greet, Text, Flatten;
      if infoReceived {
        return;
      }
      infoReceived := true;
      if connect.Some? {
        SendConnect(connect.value);
      } else {
        rest := rest.(asking := true);
      }
    }

    /** The SUBs of all subscriptions go out in one piece. */
    method SendSubscriptions(subs: seq<bytes>)
      requires Valid()
      modifies this`transport, this`rest
      ensures Valid()
      ensures rest == if subs == [] then old(rest) else old(rest).(wire := old(rest.wire) + [Direct(Flatten(subs))])
    {
      hide Text, Flatten;
      if subs != [] {
        TextOne(Direct(Flatten(subs)));
        TransportSend(Flatten(subs), [Direct(Flatten(subs))]);
      }
    }

    /** The rest of `dial` once its PONG came: the subscriptions go first, then what was queued. */
    method DialSucceeds(subs: seq<bytes>)
      requires Valid()
      modifies this, outbound
      ensures Valid() && outbound == old(outbound) && View() == OnConnect(old(View()), subs)
    {
      hide FlushPending, Text, Flatten;
      connected := true;
      rest := rest.(dialing := false);
      SendSubscriptions(subs);
      FlushNow();
    }
  }
}
