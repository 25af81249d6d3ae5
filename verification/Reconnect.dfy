/**
 * The reconnect loop (`dodialLoop` in core/src/protocol.ts) after a first connect, with a fixed
 * pool, a constant delay, no server-choice handler, and a network on which every dial fails.
 */
module Reconnect {
  import opened Bytes
  import opened ServerPool
  import opened Servers

  type Error = nat
  const CONNECTION_REFUSED: Error := 0

  /** `Date.now()` and `delay`: time passes, never backwards, and a sleep lasts at least as long as asked. */
  class Clock {
    var now: int

    constructor (start: int)
      ensures now == start
    {
      now := start;
    }

    method Read() returns (t: int)
      modifies this
      ensures t == now >= old(now)
    {
      var passed: nat :| passed >= 0;
      now := now + passed;
      t := now;
    }

    method Sleep(d: nat)
      modifies this
      ensures now >= old(now) + d
    {
      var late: nat :| late >= 0;
      now := now + d + late;
    }
  }

  datatype Attempt = Attempt(server: ServerImpl, time: int, error: Error)

  /** How often a server is tried: once at least, and until its failures reach the limit. */
  function Quota(limit: int, reconnects: int): (n: nat)
    ensures n >= 1
  {
    if limit - reconnects > 1 then limit - reconnects else 1
  }

  function Count(log: seq<Attempt>, s: ServerImpl): nat {
    if log == [] then 0
    else Count(log[..|log| - 1], s) + if log[|log| - 1].server == s then 1 else 0
  }

  function Sum(all: seq<ServerImpl>, n: map<ServerImpl, nat>): nat
    requires forall s :: s in all ==> s in n
  {
    if all == [] then 0 else Sum(all[..|all| - 1], n) + n[all[|all| - 1]]
  }

  function SumCount(all: seq<ServerImpl>, log: seq<Attempt>): nat {
    if all == [] then 0 else SumCount(all[..|all| - 1], log) + Count(log, all[|all| - 1])
  }

  /** How much longer a server must wait before it may be tried. */
  function Wait(s: ServerImpl, delay: nat, now: int): (w: nat)
    reads s
  {
    if s.lastConnect == 0 || s.lastConnect + delay <= now then 0 else s.lastConnect + delay - now
  }

  function SumWait(all: seq<ServerImpl>, delay: nat, now: int): nat
    reads all
  {
    if all == [] then 0 else SumWait(all[..|all| - 1], delay, now) + Wait(all[|all| - 1], delay, now)
  }

  lemma CountPush(log: seq<Attempt>, a: Attempt, s: ServerImpl)
    ensures Count(log + [a], s) == Count(log, s) + if a.server == s then 1 else 0
  {
    assert (log + [a])[..|log|] == log;
  }

  lemma {:induction false} SumCountPush(all: seq<ServerImpl>, log: seq<Attempt>, a: Attempt)
    requires Distinct(all)
    ensures SumCount(all, log + [a]) == SumCount(all, log) + if a.server in all then 1 else 0
  {
    if all != [] {
      var n := |all| - 1;
      SumCountPush(all[..n], log, a);
      CountPush(log, a, all[n]);
      assert all == all[..n] + [all[n]];
      assert all[n] !in all[..n];
    }
  }

  /** Every attempt is an attempt at one of the servers. */
  lemma {:induction false} LogLength(all: seq<ServerImpl>, log: seq<Attempt>)
    requires Distinct(all) && forall i :: 0 <= i < |log| ==> log[i].server in all
    ensures |log| == SumCount(all, log)
  {
    if log == [] {
      NoAttempts(all);
    } else {
      var n := |log| - 1;
      LogLength(all, log[..n]);
      SumCountPush(all, log[..n], log[n]);
      assert log == log[..n] + [log[n]];
    }
  }

  lemma {:induction false} NoAttempts(all: seq<ServerImpl>)
    ensures SumCount(all, []) == 0
  {
    if all != [] {
      NoAttempts(all[..|all| - 1]);
    }
  }

  lemma {:induction false} SumBound(all: seq<ServerImpl>, log: seq<Attempt>, quota: map<ServerImpl, nat>)
    requires forall s :: s in all ==> s in quota && Count(log, s) <= quota[s]
    ensures SumCount(all, log) <= Sum(all, quota)
    ensures (forall s :: s in all ==> Count(log, s) == quota[s]) ==> SumCount(all, log) == Sum(all, quota)
  {
    if all != [] {
      var n := |all| - 1;
      assert all == all[..n] + [all[n]];
      assert forall s :: s in all[..n] ==> s in all;
      SumBound(all[..n], log, quota);
    }
  }

  /** Time that passes shortens the waits, and a server that waits has less to wait. */
  lemma {:induction false} SumWaitLess(all: seq<ServerImpl>, delay: nat, now: int, later: int, s: ServerImpl)
    requires now <= later
    ensures SumWait(all, delay, later) <= SumWait(all, delay, now)
    ensures s in all && now < later && Wait(s, delay, now) > 0 ==> SumWait(all, delay, later) < SumWait(all, delay, now)
  {
    if all != [] {
      var n := |all| - 1;
      assert all == all[..n] + [all[n]];
      SumWaitLess(all[..n], delay, now, later, s);
    }
  }

  /** Attempts at one server are at least the delay apart, those before the loop included. */
  predicate Paced(log: seq<Attempt>, before: map<ServerImpl, int>, delay: nat) {
    && (forall i, j :: 0 <= i < j < |log| && log[i].server == log[j].server ==> log[j].time >= log[i].time + delay)
    && (forall i :: 0 <= i < |log| && log[i].server in before && before[log[i].server] != 0 ==>
          log[i].time >= before[log[i].server] + delay)
  }

  class DialLoop {
    const servers: Servers
    const clock: Clock
    const maxReconnectAttempts: int
    const delay: nat
    var lastError: Option<Error>     // the handler's own, from before the loop
    ghost var log: seq<Attempt>

    constructor (servers: Servers, clock: Clock, maxReconnectAttempts: int, delay: nat, lastError: Option<Error>)
      ensures this.servers == servers && this.clock == clock && this.delay == delay && log == []
      ensures this.maxReconnectAttempts == maxReconnectAttempts && this.lastError == lastError
    {
      this.servers, this.clock, this.maxReconnectAttempts := servers, clock, maxReconnectAttempts;
      this.delay, this.lastError, log := delay, lastError, [];
    }

    /** The pool is distinct; a first selection has a server of the pool; times lie in the past. */
    ghost predicate Ready()
      reads this, servers, clock, servers.servers
    {
      && Distinct(servers.servers)
      && (servers.firstSelect ==> servers.currentServer != null && servers.currentServer in servers.servers)
      && clock.now > 0
      && forall s :: s in servers.servers ==> 0 <= s.lastConnect <= clock.now
    }

    /** `all` is the pool at the start, with the attempts each server is to get and its last connect. */
    ghost predicate Inv(all: seq<ServerImpl>, quota: map<ServerImpl, nat>, before: map<ServerImpl, int>)
      reads this, servers, clock, all
    {
      && Distinct(all) && Distinct(servers.servers) && clock.now > 0
      && (servers.firstSelect ==> servers.currentServer != null && servers.currentServer in servers.servers)
      && (forall s :: s in servers.servers ==> s in all)
      && (forall i :: 0 <= i < |log| ==> log[i].server in all)
      && Counts(all, quota) && Times(all, before) && Paced(log, before, delay)
    }

    ghost predicate Counts(all: seq<ServerImpl>, quota: map<ServerImpl, nat>)
      reads this, servers, all
    {
      forall s :: s in all ==> (s in quota &&
        quota[s] == Count(log, s) + if s in servers.servers then Quota(maxReconnectAttempts, s.reconnects) else 0)
    }

    ghost predicate Times(all: seq<ServerImpl>, before: map<ServerImpl, int>)
      reads this, clock, all
    {
      && (forall s :: s in all ==> s in before && 0 <= before[s] <= s.lastConnect <= clock.now)
      && (forall i :: 0 <= i < |log| && log[i].server in all ==> 0 < log[i].time <= log[i].server.lastConnect)
    }

    /** A dial, which fails. */
    method DoDial() returns (err: Error)
      modifies clock
      ensures clock.now >= old(clock.now)
    {
      var t := clock.Read();
      err :| err >= 0;
    }

    /** The attempt at a server that is ready. */
    method Stamp(target: ServerImpl, now: int, ghost all: seq<ServerImpl>, ghost before: map<ServerImpl, int>)
      returns (err: Error)
      requires clock.now > 0 && Times(all, before) && Paced(log, before, delay) && target in all
      requires forall i :: 0 <= i < |log| ==> log[i].server in all
      requires now <= clock.now && (target.lastConnect == 0 || target.lastConnect + delay <= now)
      modifies this`log, clock, target`lastConnect
      ensures clock.now > 0 && Times(all, before) && Paced(log, before, delay)
      ensures log == old(log) + [Attempt(target, target.lastConnect, err)]
    {
      target.lastConnect := clock.Read();
      err := DoDial();
      log := log + [Attempt(target, target.lastConnect, err)];
    }

    /** All but the target have the attempts they should have; the target has had one more. */
    ghost predicate CountsBut(all: seq<ServerImpl>, quota: map<ServerImpl, nat>, target: ServerImpl)
      reads this, servers, all
    {
      forall s :: s in all ==> (s in quota &&
        quota[s] + (if s == target then 1 else 0)
          == Count(log, s) + if s in servers.servers then Quota(maxReconnectAttempts, s.reconnects) else 0)
    }

    /** A failure is counted, and at the limit the server leaves the pool. */
    method CountFailure(target: ServerImpl, ghost all: seq<ServerImpl>, ghost quota: map<ServerImpl, nat>)
      requires servers.currentServer == target && target in servers.servers && maxReconnectAttempts != -1
      requires CountsBut(all, quota, target) && Distinct(servers.servers)
      modifies servers`servers, target`reconnects
      ensures Counts(all, quota) && Distinct(servers.servers)
      ensures forall s :: s in servers.servers ==> s in old(servers.servers)
    {
      target.reconnects := target.reconnects + 1;
      if target.reconnects >= maxReconnectAttempts {
        ghost var pool := servers.servers;
        servers.RemoveServer(servers.currentServer);
        ghost var i :| 0 <= i < |pool| && pool[i] == target && servers.servers == pool[..i] + pool[i + 1..];
        WithoutOne(pool, i);
      }
    }

    lemma Pushed(all: seq<ServerImpl>, quota: map<ServerImpl, nat>, was: seq<Attempt>, a: Attempt)
      requires log == was + [a]
      requires forall s :: s in all ==> (s in quota &&
        quota[s] == Count(was, s) + if s in servers.servers then Quota(maxReconnectAttempts, s.reconnects) else 0)
      ensures CountsBut(all, quota, a.server)
    {
      forall s | s in all
        ensures Count(log, s) == Count(was, s) + if s == a.server then 1 else 0
      {
        CountPush(was, a, s);
      }
    }

    /** One attempt, up to the removal of the server. */
    method TryServer(target: ServerImpl, now: int, ghost all: seq<ServerImpl>, ghost quota: map<ServerImpl, nat>,
                     ghost before: map<ServerImpl, int>) returns (err: Error)
      requires Inv(all, quota, before) && !servers.firstSelect && servers.currentServer == target
      requires target in servers.servers && maxReconnectAttempts != -1
      requires now <= clock.now && (target.lastConnect == 0 || target.lastConnect + delay <= now)
      modifies this`log, clock, servers`servers, target
      ensures Inv(all, quota, before) && !servers.firstSelect
      ensures |log| == |old(log)| + 1 && log[|log| - 1].error == err
      ensures forall s :: s in servers.servers ==> s in old(servers.servers)
    {
      hide Paced, Count, Quota;
      ghost var was := log;
      err := Stamp(target, now, all, before);
      Pushed(all, quota, was, Attempt(target, target.lastConnect, err));
      CountFailure(target, all, quota);
    }

    /** A server that is not ready is passed over, after a sleep. */
    method Pause(srv: ServerImpl, now: int, ghost all: seq<ServerImpl>, ghost quota: map<ServerImpl, nat>,
                 ghost before: map<ServerImpl, int>)
      requires Inv(all, quota, before)
      requires srv in all && srv.lastConnect <= now <= clock.now && Wait(srv, delay, now) > 0
      modifies clock
      ensures Inv(all, quota, before)
      ensures SumWait(all, delay, clock.now) < SumWait(all, delay, now)
    {
      var maxWait := if delay < srv.lastConnect + delay - now then delay else srv.lastConnect + delay - now;
      clock.Sleep(maxWait);
      SumWaitLess(all, delay, now, clock.now, srv);
    }

    /** There is a server to try, so attempts are left. */
    lemma AttemptsLeft(all: seq<ServerImpl>, quota: map<ServerImpl, nat>, before: map<ServerImpl, int>)
      requires Inv(all, quota, before)
      ensures |log| <= Sum(all, quota)
      ensures servers.servers == [] ==> |log| == Sum(all, quota)
    {
      LogLength(all, log);
      SumBound(all, log, quota);
    }

    method SelectServer(ghost all: seq<ServerImpl>, ghost quota: map<ServerImpl, nat>, ghost before: map<ServerImpl, int>)
      returns (srv: ServerImpl?)
      requires Inv(all, quota, before)
      modifies servers`firstSelect, servers`servers, servers`currentServer
      ensures Inv(all, quota, before) && !servers.firstSelect
      ensures srv == null ==> servers.servers == []
      ensures forall s :: s in servers.servers ==> s in old(servers.servers)
      ensures srv != null ==>
        srv in servers.servers && servers.currentServer == srv && srv in all && srv.lastConnect <= clock.now
    {
      hide Paced, Count, Quota;
      ghost var pool := servers.servers;
      srv := servers.SelectServer();
      if servers.servers != pool {
        Rotated(pool);
      }
    }

    lemma Start(all: seq<ServerImpl>, quota: map<ServerImpl, nat>, before: map<ServerImpl, int>)
      requires Ready() && log == [] && all == servers.servers
      requires quota == Quotas(all, maxReconnectAttempts) && before == LastConnects(all)
      ensures Inv(all, quota, before)
    {
      assert forall s :: Count(log, s) == 0;
    }

    /** No server is left: all have had their attempts. */
    lemma Finished(all: seq<ServerImpl>, quota: map<ServerImpl, nat>, before: map<ServerImpl, int>)
      requires Inv(all, quota, before) && servers.servers == []
      ensures forall s :: s in all ==> s in quota && Count(log, s) == quota[s]
      ensures Paced(log, before, delay)
    {
    }

    /** Time passing between two steps of the loop keeps the invariant. */
    method ReadClock(ghost all: seq<ServerImpl>, ghost quota: map<ServerImpl, nat>, ghost before: map<ServerImpl, int>)
      returns (now: int)
      requires Inv(all, quota, before)
      modifies clock
      ensures Inv(all, quota, before) && now == clock.now >= old(clock.now)
    {
      now := clock.Read();
    }

    /** One round of the loop: attempts are used up, or waiting time is. */
    method Round(ghost all: seq<ServerImpl>, ghost quota: map<ServerImpl, nat>, ghost before: map<ServerImpl, int>)
      returns (over: bool, failed: Option<Error>)
      requires Inv(all, quota, before) && maxReconnectAttempts != -1
      modifies this`log, clock, servers, all
      ensures Inv(all, quota, before)
      ensures over ==> servers.servers == [] && log == old(log)
      ensures failed.None? ==> log == old(log)
      ensures failed.Some? ==> !over && |log| == |old(log)| + 1 && Last(log) == failed
      ensures !over && failed.None? ==> SumWait(all, delay, clock.now) < old(SumWait(all, delay, clock.now))
    {
      hide Inv, Count, Quota, SumWait, Paced, Distinct;
      ghost var was := clock.now;
      over, failed := false, None;
      var srv := SelectServer(all, quota, before);
      if srv == null {
        return true, None;
      }
      var now := ReadClock(all, quota, before);
      if srv.lastConnect == 0 || srv.lastConnect + delay <= now {
        var err := TryServer(srv, now, all, quota, before);
        failed := Some(err);
      } else {
        SumWaitLess(all, delay, was, now, srv);
        Pause(srv, now, all, quota, before);
      }
    }

    /**
     * The loop ends: every server is tried exactly until it reaches the limit, attempts at one
     * server are at least the delay apart, and the last failure is thrown.
     */
    method Run() returns (thrown: Error)
      requires Ready() && log == [] && maxReconnectAttempts != -1
      modifies this`log, clock, servers, servers.servers
      ensures servers.servers == []
      ensures forall s :: s in old(servers.servers) ==>
                Count(log, s) == Quota(maxReconnectAttempts, old(s.reconnects))
      ensures |log| == old(Sum(servers.servers, Quotas(servers.servers, maxReconnectAttempts)))
      ensures Paced(log, old(LastConnects(servers.servers)), delay)
      ensures thrown == match Last(log)
                        case Some(e) => e
                        case None => if lastError.Some? then lastError.value else CONNECTION_REFUSED
    {
      hide Inv, Count, Quota, Sum, SumWait, Paced, Distinct;
      ghost var all := servers.servers;
      ghost var quota, before := Quotas(all, maxReconnectAttempts), LastConnects(all);
      var failed: Option<Error> := None;
      Start(all, quota, before);
      AttemptsLeft(all, quota, before);
      var over := false;
      while !over
        invariant Inv(all, quota, before)
        invariant failed == Last(log) && (over ==> servers.servers == [])
        invariant |log| <= Sum(all, quota)
        decreases !over, Sum(all, quota) - |log|, SumWait(all, delay, clock.now)
      {
        var lastFailed;
        over, lastFailed := Round(all, quota, before);
        if lastFailed.Some? {
          failed := lastFailed;
        }
        AttemptsLeft(all, quota, before);
      }
      Finished(all, quota, before);
      AttemptsLeft(all, quota, before);
      match failed {
        case Some(e) => return e;
        case None => return if lastError.Some? then lastError.value else CONNECTION_REFUSED;
      }
    }
  }

  function Last(log: seq<Attempt>): Option<Error> {
    if log == [] then None else Some(log[|log| - 1].error)
  }

  lemma Rotated<T>(s: seq<T>)
    requires s != [] && Distinct(s)
    ensures Distinct(s[1..] + [s[0]])
    ensures forall x :: x in s[1..] + [s[0]] <==> x in s
  {
    var r := s[1..] + [s[0]];
    assert s == [s[0]] + s[1..];
    forall x
      ensures x in r <==> x in s
    {
      if x in s {
        var k :| 0 <= k < |s| && s[k] == x;
        assert x == r[if k == 0 then |s| - 1 else k - 1];
      }
    }
  }

  /** What the loop is to do: the quota of every server. */
  function Quotas(all: seq<ServerImpl>, limit: int): (q: map<ServerImpl, nat>)
    reads all
    ensures forall s :: s in all ==> s in q && q[s] == Quota(limit, s.reconnects)
  {
    map s | s in all :: Quota(limit, s.reconnects)
  }

  function LastConnects(all: seq<ServerImpl>): (q: map<ServerImpl, int>)
    reads all
    ensures forall s :: s in all ==> s in q && q[s] == s.lastConnect
  {
    map s | s in all :: s.lastConnect
  }

  lemma WithoutOne<T>(s: seq<T>, i: nat)
    requires i < |s| && Distinct(s)
    ensures Distinct(s[..i] + s[i + 1..])
    ensures forall x :: x in s[..i] + s[i + 1..] <==> x in s && x != s[i]
  {
    var r := s[..i] + s[i + 1..];
    forall x
      ensures x in r <==> x in s && x != s[i]
    {
      if x in s && x != s[i] {
        var k :| 0 <= k < |s| && s[k] == x;
        assert x == r[if k < i then k else k - 1];
      }
    }
  }
}
