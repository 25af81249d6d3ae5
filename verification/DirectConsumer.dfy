/**
 * The direct consumer of jetstream/src/jsm_direct.ts: batches pulled from a stream over a
 * channel that keeps order but loses replies. Each reply names the reply before it, so a gap
 * shows, and the consumer pulls again from the last message it has.
 */
module DirectConsumer {
  import opened Stream

  /** One reply: its stream sequence, and that of the previous reply of the batch, or 0. */
  datatype Reply = Reply(sn: nat, lastSequence: nat)

  /** `replies` is the running batch and `next` the first reply that can still arrive. */
  datatype St = St(last: nat, done: bool, yielded: seq<nat>, running: bool, replies: seq<nat>, next: nat, got: nat)

  function Initial(): St {
    St(0, false, [], false, [], 0, 0)
  }

  /** `getOptions` for a start by sequence: where the next pull begins. */
  function NextStart(start: nat, last: nat): nat {
    if last != 0 then last + 1 else if start != 0 then start else 1
  }

  function ReplyAt(replies: seq<nat>, i: nat): Reply
    requires i < |replies|
  {
    Reply(replies[i], if i == 0 then 0 else replies[i - 1])
  }

  /** The callback of a batch for a reply. */
  function OnReply(s: St, r: Reply): St {
    if r.lastSequence > 0 && r.lastSequence != s.last then
      s.(running := false)
    else
      s.(last := r.sn, yielded := if s.done then s.yielded else s.yielded + [r.sn], got := s.got + 1)
  }

  datatype Event =
    | Pull(stored: nat, batch: nat)  // the server answers from the first `stored` messages
    | Arrives(i: nat)                // replies before `i` that have not arrived are lost
    | BatchEnds                      // complete, failed or timed out
    | Stop

  predicate Enabled(log: seq<nat>, s: St, e: Event) {
    match e
    case Pull(stored, _) => !s.running && !s.done && stored <= |log|
    case Arrives(i) => s.running && s.next <= i < |s.replies|
    case BatchEnds => s.running
    case Stop => true
  }

  function Take(s: seq<nat>, n: nat): seq<nat> {
    if n <= |s| then s[..n] else s
  }

  function Step(log: seq<nat>, start: nat, s: St, e: Event): St
    requires Enabled(log, s, e)
  {
    match e
    case Pull(stored, batch) =>
      s.(running := true, replies := Take(From(log[..stored], NextStart(start, s.last)), batch), next := 0, got := 0)
    case Arrives(i) => OnReply(s.(next := i + 1), ReplyAt(s.replies, i))
    case BatchEnds => s.(running := false)
    case Stop => s.(done := true)
  }

  predicate Run(log: seq<nat>, start: nat, s: St, events: seq<Event>, s1: St)
    decreases |events|
  {
    if events == [] then s1 == s
    else Enabled(log, s, events[0]) && Run(log, start, Step(log, start, s, events[0]), events[1..], s1)
  }

  // ----- the prefix property

  function Base(log: seq<nat>, start: nat): seq<nat> {
    From(log, NextStart(start, 0))
  }

  /** What remains of the stream after the messages that were taken. */
  function Remaining(log: seq<nat>, start: nat, s: St): seq<nat> {
    From(log, NextStart(start, s.last))
  }

  /** The first `got` replies of the batch were taken, one after the other. */
  predicate InBatch(log: seq<nat>, start: nat, s: St) {
    && s.got <= s.next <= |s.replies|
    && s.replies[s.got..] <= Remaining(log, start, s)
    && (forall i, j :: 0 <= i < j < |s.replies| ==> s.replies[i] < s.replies[j])
    && (forall i :: 0 <= i < |s.replies| ==> s.replies[i] > 0)
    && (if s.got > 0 then s.last == s.replies[s.got - 1] else forall i :: 0 <= i < |s.replies| ==> s.replies[i] > s.last)
  }

  predicate Inv(log: seq<nat>, start: nat, s: St) {
    && s.yielded <= Base(log, start)
    && (!s.done ==> Remaining(log, start, s) == Base(log, start)[|s.yielded|..])
    && (s.running ==> InBatch(log, start, s))
  }

  predicate LogOk(log: seq<nat>) {
    Increasing(log) && forall i :: 0 <= i < |log| ==> log[i] > 0
  }

  lemma FromOk(log: seq<nat>, start: nat)
    requires LogOk(log)
    ensures var s := From(log, start);
            && (forall i, j :: 0 <= i < j < |s| ==> s[i] < s[j])
            && (forall i :: 0 <= i < |s| ==> s[i] > 0 && s[i] >= start)
  {
    FromMembers(log, start);
    FromAtLeast(log, start);
  }

  lemma PullInv(log: seq<nat>, start: nat, s: St, stored: nat, batch: nat)
    requires LogOk(log) && Inv(log, start, s) && Enabled(log, s, Pull(stored, batch))
    ensures Inv(log, start, Step(log, start, s, Pull(stored, batch)))
  {
    hide From;
    var first := NextStart(start, s.last);
    FromPrefix(log, stored, first);
    FromOk(log, first);
    var s1 := Step(log, start, s, Pull(stored, batch));
    assert s1.replies <= From(log, first);
    assert forall i :: 0 <= i < |s1.replies| ==> s1.replies[i] == From(log, first)[i];
    assert s1.replies[0..] == s1.replies;
  }

  /**
   * A reply that arrives is taken, and yielded, exactly when none before it in its batch was lost;
   * otherwise the consumer gives the batch up and keeps what it has.
   */
  lemma TakenIffNext(log: seq<nat>, start: nat, s: St, i: nat)
    requires Inv(log, start, s) && Enabled(log, s, Arrives(i))
    ensures Step(log, start, s, Arrives(i)) ==
              if i == s.got then
                s.(next := i + 1, got := i + 1, last := s.replies[i],
                   yielded := if s.done then s.yielded else s.yielded + [s.replies[i]])
              else s.(next := i + 1, running := false)
  {
  }

  lemma ArrivesInv(log: seq<nat>, start: nat, s: St, i: nat)
    requires LogOk(log) && Inv(log, start, s) && Enabled(log, s, Arrives(i))
    ensures Inv(log, start, Step(log, start, s, Arrives(i)))
  {
    hide From;
    TakenIffNext(log, start, s, i);
    if i == s.got {
      var rest := Remaining(log, start, s);
      assert s.replies[s.got..][0] == rest[0] == s.replies[i];
      FromSkips(log, NextStart(start, s.last), 0);
      var s1 := Step(log, start, s, Arrives(i));
      assert Remaining(log, start, s1) == rest[1..];
      assert s.replies[s.got + 1..] == s.replies[s.got..][1..];
      if !s.done {
        var base := Base(log, start);
        assert base[|s.yielded|..][0] == base[|s.yielded|];
        PrefixGrows(base, s.yielded, s.replies[i]);
      }
    }
  }

  lemma StepInv(log: seq<nat>, start: nat, s: St, e: Event)
    requires LogOk(log) && Inv(log, start, s) && Enabled(log, s, e)
    ensures Inv(log, start, Step(log, start, s, e))
  {
    match e {
      case Pull(stored, batch) => PullInv(log, start, s, stored, batch);
      case Arrives(i) => ArrivesInv(log, start, s, i);
      case BatchEnds =>
      case Stop =>
    }
  }

  lemma {:induction false} RunInv(log: seq<nat>, start: nat, s: St, events: seq<Event>, s1: St)
    requires LogOk(log) && Inv(log, start, s) && Run(log, start, s, events, s1)
    ensures Inv(log, start, s1)
    decreases |events|
  {
    if events != [] {
      StepInv(log, start, s, events[0]);
      RunInv(log, start, Step(log, start, s, events[0]), events[1..], s1);
    }
  }

  /**
   * Over every stream that only grows, every loss of replies and every number of pulls and
   * resets, the messages yielded are exactly the first ones stored from the start sequence.
   */
  lemma DirectPrefix(log: seq<nat>, start: nat, events: seq<Event>, s: St)
    requires LogOk(log) && Run(log, start, Initial(), events, s)
    ensures s.yielded <= From(log, if start != 0 then start else 1)
  {
    RunInv(log, start, Initial(), events, s);
  }

  // ----- progress

  /** The replies i to n - 1 arrive, one after the other. */
  function AllArrive(i: nat, n: nat): seq<Event>
    requires i <= n
    decreases n - i
  {
    if i == n then [] else [Arrives(i)] + AllArrive(i + 1, n)
  }

  lemma RunNone(log: seq<nat>, start: nat, s: St)
    ensures forall n: nat :: Run(log, start, s, AllArrive(n, n), s)
  {
  }

  lemma OneArrives(i: nat, n: nat)
    requires i < n
    ensures AllArrive(i, n) == [Arrives(i)] + AllArrive(i + 1, n)
  {
  }

  lemma RunCons(log: seq<nat>, start: nat, s: St, e: Event, events: seq<Event>, s1: St)
    requires Enabled(log, s, e) && Run(log, start, Step(log, start, s, e), events, s1)
    ensures Run(log, start, s, [e] + events, s1)
  {
    assert ([e] + events)[1..] == events;
  }

  /** The next reply is taken, and then the others can be. */
  lemma NextTaken(log: seq<nat>, start: nat, s: St) returns (s0: St)
    requires LogOk(log) && Inv(log, start, s) && s.running && !s.done && s.got == s.next < |s.replies|
    ensures Enabled(log, s, Arrives(s.got)) && s0 == Step(log, start, s, Arrives(s.got)) && Inv(log, start, s0)
    ensures s0.running && !s0.done && s0.got == s0.next == s.got + 1 && s0.replies == s.replies
    ensures s0.yielded == s.yielded + [s.replies[s.got]]
  {
    s0 := Step(log, start, s, Arrives(s.got));
    TakenIffNext(log, start, s, s.got);
    ArrivesInv(log, start, s, s.got);
  }

  lemma {:induction false} AllTaken(log: seq<nat>, start: nat, s: St) returns (s1: St)
    requires LogOk(log) && Inv(log, start, s) && s.running && !s.done && s.got == s.next <= |s.replies|
    ensures Run(log, start, s, AllArrive(s.got, |s.replies|), s1)
    ensures s1.yielded == s.yielded + s.replies[s.got..] && s1.running && s1.got == |s.replies| == |s1.replies|
    decreases |s.replies| - s.got
  {
    hide LogOk, Inv, Step, Enabled, Run, AllArrive;
    var g, n := s.got, |s.replies|;
    if g == n {
      s1 := s;
      RunNone(log, start, s);
      assert s.replies[g..] == [];
    } else {
      var s0 := NextTaken(log, start, s);
      s1 := AllTaken(log, start, s0);
      RunCons(log, start, s, Arrives(g), AllArrive(g + 1, n), s1);
      OneArrives(g, n);
      assert s.replies[g..] == [s.replies[g]] + s.replies[g + 1..];
      assert s.yielded + [s.replies[g]] + s.replies[g + 1..] == s.yielded + s.replies[g..];
    }
  }

  /**
   * Whatever happened before, a pull whose replies all arrive yields them all; one that asks for
   * enough yields the rest of the stream.
   */
  lemma {:induction false} PullYields(log: seq<nat>, start: nat, before: seq<Event>, s: St, stored: nat, batch: nat) returns (s1: St)
    requires LogOk(log) && Run(log, start, Initial(), before, s)
    requires !s.running && !s.done && stored <= |log|
    ensures var answer := Take(From(log[..stored], NextStart(start, s.last)), batch);
            Run(log, start, s, [Pull(stored, batch)] + AllArrive(0, |answer|), s1) && s1.yielded == s.yielded + answer
    ensures stored == |log| && batch >= |log| ==> s1.yielded == From(log, if start != 0 then start else 1)
  {
    hide From, Take;
    RunInv(log, start, Initial(), before, s);
    PullInv(log, start, s, stored, batch);
    var s0 := Step(log, start, s, Pull(stored, batch));
    s1 := AllTaken(log, start, s0);
    assert s0.replies[0..] == s0.replies;
    RunCons(log, start, s, Pull(stored, batch), AllArrive(0, |s0.replies|), s1);
    assert log[..|log|] == log;
    var rest := From(log, NextStart(start, s.last));
    TakeAll(rest, batch);
    assert s.yielded + rest == Base(log, start);
  }

  lemma TakeAll(s: seq<nat>, n: nat)
    ensures n >= |s| ==> Take(s, n) == s
  {
  }

  /** A consumer that was stopped yields nothing more and pulls no more, whatever still arrives. */
  lemma {:induction false} StoppedYieldsNothing(log: seq<nat>, start: nat, s: St, after: seq<Event>, s1: St)
    requires Run(log, start, s, [Stop] + after, s1)
    ensures s1.done && s1.yielded == s.yielded
    ensures forall stored, batch :: !Enabled(log, s1, Pull(stored, batch))
  {
    assert ([Stop] + after)[1..] == after;
    StaysStopped(log, start, Step(log, start, s, Stop), after, s1);
  }

  lemma {:induction false} StaysStopped(log: seq<nat>, start: nat, s: St, events: seq<Event>, s1: St)
    requires s.done && Run(log, start, s, events, s1)
    ensures s1.done && s1.yielded == s.yielded
    decreases |events|
  {
    if events != [] {
      StaysStopped(log, start, Step(log, start, s, events[0]), events[1..], s1);
    }
  }

  /**
   * A batch that ends, completely or not, or is given up, makes room for the next pull, from behind
   * the last message.
   */
  lemma PullsOn(log: seq<nat>, start: nat, before: seq<Event>, s: St, e: Event, batch: nat)
    requires LogOk(log) && Run(log, start, Initial(), before, s) && !s.done && Enabled(log, s, e)
    requires e.BatchEnds? || (e.Arrives? && e.i != s.got)
    ensures var s1 := Step(log, start, s, e);
            && Enabled(log, s1, Pull(|log|, batch)) && s1.yielded == s.yielded
            && s1.yielded + From(log, NextStart(start, s1.last)) == From(log, if start != 0 then start else 1)
  {
    RunInv(log, start, Initial(), before, s);
    var base := Base(log, start);
    assert base[..|s.yielded|] + base[|s.yielded|..] == base;
    if e.Arrives? {
      TakenIffNext(log, start, s, e.i);
    }
  }

  // ----- the consumer

  class Consumer {
    const start: nat
    var last: nat         // cursor.last
    var idle: bool        // the last pull failed or delivered nothing: sleep before the next one
    var done: bool
    var running: bool
    var delivered: nat
    var yielded: seq<nat>   // the messages pushed to the iterator
    var replies: seq<nat>   // the batch on its way
    var next: nat

    function View(): St
      reads this
    {
      St(last, done, yielded, running, replies, next, delivered)
    }

    constructor (start: nat)
      ensures this.start == start && View() == Initial()
    {
      this.start := start;
      last, idle, done, running, delivered := 0, false, false, false, 0;
      yielded, replies, next := [], [], 0;
    }

    method GetOptions() returns (sn: nat)
      ensures sn == NextStart(start, last)
    {
      if last == 0 {
        return if start != 0 then start else 1;
      }
      return last + 1;
    }

    /** Starts a pull; the server's answer is `answer`. */
    method PullBatch(log: seq<nat>, stored: nat, batch: nat) returns (sn: nat)
      requires Enabled(log, View(), Pull(stored, batch))
      modifies this
      ensures sn == NextStart(start, old(last))
      ensures View() == Step(log, start, old(View()), Pull(stored, batch))
    {
      sn := GetOptions();
      running, delivered := true, 0;
      replies, next := Take(From(log[..stored], sn), batch), 0;
    }

    /** The callback of the batch for a message; `i` is its place in the batch. */
    method BatchCallback(log: seq<nat>, i: nat, sm: Reply)
      requires Enabled(log, View(), Arrives(i)) && sm == ReplyAt(replies, i)
      modifies this
      ensures View() == Step(log, start, old(View()), Arrives(i))
      ensures !running ==> !idle
    {
      next := i + 1;
      if sm.lastSequence > 0 && sm.lastSequence != last {
        // a reset pulls again right away
        idle := false;
        running := false;
      } else {
        delivered := delivered + 1;
        if !done {
          yielded := yielded + [sm.sn];
        }
        last := sm.sn;
      }
    }

    method BatchDone(log: seq<nat>, failed: bool)
      requires Enabled(log, View(), BatchEnds)
      modifies this
      ensures View() == Step(log, start, old(View()), BatchEnds)
      ensures idle <==> failed || delivered == 0
    {
      running := false;
      idle := failed || delivered == 0;
    }

    method Stop(log: seq<nat>)
      modifies this
      ensures View() == Step(log, start, old(View()), Event.Stop)
    {
      done := true;
    }

    /** One event of the server, the network or the caller. */
    method Handle(log: seq<nat>, e: Event)
      requires Enabled(log, View(), e)
      modifies this
      ensures View() == Step(log, start, old(View()), e)
    {
      hide Step;
      match e {
        case Pull(stored, batch) => var sn := PullBatch(log, stored, batch);
        case Arrives(i) => BatchCallback(log, i, ReplyAt(replies, i));
        case BatchEnds => BatchDone(log, false);  // a failure only makes the consumer sleep
        case Stop => Stop(log);
      }
    }
  }

  /** The class on any run: it ends where the model does, and yielded a prefix of the stream. */
  method Consume(log: seq<nat>, start: nat, events: seq<Event>, ghost end: St) returns (p: Consumer)
    requires LogOk(log) && Run(log, start, Initial(), events, end)
    ensures p.View() == end
    ensures p.yielded <= From(log, if start != 0 then start else 1)
  {
    hide Step, Enabled, Initial;
    p := new Consumer(start);
    var i := 0;
    assert events[0..] == events;
    while i < |events|
      invariant 0 <= i <= |events| && p.start == start && fresh(p)
      invariant Run(log, start, p.View(), events[i..], end)
    {
      assert events[i..][0] == events[i] && events[i..][1..] == events[i + 1..];
      p.Handle(log, events[i]);
      i := i + 1;
    }
    DirectPrefix(log, start, events, end);
  }
}
