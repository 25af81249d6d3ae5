/**
 * Ordered consumers: a gap-free stream rebuilt over a channel that loses, repeats and reorders,
 * by replacing the server's consumer whenever a delivery number is not the expected one.
 * Consumer `k` is the one asked for with serial `k`; it delivers, as its message 1, 2, .., the
 * stream messages from its start sequence on, to an inbox of the client. This is what push and
 * pull share, and push; OrderedPull has the pulls.
 */
module OrderedConsumer {
  import opened Stream

  datatype Cursor = Cursor(streamSeq: nat, deliverSeq: nat)

  /** The current consumer and inbox, the start sequence of each consumer, and what was handed on. */
  datatype Reader = Reader(serial: nat, cursor: Cursor, starts: map<nat, nat>, accepted: seq<nat>)

  /** `start` is `opt_start_seq`, 0 if not set. */
  function Begin(start: nat): Reader {
    Reader(1, Cursor(if start > 0 then start - 1 else 0, 0), map[1 := if start > 0 then start else 1], [])
  }

  /** A new consumer and inbox that start after the last message handed on. */
  function Restart(r: Reader): Reader {
    r.(serial := r.serial + 1,
       cursor := r.cursor.(deliverSeq := 0),
       starts := r.starts[r.serial + 1 := r.cursor.streamSeq + 1])
  }

  predicate Expected(r: Reader, dseq: nat) {
    dseq == r.cursor.deliverSeq + 1
  }

  /** A message on inbox `inbox`; messages on replaced inboxes have lost their subscription. */
  function OnMessage(r: Reader, inbox: nat, dseq: nat, sseq: nat): Reader {
    if inbox != r.serial then r
    else if !Expected(r, dseq) then Restart(r)
    else r.(cursor := Cursor(sseq, dseq), accepted := r.accepted + [sseq])
  }

  /** An idle heartbeat of the push consumer, with the delivery number it sent last. */
  function OnHeartbeat(r: Reader, inbox: nat, lastSent: nat, stalled: bool): Reader {
    if inbox == r.serial && !stalled && lastSent != r.cursor.deliverSeq then Restart(r) else r
  }

  /** Message `dseq` of consumer `k`, if it has one. */
  predicate Has(log: seq<nat>, r: Reader, k: nat, dseq: nat) {
    k in r.starts && 1 <= dseq <= |From(log, r.starts[k])|
  }

  function Content(log: seq<nat>, r: Reader, k: nat, dseq: nat): nat
    requires Has(log, r, k, dseq)
  {
    From(log, r.starts[k])[dseq - 1]
  }

  // ----- the prefix property

  /** The stream from the start sequence on. */
  function Base(log: seq<nat>, start: nat): seq<nat> {
    From(log, if start > 0 then start else 1)
  }

  /** What was handed on is exactly the first messages from the start: none missing, repeated or swapped. */
  predicate IsPrefix(log: seq<nat>, start: nat, r: Reader) {
    r.accepted <= Base(log, start)
  }

  /** The current consumer continues exactly where the accepted messages stop. */
  predicate Inv(log: seq<nat>, start: nat, r: Reader) {
    var base := Base(log, start);
    && r.accepted <= base
    && r.cursor.deliverSeq <= |r.accepted|
    && r.serial in r.starts && r.serial + 1 !in r.starts
    && (forall k :: k in r.starts ==> k <= r.serial)
    && From(log, r.starts[r.serial]) == base[|r.accepted| - r.cursor.deliverSeq..]
    && From(log, r.cursor.streamSeq + 1) == base[|r.accepted|..]
  }

  lemma BeginInv(log: seq<nat>, start: nat)
    ensures Inv(log, start, Begin(start))
  {
  }

  lemma RestartInv(log: seq<nat>, start: nat, r: Reader)
    requires Inv(log, start, r)
    ensures Inv(log, start, Restart(r))
  {
  }

  lemma AcceptInv(log: seq<nat>, start: nat, r: Reader, sseq: nat)
    requires Increasing(log) && Inv(log, start, r)
    requires r.cursor.deliverSeq < |From(log, r.starts[r.serial])|
    requires sseq == From(log, r.starts[r.serial])[r.cursor.deliverSeq]
    ensures Inv(log, start, OnMessage(r, r.serial, r.cursor.deliverSeq + 1, sseq))
  {
    hide From;
    var first := if start > 0 then start else 1;
    var base, n := From(log, first), |r.accepted|;
    assert base[n - r.cursor.deliverSeq..][r.cursor.deliverSeq] == base[n];
    PrefixGrows(base, r.accepted, sseq);
    FromSkips(log, first, n);
  }

  /** A message of the current consumer is the next one, or makes the client start over. */
  lemma {:induction false} MessageInv(log: seq<nat>, start: nat, r: Reader, dseq: nat)
    requires Increasing(log) && Inv(log, start, r) && Has(log, r, r.serial, dseq)
    ensures Inv(log, start, OnMessage(r, r.serial, dseq, Content(log, r, r.serial, dseq)))
  {
    if Expected(r, dseq) {
      AcceptInv(log, start, r, Content(log, r, r.serial, dseq));
    } else {
      RestartInv(log, start, r);
    }
  }

  // ----- push

  /** `Fails` stands for every other cause of a reset: a creation that failed, or missed heartbeats. */
  datatype PushEvent =
    | Delivers(inbox: nat, dseq: nat)
    | Heartbeat(inbox: nat, lastSent: nat, stalled: bool)
    | Fails

  /** A push consumer delivers to its own inbox, and nowhere else. */
  predicate PushEnabled(log: seq<nat>, r: Reader, e: PushEvent) {
    match e
    case Delivers(inbox, dseq) => Has(log, r, inbox, dseq)
    case Heartbeat(inbox, lastSent, _) => inbox in r.starts && lastSent <= |From(log, r.starts[inbox])|
    case Fails => true
  }

  function PushStep(log: seq<nat>, r: Reader, e: PushEvent): Reader
    requires PushEnabled(log, r, e)
  {
    match e
    case Delivers(inbox, dseq) => OnMessage(r, inbox, dseq, Content(log, r, inbox, dseq))
    case Heartbeat(inbox, lastSent, stalled) => OnHeartbeat(r, inbox, lastSent, stalled)
    case Fails => Restart(r)
  }

  predicate PushRun(log: seq<nat>, r: Reader, events: seq<PushEvent>, r1: Reader)
    decreases |events|
  {
    if events == [] then r1 == r
    else PushEnabled(log, r, events[0]) && PushRun(log, PushStep(log, r, events[0]), events[1..], r1)
  }

  lemma PushInv(log: seq<nat>, start: nat, r: Reader, e: PushEvent)
    requires Increasing(log) && Inv(log, start, r) && PushEnabled(log, r, e)
    ensures Inv(log, start, PushStep(log, r, e))
  {
    match e {
      case Delivers(inbox, dseq) =>
        if inbox == r.serial {
          MessageInv(log, start, r, dseq);
        }
      case Heartbeat(inbox, lastSent, stalled) => RestartInv(log, start, r);
      case Fails => RestartInv(log, start, r);
    }
  }

  lemma {:induction false} PushRunInv(log: seq<nat>, start: nat, r: Reader, events: seq<PushEvent>, r1: Reader)
    requires Increasing(log) && Inv(log, start, r) && PushRun(log, r, events, r1)
    ensures Inv(log, start, r1)
    decreases |events|
  {
    if events != [] {
      PushInv(log, start, r, events[0]);
      PushRunInv(log, start, PushStep(log, r, events[0]), events[1..], r1);
    }
  }

  /**
   * Ordered push: whatever is lost, repeated or reordered, and however many resets happen,
   * the messages handed on are a prefix of the stream from the start sequence.
   */
  lemma OrderedPush(log: seq<nat>, start: nat, events: seq<PushEvent>, r: Reader)
    requires Increasing(log) && PushRun(log, Begin(start), events, r)
    ensures IsPrefix(log, start, r)
  {
    BeginInv(log, start);
    PushRunInv(log, start, Begin(start), events, r);
  }

  /**
   * A heartbeat that is not stalled and causes no reset confirms that everything the consumer
   * sent was accepted: all of its first `lastSent` messages and so the stream up to there.
   */
  lemma HeartbeatConfirms(log: seq<nat>, start: nat, events: seq<PushEvent>, r: Reader, lastSent: nat)
    requires Increasing(log) && PushRun(log, Begin(start), events, r)
    requires PushEnabled(log, r, Heartbeat(r.serial, lastSent, false))
    requires PushStep(log, r, Heartbeat(r.serial, lastSent, false)) == r
    ensures lastSent <= |r.accepted|
    ensures r.accepted[|r.accepted| - lastSent..] == From(log, r.starts[r.serial])[..lastSent]
  {
    BeginInv(log, start);
    PushRunInv(log, start, Begin(start), events, r);
    var base, n := From(log, if start > 0 then start else 1), |r.accepted|;
    assert lastSent == r.cursor.deliverSeq;
    assert r.accepted == base[..n];
    assert base[..n][n - lastSent..] == base[n - lastSent..][..lastSent];
  }

  // ----- progress

  /** A new consumer that begins right behind what was handed on. */
  predicate StartsOver(log: seq<nat>, start: nat, r: Reader, r1: Reader) {
    && r1.serial == r.serial + 1 && r1.serial in r1.starts && r1.cursor.deliverSeq == 0
    && r1.accepted == r.accepted && r1.accepted + From(log, r1.starts[r1.serial]) == Base(log, start)
  }

  lemma RestartStartsOver(log: seq<nat>, start: nat, r: Reader)
    requires Inv(log, start, r)
    ensures StartsOver(log, start, r, Restart(r))
  {
    var base := Base(log, start);
    assert base == base[..|r.accepted|] + base[|r.accepted|..];
  }

  /**
   * A message on a replaced inbox changes nothing; the next message of the current consumer is
   * handed on; any other one makes the client start over.
   */
  lemma DeliversExactly(log: seq<nat>, start: nat, events: seq<PushEvent>, r: Reader, inbox: nat, dseq: nat)
    requires Increasing(log) && PushRun(log, Begin(start), events, r) && PushEnabled(log, r, Delivers(inbox, dseq))
    ensures var r1 := PushStep(log, r, Delivers(inbox, dseq));
            if inbox != r.serial then r1 == r
            else if dseq == r.cursor.deliverSeq + 1 then
              r1.serial == r.serial && IsPrefix(log, start, r1) && |r1.accepted| == |r.accepted| + 1
            else StartsOver(log, start, r, r1)
  {
    BeginInv(log, start);
    PushRunInv(log, start, Begin(start), events, r);
    PushInv(log, start, r, Delivers(inbox, dseq));
    RestartStartsOver(log, start, r);
  }

  /**
   * A heartbeat changes nothing when it is on a replaced inbox, stalled, or reports what was accepted;
   * else the client starts over.
   */
  lemma HeartbeatExactly(log: seq<nat>, start: nat, events: seq<PushEvent>, r: Reader, inbox: nat, lastSent: nat, stalled: bool)
    requires Increasing(log) && PushRun(log, Begin(start), events, r) && PushEnabled(log, r, Heartbeat(inbox, lastSent, stalled))
    ensures var r1 := PushStep(log, r, Heartbeat(inbox, lastSent, stalled));
            if inbox != r.serial || stalled || lastSent == r.cursor.deliverSeq then r1 == r
            else StartsOver(log, start, r, r1)
  {
    BeginInv(log, start);
    PushRunInv(log, start, Begin(start), events, r);
    RestartStartsOver(log, start, r);
  }

  /** The messages i + 1 to n of consumer k arrive. */
  function Arrivals(k: nat, i: nat, n: nat): seq<PushEvent>
    requires i <= n
    decreases n - i
  {
    if i == n then [] else [Delivers(k, i + 1)] + Arrivals(k, i + 1, n)
  }

  lemma PushCons(log: seq<nat>, r: Reader, e: PushEvent, events: seq<PushEvent>, r1: Reader)
    requires PushEnabled(log, r, e) && PushRun(log, PushStep(log, r, e), events, r1)
    ensures PushRun(log, r, [e] + events, r1)
  {
    assert ([e] + events)[1..] == events;
  }

  /** When the current consumer has nothing left, the whole stream was handed on. */
  lemma NothingLeft(log: seq<nat>, start: nat, r: Reader)
    requires Inv(log, start, r)
    ensures r.cursor.deliverSeq <= |From(log, r.starts[r.serial])|
    ensures r.cursor.deliverSeq == |From(log, r.starts[r.serial])| ==> r.accepted == Base(log, start)
  {
    hide From, Base;
    var base := Base(log, start);
    var d, n := r.cursor.deliverSeq, |From(log, r.starts[r.serial])|;
    assert n == |base| - (|r.accepted| - d);
    assert d == n ==> r.accepted == base[..|base|] == base;
  }

  /** Otherwise its next message can arrive, and is taken. */
  lemma NextArrives(log: seq<nat>, start: nat, r: Reader)
    requires Increasing(log) && Inv(log, start, r) && r.cursor.deliverSeq < |From(log, r.starts[r.serial])|
    ensures var e := Delivers(r.serial, r.cursor.deliverSeq + 1);
            && PushEnabled(log, r, e) && Inv(log, start, PushStep(log, r, e))
            && PushStep(log, r, e).serial == r.serial && PushStep(log, r, e).starts == r.starts
            && PushStep(log, r, e).cursor.deliverSeq == r.cursor.deliverSeq + 1
  {
    hide From;
    assert r.serial in r.starts;
    MessageInv(log, start, r, r.cursor.deliverSeq + 1);
    hide Inv;
  }

  /**
   * Whatever was lost before, when the current consumer's messages arrive from where the reader
   * is, the whole stream has been handed on.
   */
  lemma {:induction false} CatchesUp(log: seq<nat>, start: nat, r: Reader) returns (r1: Reader)
    requires Increasing(log) && Inv(log, start, r)
    ensures r.cursor.deliverSeq <= |From(log, r.starts[r.serial])|
    ensures PushRun(log, r, Arrivals(r.serial, r.cursor.deliverSeq, |From(log, r.starts[r.serial])|), r1)
    ensures r1.accepted == Base(log, start) && r1.serial == r.serial
    decreases |From(log, r.starts[r.serial])| - r.cursor.deliverSeq
  {
    assert r.serial in r.starts;
    hide Inv, PushStep, PushEnabled, Base, From;
    NothingLeft(log, start, r);
    var d, n := r.cursor.deliverSeq, |From(log, r.starts[r.serial])|;
    if d == n {
      r1 := r;
    } else {
      NextArrives(log, start, r);
      hide PushRun;
      var e := Delivers(r.serial, d + 1);
      r1 := CatchesUp(log, start, PushStep(log, r, e));
      PushCons(log, r, e, Arrivals(r.serial, d + 1, n), r1);
    }
  }

  /** After any run the stream can still be handed on to its end, by the consumer that is current. */
  lemma PushCatchesUp(log: seq<nat>, start: nat, before: seq<PushEvent>, r: Reader) returns (r1: Reader)
    requires Increasing(log) && PushRun(log, Begin(start), before, r)
    ensures r.serial in r.starts && r.cursor.deliverSeq <= |From(log, r.starts[r.serial])|
    ensures PushRun(log, r, Arrivals(r.serial, r.cursor.deliverSeq, |From(log, r.starts[r.serial])|), r1)
    ensures r1.accepted == From(log, if start > 0 then start else 1) && r1.serial == r.serial
  {
    BeginInv(log, start);
    PushRunInv(log, start, Begin(start), before, r);
    r1 := CatchesUp(log, start, r);
  }
}
