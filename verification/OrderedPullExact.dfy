/** Exactly when ordered pull has the prefix property: runs that break it, with the default threshold. */
module OrderedPullExact {
  import opened Stream
  import opened OrderedConsumer
  import opened OrderedPull

  const STREAM: seq<nat> := [1, 2, 3, 4, 5, 6]

  /** A limit of 4 messages; its default threshold is 3. A pull of 0 lets the server send nothing. */
  function Four(callback: bool, overlaps: bool): Config {
    Config(callback, overlaps, 4, 3, 0)
  }

  // ----- putting runs together

  lemma {:induction false} Together(c: Config, s: St, a: seq<Event>, s1: St, b: seq<Event>, s2: St)
    requires Run(c, STREAM, s, a, s1) && Run(c, STREAM, s1, b, s2)
    ensures Run(c, STREAM, s, a + b, s2)
    decreases |a|
  {
    hide Step, Possible, Overlaps;
    if a == [] {
      assert a + b == b;
    } else {
      Together(c, Step(c, STREAM, s, a[0]), a[1..], s1, b, s2);
      assert (a + b)[1..] == a[1..] + b;
    }
  }

  lemma Nothing(c: Config, s: St)
    ensures Run(c, STREAM, s, [], s)
  {
  }

  lemma Once(c: Config, s: St, e: Event)
    requires Possible(STREAM, s, e) && (c.overlaps || (s.asks == [] && !e.InfoAsked? && !e.RecoversBlind?))
    ensures Run(c, STREAM, s, [e], Step(c, STREAM, s, e))
  {
    assert [e][1..] == [];
  }

  /** The parts of a state that the runs look at. */
  predicate Client(s: St, r: Reader, info: nat, queued: seq<PullFn>, creating: set<nat>, asks: seq<Ask>) {
    s == St(r, info, 4, queued, creating, 0, asks, s.net)
  }

  predicate Server(s: St, c11: nat, c12: nat, c22: nat, sent1: nat, sent2: nat) {
    (CreditOf(s.net, 1, 1), CreditOf(s.net, 1, 2), CreditOf(s.net, 2, 2), SentBy(s.net, 1), SentBy(s.net, 2))
    == (c11, c12, c22, sent1, sent2)
  }

  lemma StreamFrom()
    ensures From(STREAM, 1) == [1, 2, 3, 4, 5, 6] && From(STREAM, 2) == [2, 3, 4, 5, 6]
    ensures From(STREAM, 3) == [3, 4, 5, 6] && From(STREAM, 4) == [4, 5, 6]
  {
    assert STREAM[1..] == [2, 3, 4, 5, 6];
    assert [2, 3, 4, 5, 6][1..] == [3, 4, 5, 6];
    assert [3, 4, 5, 6][1..] == [4, 5, 6];
  }

  // ----- what the runs are made of

  /**
   * Consumer k sends its next message to the current inbox, where it is the expected one; it is
   * replaced by a pull of 1.
   */
  lemma Receives(c: Config, s: St, k: nat) returns (s1: St, x: nat)
    requires c == Four(c.callback, c.overlaps) && (c.overlaps || s.asks == []) && s.pending == 4
    requires CreditOf(s.net, k, s.reader.serial) > 0 && Has(STREAM, s.reader, k, SentBy(s.net, k) + 1)
    requires Expected(s.reader, SentBy(s.net, k) + 1)
    ensures Run(c, STREAM, s, [ServerSends(k, s.reader.serial), Arrives(|s.net.flights|)], s1)
    ensures x == Content(STREAM, s.reader, k, SentBy(s.net, k) + 1)
    ensures var r := s.reader.(cursor := Cursor(x, SentBy(s.net, k) + 1), accepted := s.reader.accepted + [x]);
            var sent := s.(reader := r, net := Sends(s.net, k, s.reader.serial));
            s1 == (if c.callback then Publish(c, sent, PullFn(s.info, 1)) else sent.(queued := s.queued + [PullFn(s.info, 1)]))
  {
    var e1, e2 := ServerSends(k, s.reader.serial), Arrives(|s.net.flights|);
    Once(c, s, e1);
    var m := Step(c, STREAM, s, e1);
    x := Content(STREAM, s.reader, k, SentBy(s.net, k) + 1);
    Once(c, m, e2);
    s1 := Step(c, STREAM, m, e2);
    Together(c, s, [e1], m, [e2], s1);
  }

  /** The iterator publishes its only pull, of 1, and the message it asks for arrives. */
  lemma Round(c: Config, s: St) returns (events: seq<Event>, s1: St)
    requires c == Four(false, false) && s.asks == [] && s.pending == 4 && s.retries == 0
    requires s.reader.serial == 2 == s.info && s.queued == [PullFn(2, 1)] && CreditOf(s.net, 2, 2) == 0
    requires SentBy(s.net, 2) == s.reader.cursor.deliverSeq && Has(STREAM, s.reader, 2, SentBy(s.net, 2) + 1)
    ensures Run(c, STREAM, s, events, s1)
    ensures var n := SentBy(s.net, 2) + 1; var x := Content(STREAM, s.reader, 2, n);
            && Client(s1, s.reader.(cursor := Cursor(x, n), accepted := s.reader.accepted + [x]), 2, s.queued, s.creating, [])
            && Server(s1, CreditOf(s.net, 1, 1), CreditOf(s.net, 1, 2), 0, SentBy(s.net, 1), n)
  {
    Once(c, s, IteratorRuns);
    var p := Step(c, STREAM, s, IteratorRuns);
    var x;
    s1, x := Receives(c, p, 2);
    events := [IteratorRuns] + [ServerSends(2, 2), Arrives(|p.net.flights|)];
    Together(c, s, [IteratorRuns], p, [ServerSends(2, 2), Arrives(|p.net.flights|)], s1);
  }

  /** The current consumer sends a message that is lost, and one that shows the gap: the client starts over. */
  lemma Gap(c: Config, s: St, k: nat) returns (events: seq<Event>, s1: St)
    requires (c.overlaps || s.asks == []) && s.reader.serial == k && CreditOf(s.net, k, k) >= 2
    requires s.reader.cursor.deliverSeq == SentBy(s.net, k) && Has(STREAM, s.reader, k, SentBy(s.net, k) + 2)
    ensures Run(c, STREAM, s, events, s1)
    ensures s1 == Reset(s).(net := Sends(Sends(s.net, k, k), k, k))
  {
    Once(c, s, ServerSends(k, k));
    var m := Step(c, STREAM, s, ServerSends(k, k));
    assert SentBy(m.net, k) == SentBy(s.net, k) + 1 && CreditOf(m.net, k, k) > 0;
    Once(c, m, ServerSends(k, k));
    var m2 := Step(c, STREAM, m, ServerSends(k, k));
    var e := Arrives(|m.net.flights|);
    Once(c, m2, e);
    s1 := Step(c, STREAM, m2, e);
    Together(c, s, [ServerSends(k, k)], m, [ServerSends(k, k)], m2);
    Together(c, s, [ServerSends(k, k)] + [ServerSends(k, k)], m2, [e], s1);
    events := [ServerSends(k, k)] + [ServerSends(k, k)] + [e];
  }

  /** One more step. */
  lemma Then(c: Config, s0: St, events: seq<Event>, s: St, e: Event) returns (events1: seq<Event>, s1: St)
    requires Run(c, STREAM, s0, events, s)
    requires Possible(STREAM, s, e) && (c.overlaps || (s.asks == [] && !e.InfoAsked? && !e.RecoversBlind?))
    ensures Run(c, STREAM, s0, events1, s1) && s1 == Step(c, STREAM, s, e)
  {
    s1 := Step(c, STREAM, s, e);
    Once(c, s, e);
    Together(c, s0, events, s, [e], s1);
    events1 := events + [e];
  }

  /** One more message. */
  lemma ThenReceives(c: Config, s0: St, events: seq<Event>, s: St, k: nat) returns (events1: seq<Event>, s1: St, x: nat)
    requires Run(c, STREAM, s0, events, s)
    requires c == Four(c.callback, c.overlaps) && (c.overlaps || s.asks == []) && s.pending == 4
    requires CreditOf(s.net, k, s.reader.serial) > 0 && Has(STREAM, s.reader, k, SentBy(s.net, k) + 1)
    requires Expected(s.reader, SentBy(s.net, k) + 1)
    ensures Run(c, STREAM, s0, events1, s1)
    ensures x == Content(STREAM, s.reader, k, SentBy(s.net, k) + 1)
    ensures var r := s.reader.(cursor := Cursor(x, SentBy(s.net, k) + 1), accepted := s.reader.accepted + [x]);
            var sent := s.(reader := r, net := Sends(s.net, k, s.reader.serial));
            s1 == (if c.callback then Publish(c, sent, PullFn(s.info, 1)) else sent.(queued := s.queued + [PullFn(s.info, 1)]))
  {
    s1, x := Receives(c, s, k);
    var more := [ServerSends(k, s.reader.serial), Arrives(|s.net.flights|)];
    Together(c, s0, events, s, more, s1);
    events1 := events + more;
  }

  // ----- an iterator

  lemma FirstPublish(c: Config, s0: St)
    requires s0 == St(Begin(1), 1, 4, [PullFn(1, 4)], {}, 0, [], Net(map[], map[], [], []))
    ensures Possible(STREAM, s0, IteratorRuns)
    ensures var s1 := Step(c, STREAM, s0, IteratorRuns);
            Client(s1, Reader(1, Cursor(0, 0), map[1 := 1], []), 1, [], {}, []) && Server(s1, 4, 0, 0, 0, 0)
  {
    var s1 := Step(c, STREAM, s0, IteratorRuns);
    assert s1 == RunQueued(c, s0);
    hide Step;
    assert s0.queued[1..] == [];
    assert s1.net.credit == map[(1, 1) := 4];
  }

  /** The first pull, of 4, is published. */
  lemma FirstPull() returns (events: seq<Event>, s: St)
    ensures Run(Four(false, false), STREAM, Initial(Four(false, false), 1), events, s)
    ensures Client(s, Reader(1, Cursor(0, 0), map[1 := 1], []), 1, [], {}, [])
    ensures Server(s, 4, 0, 0, 0, 0)
  {
    hide Run;
    var c := Four(false, false);
    var s0 := Initial(c, 1);
    assert s0 == St(Begin(1), 1, 4, [PullFn(1, 4)], {}, 0, [], Net(map[], map[], [], []));
    Nothing(c, s0);
    FirstPublish(c, s0);
    hide Initial, Step, Possible, Client, Server;
    events, s := Then(c, s0, [], s0, IteratorRuns);
  }

  /** Message 1 arrives, and a pull of 1 waits in the iterator. */
  lemma StaleRunStarts() returns (events: seq<Event>, s: St)
    ensures Run(Four(false, false), STREAM, Initial(Four(false, false), 1), events, s)
    ensures Client(s, Reader(1, Cursor(1, 1), map[1 := 1], [1]), 1, [PullFn(1, 1)], {}, [])
    ensures Server(s, 3, 0, 0, 1, 0)
  {
    hide Run, Initial;
    StreamFrom();
    var c := Four(false, false);
    events, s := FirstPull();
    var x;
    events, s, x := ThenReceives(c, Initial(c, 1), events, s, 1);
  }

  /** Message 2 arrives, and two pulls of 1 wait. */
  lemma StaleRunQueues() returns (events: seq<Event>, s: St)
    ensures Run(Four(false, false), STREAM, Initial(Four(false, false), 1), events, s)
    ensures Client(s, Reader(1, Cursor(2, 2), map[1 := 1], [1, 2]), 1, [PullFn(1, 1), PullFn(1, 1)], {}, [])
    ensures Server(s, 2, 0, 0, 2, 0)
  {
    hide Run, Initial;
    StreamFrom();
    var c := Four(false, false);
    events, s := StaleRunStarts();
    var x;
    events, s, x := ThenReceives(c, Initial(c, 1), events, s, 1);
  }

  /** The loss of message 3 shows. */
  lemma StaleRunBegins() returns (events: seq<Event>, s: St)
    ensures Run(Four(false, false), STREAM, Initial(Four(false, false), 1), events, s)
    ensures Client(s, Reader(2, Cursor(2, 0), map[1 := 1, 2 := 3], [1, 2]), 1, [PullFn(1, 1), PullFn(1, 1)], {2}, [])
    ensures Server(s, 0, 0, 0, 4, 0)
  {
    hide Run;
    StreamFrom();
    var c := Four(false, false);
    var s0 := Initial(c, 1);
    events, s := StaleRunQueues();
    var more, s1 := Gap(c, s, 1);
    Together(c, s0, events, s, more, s1);
    events, s := events + more, s1;
  }

  /** Both pulls are published with the new inbox; then the new consumer is pulled from, for 0. */
  lemma StaleRunPulls() returns (events: seq<Event>, s: St)
    ensures Run(Four(false, false), STREAM, Initial(Four(false, false), 1), events, s)
    ensures Client(s, Reader(2, Cursor(2, 0), map[1 := 1, 2 := 3], [1, 2]), 2, [], {}, [])
    ensures Server(s, 0, 2, 0, 4, 0)
  {
    hide Run;
    var c := Four(false, false);
    var s0 := Initial(c, 1);
    events, s := StaleRunBegins();
    events, s := Then(c, s0, events, s, IteratorRuns);
    events, s := Then(c, s0, events, s, IteratorRuns);
    events, s := Then(c, s0, events, s, Created(2));
    events, s := Then(c, s0, events, s, IteratorRuns);
  }

  /** One of the two requests expires; what it did not bring is pulled from the new consumer. */
  lemma StaleRunExpires() returns (events: seq<Event>, s: St)
    ensures Run(Four(false, false), STREAM, Initial(Four(false, false), 1), events, s)
    ensures Client(s, Reader(2, Cursor(2, 0), map[1 := 1, 2 := 3], [1, 2]), 2, [PullFn(2, 1)], {}, [])
    ensures Server(s, 0, 1, 0, 4, 0)
  {
    hide Run;
    var c := Four(false, false);
    var s0 := Initial(c, 1);
    events, s := StaleRunPulls();
    var n := |s.net.notices|;
    events, s := Then(c, s0, events, s, RequestEnds(1, 2, 1));
    events, s := Then(c, s0, events, s, StatusArrives(n, false));
  }

  /** The new consumer delivers 3, 4, 5 and 6. */
  lemma StaleRunDelivers() returns (events: seq<Event>, s: St)
    ensures Run(Four(false, false), STREAM, Initial(Four(false, false), 1), events, s)
    ensures Client(s, Reader(2, Cursor(6, 4), map[1 := 1, 2 := 3], [1, 2, 3, 4, 5, 6]), 2, [PullFn(2, 1)], {}, [])
    ensures Server(s, 0, 1, 0, 4, 4)
  {
    hide Run, Step, Possible;
    StreamFrom();
    var c := Four(false, false);
    var s0 := Initial(c, 1);
    events, s := StaleRunExpires();
    var n := 0;
    while n < 4
      invariant 0 <= n <= 4 && Run(c, STREAM, s0, events, s)
      invariant Client(s, Reader(2, Cursor(2 + n, n), map[1 := 1, 2 := 3], [1, 2, 3, 4, 5, 6][..2 + n]), 2, [PullFn(2, 1)], {}, [])
      invariant Server(s, 0, 1, 0, 4, n)
    {
      var more, s1 := Round(c, s);
      Together(c, s0, events, s, more, s1);
      events, s, n := events + more, s1, n + 1;
    }
  }

  /** Message 5 of the replaced consumer has the expected number: 1 to 6 is handed on, and then 5 again. */
  lemma StaleRunRepeats() returns (events: seq<Event>, s: St)
    ensures Run(Four(false, false), STREAM, Initial(Four(false, false), 1), events, s)
    ensures s.reader.accepted == [1, 2, 3, 4, 5, 6, 5]
  {
    hide Run;
    StreamFrom();
    var c := Four(false, false);
    var s0 := Initial(c, 1);
    events, s := StaleRunDelivers();
    var x;
    events, s, x := ThenReceives(c, s0, events, s, 1);
  }

  // ----- a callback, with an info that is answered late

  /** Message 1 arrives, and the info of consumer 1 is awaited. */
  lemma LateInfoStarts() returns (events: seq<Event>, s: St)
    ensures Run(Four(true, true), STREAM, Initial(Four(true, true), 1), events, s)
    ensures Client(s, Reader(1, Cursor(1, 1), map[1 := 1], [1]), 1, [], {}, [Ask(1, true)])
    ensures CreditOf(s.net, 1, 1) == 4 && SentBy(s.net, 1) == 1
    ensures s.net.credit.Keys == {(1, 1)} && s.net.sent.Keys == {1}
  {
    hide Run;
    StreamFrom();
    var c := Four(true, true);
    var s0 := Initial(c, 1);
    Nothing(c, s0);
    var x;
    events, s, x := ThenReceives(c, s0, [], s0, 1);
    events, s := Then(c, s0, events, s, InfoAsked(true));
  }

  /** The loss of message 2 shows. */
  lemma LateInfoBegins() returns (events: seq<Event>, s: St)
    ensures Run(Four(true, true), STREAM, Initial(Four(true, true), 1), events, s)
    ensures Client(s, Reader(2, Cursor(1, 0), map[1 := 1, 2 := 2], [1]), 1, [], {2}, [Ask(1, true)])
    ensures Server(s, 2, 0, 0, 3, 0)
    ensures s.net.credit.Keys == {(1, 1)} && s.net.sent.Keys == {1}
  {
    hide Run, Initial;
    StreamFrom();
    var c := Four(true, true);
    events, s := LateInfoStarts();
    var more, s1 := Gap(c, s, 1);
    Together(c, Initial(c, 1), events, s, more, s1);
    events, s := events + more, s1;
  }

  /** `resetPending` pulls from consumer 1, to the new inbox; later it pulls from the new consumer. */
  lemma LateInfoPulls() returns (events: seq<Event>, s: St)
    ensures Run(Four(true, true), STREAM, Initial(Four(true, true), 1), events, s)
    ensures Client(s, Reader(2, Cursor(1, 0), map[1 := 1, 2 := 2], [1]), 2, [], {}, [])
    ensures Server(s, 2, 4, 4, 3, 0)
  {
    hide Run;
    var c := Four(true, true);
    var s0 := Initial(c, 1);
    events, s := LateInfoBegins();
    events, s := Then(c, s0, events, s, InfoAnswered(0));
    events, s := Then(c, s0, events, s, Created(2));
    events, s := Then(c, s0, events, s, InfoAsked(true));
    events, s := Then(c, s0, events, s, InfoAnswered(0));
  }

  /** Message 4 of the replaced consumer has the expected number: 1, 2, 3, 4 is handed on, and then 4 again. */
  lemma LateInfoRepeats() returns (events: seq<Event>, s: St)
    ensures Run(Four(true, true), STREAM, Initial(Four(true, true), 1), events, s)
    ensures s.reader.accepted == [1, 2, 3, 4, 4]
  {
    hide Run, Initial;
    StreamFrom();
    var c := Four(true, true);
    var s0 := Initial(c, 1);
    events, s := LateInfoPulls();
    var x;
    events, s, x := ThenReceives(c, s0, events, s, 2);
    events, s, x := ThenReceives(c, s0, events, s, 2);
    events, s, x := ThenReceives(c, s0, events, s, 2);
    events, s, x := ThenReceives(c, s0, events, s, 1);
  }

  // ----- a callback, with a consumer that is not found, although replaced consumers are deleted

  /** Consumer 1 is not found while consumer 2 is being created: the client starts over once more. */
  lemma NotFoundBegins() returns (events: seq<Event>, s: St)
    ensures Run(Four(true, true), STREAM, Initial(Four(true, true), 1), events, s)
    ensures Client(s, Reader(3, Cursor(1, 0), map[1 := 1, 2 := 2, 3 := 2], [1]), 1, [], {2, 3}, [])
    ensures s.net.credit.Keys == {(1, 1)} && s.net.sent.Keys == {1}
  {
    hide Run;
    var c := Four(true, true);
    events, s := LateInfoBegins();
    events, s := Then(c, Initial(c, 1), events, s, InfoNotFound(0));
  }

  /** The creation of consumer 3 is answered first; after missed heartbeats it is pulled from. */
  lemma NotFoundPulls() returns (events: seq<Event>, s: St)
    ensures Run(Four(true, true), STREAM, Initial(Four(true, true), 1), events, s)
    ensures Client(s, Reader(3, Cursor(1, 0), map[1 := 1, 2 := 2, 3 := 2], [1]), 3, [], {2}, [])
    ensures CreditOf(s.net, 3, 3) == 4 && SentBy(s.net, 3) == 0 && SentBy(s.net, 2) == 0 && CreditOf(s.net, 2, 4) == 0
  {
    hide Run;
    var c := Four(true, true);
    var s0 := Initial(c, 1);
    events, s := NotFoundBegins();
    events, s := Then(c, s0, events, s, Created(3));
    events, s := Then(c, s0, events, s, InfoAsked(true));
    events, s := Then(c, s0, events, s, InfoAnswered(0));
  }

  /** Consumer 3 delivers 2 and 3, and is replaced by consumer 4 when the loss of 4 shows. */
  lemma NotFoundGap() returns (events: seq<Event>, s: St)
    ensures Run(Four(true, true), STREAM, Initial(Four(true, true), 1), events, s)
    ensures Client(s, Reader(4, Cursor(3, 0), map[1 := 1, 2 := 2, 3 := 2, 4 := 4], [1, 2, 3]), 3, [], {2, 4}, [])
    ensures SentBy(s.net, 2) == 0 && CreditOf(s.net, 2, 4) == 0
  {
    hide Run, Initial;
    StreamFrom();
    var c := Four(true, true);
    var s0 := Initial(c, 1);
    events, s := NotFoundPulls();
    var x;
    events, s, x := ThenReceives(c, s0, events, s, 3);
    events, s, x := ThenReceives(c, s0, events, s, 3);
    var more, s1 := Gap(c, s, 3);
    Together(c, s0, events, s, more, s1);
    events, s := events + more, s1;
  }

  /**
   * The creation of consumer 2 is answered now, and it is pulled from: 1, 2, 3 is handed on, and then
   * 2 again.
   */
  lemma NotFoundRepeats() returns (events: seq<Event>, s: St)
    ensures Run(Four(true, true), STREAM, Initial(Four(true, true), 1), events, s)
    ensures s.reader.accepted == [1, 2, 3, 2]
  {
    hide Run, Initial;
    StreamFrom();
    var c := Four(true, true);
    var s0 := Initial(c, 1);
    events, s := NotFoundGap();
    events, s := Then(c, s0, events, s, Created(2));
    events, s := Then(c, s0, events, s, InfoAsked(true));
    events, s := Then(c, s0, events, s, InfoAnswered(0));
    var x;
    events, s, x := ThenReceives(c, s0, events, s, 2);
  }

  // ----- exactly

  /** Over every limit, threshold, server, stream, start, loss, repetition, reordering and number of resets. */
  ghost predicate AlwaysPrefix(callback: bool, overlaps: bool) {
    forall c: Config, log, start, events, s ::
      c.callback == callback && (c.overlaps ==> overlaps) && Increasing(log) && Run(c, log, Initial(c, start), events, s)
      ==> IsPrefix(log, start, s.reader)
  }

  /**
   * Ordered pull has the prefix property exactly when it is given a callback and no recovery or
   * request for the consumer's info overlaps a replacement of the consumer.
   */
  lemma {:induction false} OrderedPullExact(callback: bool, overlaps: bool)
    ensures AlwaysPrefix(callback, overlaps) <==> callback && !overlaps
  {
    hide Run, Initial;
    if callback && !overlaps {
      forall c: Config, log, start, events, s |
        c.callback == callback && (c.overlaps ==> overlaps) && Increasing(log) && Run(c, log, Initial(c, start), events, s)
        ensures IsPrefix(log, start, s.reader)
      {
        OrderedPullCallback(c, log, start, events, s);
      }
    } else {
      StreamFrom();
      var events, s;
      if callback {
        events, s := LateInfoRepeats();
        assert s.reader.accepted[4] != From(STREAM, 1)[4];
      } else {
        events, s := StaleRunRepeats();
      }
      assert Increasing(STREAM) && !IsPrefix(STREAM, 1, s.reader);
    }
  }
}
