/**
 * The queue behind every subscription and consumer (core/src/queued_iterator.ts) as a state
 * machine. `iterate` is an async generator: it runs from one suspension, at `await this.signal`
 * or at `yield`, to the next, and pushes and stops come in between.
 */
module IteratorSpec {
  import opened Bytes

  /** What a callback in the queue does when it runs. */
  datatype Effect = Returns | Stops(err: bool) | Throws

  datatype Item<T> = Value(v: T) | Callback(id: nat, effect: Effect)

  datatype Where = NotStarted | Awaiting | Yielding | Finished

  /**
   * `rest` is what is left of the batch being yielded, `queue` the source's `yields`. `accepted`
   * are the pushes that were not refused, `handled` the values yielded and callbacks run.
   */
  datatype Iter<T> = Iter(
    pc: Where, rest: seq<Item<T>>, queue: seq<Item<T>>, resolved: bool, done: bool, err: bool,
    accepted: seq<Item<T>>, handled: seq<Item<T>>)

  function Unstarted<T>(): Iter<T> {
    Iter(NotStarted, [], [], false, false, false, [], [])
  }

  // ----- the steps

  function Stop<T>(s: Iter<T>, error: bool): Iter<T> {
    if s.done then s else s.(done := true, err := error, resolved := true)
  }

  function Push<T>(s: Iter<T>, x: Item<T>): Iter<T> {
    if s.done then s else s.(queue := s.queue + [x], resolved := true, accepted := s.accepted + [x])
  }

  /** The `finally` block. */
  function Finish<T>(s: Iter<T>): Iter<T> {
    Stop(s, false).(pc := Finished)
  }

  /** An error is looked for behind each callback, whoever set it. */
  function RunCallback<T>(s: Iter<T>, effect: Effect): Iter<T> {
    if effect.Throws? then Finish(s)
    else
      var s1 := if effect.Stops? then Stop(s, effect.err) else s;
      if s1.err then Finish(s1) else s1
  }

  /** The next item is yielded, or its callback runs. */
  function HandleItem<T>(s: Iter<T>): (Iter<T>, Option<T>)
    requires s.rest != []
  {
    var s1 := s.(rest := s.rest[1..], handled := s.handled + [s.rest[0]]);
    match s.rest[0]
    case Value(v) => (s1, Some(v))
    case Callback(_, effect) => (RunCallback(s1, effect), None)
  }

  /** The `for` loop over the batch, until it yields, ends or throws. */
  function RunBatch<T>(s: Iter<T>): (Iter<T>, Option<T>)
    decreases |s.rest|
  {
    if s.rest == [] then (s, None)
    else
      var (s1, r) := HandleItem(s);
      if r.Some? || s1.pc == Finished then (s1, r) else RunBatch(s1)
  }

  /** The rest of a batch, and the end of the loop behind it. */
  function FinishBatch<T>(s: Iter<T>): (Iter<T>, Option<T>) {
    var (s1, r) := RunBatch(s);
    if r.Some? || s1.pc == Finished then (s1, r)
    else if s1.done then (Finish(s1), None)
    else (s1.(pc := Awaiting, resolved := s1.resolved && s1.queue != []), None)
  }

  /** The top of the loop, with items in the queue or woken up. */
  function NextBatch<T>(s: Iter<T>): (Iter<T>, Option<T>) {
    if s.err then (Finish(s), None) else FinishBatch(s.(pc := Yielding, rest := s.queue, queue := []))
  }

  predicate CanResume<T>(s: Iter<T>) {
    s.pc != Finished && (s.pc == Awaiting ==> s.resolved)
  }

  /** From one suspension to the next. */
  function Resume<T>(s: Iter<T>): (Iter<T>, Option<T>)
    requires CanResume(s)
  {
    match s.pc
    case NotStarted => if s.queue == [] then (s.(pc := Awaiting), None) else NextBatch(s)
    case Awaiting => NextBatch(s)
    case _ =>
      var (s1, r) := FinishBatch(s);
      if s1.pc != Awaiting || s1.queue == [] then (s1, r) else NextBatch(s1)
  }

  datatype Event<T> = DoPush(x: Item<T>) | DoStop(error: bool) | DoResume | DoBreak

  predicate Enabled<T>(s: Iter<T>, e: Event<T>) {
    match e
    case DoPush(_) => true
    case DoStop(_) => true
    case DoResume => CanResume(s)
    case DoBreak => s.pc == Yielding
  }

  function Step<T>(s: Iter<T>, e: Event<T>): (Iter<T>, Option<T>)
    requires Enabled(s, e)
  {
    match e
    case DoPush(x) => (Push(s, x), None)
    case DoStop(error) => (Stop(s, error), None)
    case DoResume => Resume(s)
    case DoBreak => (Finish(s), None)
  }

  /** A run and the values it yields. */
  predicate Run<T(==)>(s: Iter<T>, events: seq<Event<T>>, s1: Iter<T>, out: seq<T>)
    decreases |events|
  {
    if events == [] then s1 == s && out == []
    else
      && Enabled(s, events[0])
      && var (s0, r) := Step(s, events[0]);
         if r.Some? then out != [] && out[0] == r.value && Run(s0, events[1..], s1, out[1..])
         else Run(s0, events[1..], s1, out)
  }

  // ----- order and conservation

  function Values<T>(items: seq<Item<T>>): seq<T> {
    if items == [] then []
    else
      var last := items[|items| - 1];
      Values(items[..|items| - 1]) + if last.Value? then [last.v] else []
  }

  lemma {:induction false} ValuesConcat<T>(a: seq<Item<T>>, b: seq<Item<T>>)
    ensures Values(a + b) == Values(a) + Values(b)
  {
    if b == [] {
      assert a + b == a;
    } else {
      var n := |b| - 1;
      ValuesConcat(a, b[..n]);
      assert (a + b)[..|a| + n] == a + b[..n] && (a + b)[|a| + n] == b[n];
      Reassociate(Values(a), Values(b[..n]), if b[n].Value? then [b[n].v] else []);
    }
  }

  lemma ValuesOne<T>(x: Item<T>)
    ensures Values([x]) == if x.Value? then [x.v] else []
  {
    assert [x][..0] == [];
  }

  predicate Inv<T(==)>(s: Iter<T>) {
    && s.handled + s.rest + s.queue == s.accepted
    && (s.pc == NotStarted || s.pc == Awaiting ==> s.rest == [])
    && (s.pc == Finished ==> s.done)
    && (s.err ==> s.done)
    && (s.queue != [] || s.done ==> s.resolved)
    && (s.pc == NotStarted || s.pc == Awaiting ==> (s.resolved <==> s.queue != [] || s.done))
  }

  /** What a part of the generator's run does: items leave `rest` in order, and values are yielded. */
  predicate Ran<T(==)>(s: Iter<T>, s1: Iter<T>, r: Option<T>) {
    && s1.accepted == s.accepted
    && s.handled <= s1.handled
    && Values(s1.handled) == Values(s.handled) + (if r.Some? then [r.value] else [])
    && (if r.Some? then s1.pc == Yielding else s1.pc == Awaiting || s1.pc == Finished)
    && (s.done ==> s1.done && s1.err == s.err)
  }

  lemma {:induction false} HandleItemRan<T>(s: Iter<T>)
    requires Inv(s) && s.pc == Yielding && s.rest != []
    ensures var (s1, r) := HandleItem(s);
            && Inv(s1) && s1.accepted == s.accepted && s.handled <= s1.handled
            && Values(s1.handled) == Values(s.handled) + (if r.Some? then [r.value] else [])
            && (s1.pc == Yielding || (r.None? && s1.pc == Finished))
            && s1.queue == s.queue && (s.done ==> s1.done && s1.err == s.err)
  {
    hide Values;
    var x := s.rest[0];
    assert s.rest == [x] + s.rest[1..];
    assert s.handled + ([x] + s.rest[1..]) + s.queue == (s.handled + [x]) + s.rest[1..] + s.queue;
    ValuesConcat(s.handled, [x]);
    ValuesOne(x);
  }

  lemma {:induction false} RunBatchRan<T>(s: Iter<T>)
    requires Inv(s) && s.pc == Yielding
    ensures var (s1, r) := RunBatch(s);
            && Inv(s1) && s1.accepted == s.accepted && s.handled <= s1.handled
            && Values(s1.handled) == Values(s.handled) + (if r.Some? then [r.value] else [])
            && (if s1.pc == Finished then r.None? else s1.pc == Yielding && (r.None? ==> s1.rest == []))
            && s1.queue == s.queue && (s.done ==> s1.done && s1.err == s.err)
    decreases |s.rest|
  {
    if s.rest != [] {
      hide HandleItem, Values, Inv;
      HandleItemRan(s);
      var (s1, r) := HandleItem(s);
      HandleItemShrinks(s);
      if r.None? && s1.pc != Finished {
        RunBatchRan(s1);
      }
    }
  }

  lemma HandleItemShrinks<T>(s: Iter<T>)
    requires s.rest != []
    ensures HandleItem(s).0.rest == s.rest[1..]
  {
  }

  lemma FinishBatchRan<T>(s: Iter<T>)
    requires Inv(s) && s.pc == Yielding
    ensures var (s1, r) := FinishBatch(s);
            Inv(s1) && Ran(s, s1, r) && (s1.pc == Awaiting ==> s1.queue == s.queue)
  {
    hide RunBatch, Values;
    RunBatchRan(s);
    var (s1, r) := RunBatch(s);
    var (s2, r2) := FinishBatch(s);
    assert Inv(s1);
    assert s2.accepted == s1.accepted && s2.handled == s1.handled && r2 == r;
    assert s1.pc == Finished ==> s2 == s1;
    assert Inv(s2);
  }

  lemma NextBatchRan<T>(s: Iter<T>)
    requires Inv(s) && s.pc != Yielding && CanResume(s)
    ensures var (s1, r) := NextBatch(s);
            Inv(s1) && Ran(s, s1, r) && (s1.pc == Awaiting ==> s1.queue == [])
  {
    hide FinishBatch, Values;
    if !s.err {
      var s0 := s.(pc := Yielding, rest := s.queue, queue := []);
      assert s0.handled + s0.rest + s0.queue == s.handled + s.rest + s.queue;
      FinishBatchRan(s0);
    }
  }

  /** One suspension to the next: order is kept, and when it waits everything accepted was handled. */
  lemma ResumeRan<T>(s: Iter<T>)
    requires Inv(s) && CanResume(s)
    ensures var (s1, r) := Resume(s);
            && Inv(s1) && Ran(s, s1, r)
            && (s1.pc == Awaiting ==> s1.handled == s1.accepted && s1.resolved == s1.done)
  {
    hide FinishBatch, NextBatch, Values;
    if s.pc == Yielding {
      FinishBatchRan(s);
      var (s1, r) := FinishBatch(s);
      if s1.pc == Awaiting && s1.queue != [] {
        NextBatchRan(s1);
      }
    } else if !(s.pc == NotStarted && s.queue == []) {
      NextBatchRan(s);
    }
  }

  lemma StepRan<T>(s: Iter<T>, e: Event<T>)
    requires Inv(s) && Enabled(s, e)
    ensures var (s1, r) := Step(s, e);
            && Inv(s1) && Values(s1.handled) == Values(s.handled) + (if r.Some? then [r.value] else [])
            && s.accepted <= s1.accepted && s.handled <= s1.handled
  {
    hide Resume, Values;
    match e {
      case DoPush(x) =>
        assert s.handled + s.rest + s.queue + [x] == s.handled + s.rest + (s.queue + [x]);
      case DoResume => ResumeRan(s);
      case _ =>
    }
  }

  lemma {:induction false} RunRan<T>(s: Iter<T>, events: seq<Event<T>>, s1: Iter<T>, out: seq<T>)
    requires Inv(s) && Run(s, events, s1, out)
    ensures Inv(s1) && Values(s1.handled) == Values(s.handled) + out
    decreases |events|
  {
    if events != [] {
      hide Inv, Step, Values;
      StepRan(s, events[0]);
      var (s0, r) := Step(s, events[0]);
      if r.Some? {
        RunRan(s0, events[1..], s1, out[1..]);
        assert out == [r.value] + out[1..];
        Reassociate(Values(s.handled), [r.value], out[1..]);
      } else {
        RunRan(s0, events[1..], s1, out);
      }
    }
  }

  /** Over every run the consumer gets exactly the values among the first accepted items, in order. */
  lemma YieldedInOrder<T>(events: seq<Event<T>>, s: Iter<T>, out: seq<T>)
    requires Run(Unstarted(), events, s, out)
    ensures s.handled + s.rest + s.queue == s.accepted && out == Values(s.handled)
    ensures s.pc == Awaiting && !CanResume(s) ==> out == Values(s.accepted) && !s.done
  {
    RunRan(Unstarted(), events, s, out);
    if s.pc == Awaiting && !s.resolved {
      assert s.handled + s.rest + s.queue == s.handled;
    }
  }

  // ----- which items are handled before the iterator ends

  /** A batch is handled up to a callback that throws, or behind which there is an error. */
  function Handles<T>(items: seq<Item<T>>, done: bool, err: bool): seq<Item<T>> {
    if items == [] then []
    else
      var x := items[0];
      var err1 := if x.Callback? && x.effect.Stops? && !done then x.effect.err else err;
      var done1 := done || (x.Callback? && x.effect.Stops?);
      if x.Callback? && (x.effect.Throws? || err1) then [x] else [x] + Handles(items[1..], done1, err1)
  }

  /** A callback that ends the iterator or makes it done. */
  predicate Ends<T>(x: Item<T>) {
    x.Callback? && x.effect != Returns
  }

  predicate Ended<T>(items: seq<Item<T>>) {
    exists i :: 0 <= i < |items| && Ends(items[i])
  }

  /** What will be handled, if nothing more is pushed and nobody else stops or leaves. */
  function Ahead<T>(s: Iter<T>): seq<Item<T>> {
    match s.pc
    case Finished => []
    case Yielding =>
      if s.done || Ended(s.rest) then Handles(s.rest, s.done, s.err) else s.rest + Handles(s.queue, false, false)
    case _ => if s.err then [] else Handles(s.queue, s.done, false)
  }

  lemma {:induction false} HandlesAll<T>(items: seq<Item<T>>, done: bool)
    requires !Ended(items) || (done && forall i :: 0 <= i < |items| && items[i].Callback? ==> !items[i].effect.Throws?)
    ensures Handles(items, done, false) == items
  {
    if items != [] {
      forall i | 0 <= i < |items[1..]| ensures items[1..][i] == items[i + 1] {
      }
      HandlesAll(items[1..], done);
    }
  }

  /** A part of a batch: what it will handle is what was handled and what it will handle then. */
  predicate Along<T(==)>(s: Iter<T>, s1: Iter<T>) {
    && (if s1.pc == Finished then s1.handled == s.handled + Handles(s.rest, s.done, s.err)
        else s1.handled + Handles(s1.rest, s1.done, s1.err) == s.handled + Handles(s.rest, s.done, s.err))
    && (!s1.done ==> !s.done && s1.handled + s1.rest == s.handled + s.rest && (Ended(s.rest) <==> Ended(s1.rest)))
    && (s1.done && !s.done ==> Ended(s.rest))
  }

  lemma EndedHead<T>(items: seq<Item<T>>)
    requires items != []
    ensures Ended(items) <==> Ends(items[0]) || Ended(items[1..])
  {
    if Ended(items[1..]) {
      var i :| 0 <= i < |items[1..]| && Ends(items[1..][i]);
      assert Ends(items[i + 1]);
    }
    if Ended(items) {
      var i :| 0 <= i < |items| && Ends(items[i]);
      assert i > 0 ==> items[1..][i - 1] == items[i];
    }
  }

  lemma {:induction false} HandleItemAlong<T>(s: Iter<T>)
    requires Inv(s) && s.pc == Yielding && s.rest != []
    ensures Along(s, HandleItem(s).0)
  {
    assert s.err ==> s.done;
    hide Ended, Inv;
    EndedHead(s.rest);
    var s1 := HandleItem(s).0;
    var x, rest := s.rest[0], s.rest[1..];
    assert s.rest == [x] + rest;
    HandlesOne(x, rest, s.done, s.err);
    hide Handles;
    Reassociate(s.handled, [x], Handles(rest, s1.done, s1.err));
    Reassociate(s.handled, [x], rest);
  }

  lemma HandlesOne<T>(x: Item<T>, rest: seq<Item<T>>, done: bool, err: bool)
    ensures var err1 := if x.Callback? && x.effect.Stops? && !done then x.effect.err else err;
            var done1 := done || (x.Callback? && x.effect.Stops?);
            Handles([x] + rest, done, err) ==
              if x.Callback? && (x.effect.Throws? || err1) then [x] else [x] + Handles(rest, done1, err1)
  {
    assert ([x] + rest)[1..] == rest;
  }

  lemma {:induction false} RunBatchAlong<T>(s: Iter<T>)
    requires Inv(s) && s.pc == Yielding
    ensures Along(s, RunBatch(s).0)
    decreases |s.rest|
  {
    if s.rest != [] {
      hide HandleItem, Inv, Handles, Ended;
      HandleItemRan(s);
      HandleItemAlong(s);
      HandleItemShrinks(s);
      var (s1, r) := HandleItem(s);
      if r.None? && s1.pc != Finished {
        RunBatchAlong(s1);
      }
    }
  }

  lemma NothingEnds<T>(items: seq<Item<T>>)
    requires items == []
    ensures !Ended(items)
  {
  }

  /** `FinishBatch` when the batch does not end the iterator at once. */
  lemma FinishBatchAlong<T>(s: Iter<T>)
    requires Inv(s) && s.pc == Yielding
    ensures var s1 := FinishBatch(s).0;
            s1.pc != Awaiting ==> s1.handled + Ahead(s1) == s.handled + Ahead(s)
    ensures var s1 := FinishBatch(s).0;
            s1.pc == Awaiting ==> !s1.done && s1.handled == s.handled + s.rest && s1.queue == s.queue && !s.done && !Ended(s.rest)
  {
    hide RunBatch, Ended, Values;
    RunBatchRan(s);
    RunBatchAlong(s);
    var (s1, r) := RunBatch(s);
    if s1.pc == Yielding && !s1.done {
      if s1.rest == [] {
        NothingEnds(s1.rest);
      }
      assert s.handled + (s.rest + Handles(s.queue, false, false)) == (s.handled + s.rest) + Handles(s.queue, false, false);
      assert s1.handled + (s1.rest + Handles(s.queue, false, false)) == (s1.handled + s1.rest) + Handles(s.queue, false, false);
      assert s1.rest == [] ==> s1.handled + s1.rest == s1.handled;
    }
  }

  lemma NextBatchAlong<T>(s: Iter<T>)
    requires Inv(s) && s.pc != Yielding && CanResume(s)
    ensures var s1 := NextBatch(s).0; s1.handled + Ahead(s1) == s.handled + Ahead(s)
  {
    hide FinishBatch, Ended, Values;
    if !s.err {
      var s0 := s.(pc := Yielding, rest := s.queue, queue := []);
      assert s0.handled + s0.rest + s0.queue == s.handled + s.rest + s.queue;
      FinishBatchRan(s0);
      FinishBatchAlong(s0);
      if !s.done && !Ended(s.queue) {
        HandlesAll(s.queue, false);
        assert s0.rest + Handles(s0.queue, false, false) == s.queue;
      }
      var s1 := FinishBatch(s0).0;
      if s1.pc == Awaiting {
        assert Handles(s1.queue, false, false) == [];
      }
    }
  }

  /** The generator handles what is ahead of it, in order, and nothing else. */
  lemma ResumeAlong<T>(s: Iter<T>)
    requires Inv(s) && CanResume(s)
    ensures var s1 := Resume(s).0; s1.handled + Ahead(s1) == s.handled + Ahead(s)
  {
    hide FinishBatch, NextBatch, Handles, Ended, Values;
    if s.pc == Yielding {
      FinishBatchRan(s);
      FinishBatchAlong(s);
      var (s1, r) := FinishBatch(s);
      if s1.pc == Awaiting {
        assert s.handled + (s.rest + Handles(s.queue, false, false)) == (s.handled + s.rest) + Handles(s.queue, false, false);
        if s1.queue != [] {
          NextBatchAlong(s1);
        }
      }
    } else if !(s.pc == NotStarted && s.queue == []) {
      NextBatchAlong(s);
    }
  }

  // ----- an iterator that only its own callbacks stop

  predicate StoppedInside<T>(s: Iter<T>) {
    s.done <==> Ended(s.handled)
  }

  lemma EndedPush<T>(items: seq<Item<T>>, x: Item<T>)
    ensures Ended(items + [x]) <==> Ended(items) || Ends(x)
  {
    if Ended(items) {
      var i :| 0 <= i < |items| && Ends(items[i]);
      assert Ends((items + [x])[i]);
    }
    if Ends(x) {
      assert Ends((items + [x])[|items|]);
    }
  }

  lemma {:induction false} RunBatchInside<T>(s: Iter<T>)
    requires Inv(s) && s.pc == Yielding && StoppedInside(s)
    ensures StoppedInside(RunBatch(s).0)
    decreases |s.rest|
  {
    if s.rest != [] {
      hide Inv, Ended, Values;
      EndedPush(s.handled, s.rest[0]);
      HandleItemRan(s);
      if HandleItem(s).0.pc == Yielding && HandleItem(s).1.None? {
        HandleItemShrinks(s);
        RunBatchInside(HandleItem(s).0);
      }
    }
  }

  lemma NextBatchInside<T>(s: Iter<T>)
    requires Inv(s) && s.pc != Yielding && CanResume(s) && StoppedInside(s)
    ensures StoppedInside(NextBatch(s).0)
  {
    hide RunBatch, Ended;
    if !s.err {
      var s0 := s.(pc := Yielding, rest := s.queue, queue := []);
      assert s0.handled + s0.rest + s0.queue == s.handled + s.rest + s.queue;
      RunBatchInside(s0);
      RunBatchRan(s0);
    }
  }

  /** Resuming makes an iterator done exactly by running a callback that ends or stops it. */
  lemma ResumeInside<T>(s: Iter<T>)
    requires Inv(s) && CanResume(s) && StoppedInside(s)
    ensures StoppedInside(Resume(s).0)
  {
    hide RunBatch, NextBatch, Ended, Values;
    if s.pc == Yielding {
      RunBatchInside(s);
      RunBatchRan(s);
      FinishBatchRan(s);
      var s1 := FinishBatch(s).0;
      if s1.pc == Awaiting && s1.queue != [] {
        NextBatchInside(s1);
      }
    } else if !(s.pc == NotStarted && s.queue == []) {
      NextBatchInside(s);
    }
  }

  // ----- a stop

  /** The consumer does not leave its loop by itself. */
  predicate NoBreak<T>(events: seq<Event<T>>) {
    forall i :: 0 <= i < |events| ==> !events[i].DoBreak?
  }

  /** Once done, whatever is pushed and stopped, the iterator handles exactly what is ahead of it. */
  lemma {:induction false} DoneRun<T>(s: Iter<T>, events: seq<Event<T>>, s1: Iter<T>, out: seq<T>)
    requires Inv(s) && s.done && Run(s, events, s1, out) && NoBreak(events)
    ensures Inv(s1) && s1.done && s1.accepted == s.accepted && s1.handled + Ahead(s1) == s.handled + Ahead(s)
    decreases |events|
  {
    if events != [] {
      hide Inv, Resume, Ahead, Values;
      var (s0, r) := Step(s, events[0]);
      StepRan(s, events[0]);
      if events[0].DoResume? {
        ResumeRan(s);
        ResumeAlong(s);
      }
      DoneRun(s0, events[1..], s1, if r.Some? then out[1..] else out);
    }
  }

  /** The iterator's own callbacks do not throw. */
  predicate Harmless<T>(items: seq<Item<T>>) {
    forall i :: 0 <= i < |items| && items[i].Callback? ==> !items[i].effect.Throws?
  }

  /**
   * A stop without an error, and no callback that throws: when the iterator ends it has yielded
   * the batch it was in, and the queue too unless it was in the middle of a batch. So every
   * accepted item is handled exactly when nothing was pushed behind a batch being yielded.
   */
  lemma {:induction false} StopHandlesAllExactly<T>(
    before: seq<Event<T>>, s: Iter<T>, out: seq<T>, after: seq<Event<T>>, s1: Iter<T>, more: seq<T>)
    requires Run(Unstarted(), before, s, out) && !s.done && Harmless(s.rest + s.queue)
    requires Run(Stop(s, false), after, s1, more) && NoBreak(after) && s1.pc == Finished
    ensures s1.handled == s.handled + s.rest + (if s.pc == Yielding then [] else s.queue)
    ensures s1.handled == s1.accepted <==> s.pc != Yielding || s.queue == []
    ensures out + more == Values(s1.handled)
  {
    hide Run, Handles, Values;
    RunRan(Unstarted(), before, s, out);
    YieldedInOrder(before, s, out);
    var s0 := Stop(s, false);
    RunRan(s0, after, s1, more);
    DoneRun(s0, after, s1, more);
    assert forall i :: 0 <= i < |s.rest| ==> s.rest[i] == (s.rest + s.queue)[i];
    assert forall i :: 0 <= i < |s.queue| ==> s.queue[i] == (s.rest + s.queue)[|s.rest| + i];
    HandlesAll(s.rest, true);
    HandlesAll(s.queue, true);
    assert |s1.accepted| == |s.handled| + |s.rest| + |s.queue|;
  }

  /**
   * After a stop with an error, the batch being yielded is handled up to its next callback, and
   * nothing else.
   */
  lemma ErrorEnds<T>(before: seq<Event<T>>, s: Iter<T>, out: seq<T>, after: seq<Event<T>>, s1: Iter<T>, more: seq<T>)
    requires Run(Unstarted(), before, s, out) && !s.done
    requires Run(Stop(s, true), after, s1, more) && NoBreak(after) && s1.pc == Finished
    ensures s.pc != Yielding ==> s1.handled == s.handled
    ensures s.pc == Yielding ==> s.handled <= s1.handled <= s.handled + s.rest
    ensures s.pc == Yielding && |s1.handled| < |s.handled| + |s.rest| ==> |s1.handled| > |s.handled| && s1.handled[|s1.handled| - 1].Callback?
    ensures forall i :: |s.handled| <= i < |s1.handled| - 1 ==> s1.handled[i].Value?
  {
    hide Run, Handles, Values;
    RunRan(Unstarted(), before, s, out);
    DoneRun(Stop(s, true), after, s1, more);
    UpToCallback(s.rest);
    assert s1.handled == s1.handled + Ahead(s1);
    assert Ahead(Stop(s, true)) == if s.pc == Yielding then Handles(s.rest, true, true) else [];
  }

  lemma {:induction false} UpToCallback<T>(items: seq<Item<T>>)
    ensures var h := Handles(items, true, true);
            && h <= items && (items != [] ==> h != [])
            && (|h| < |items| ==> h[|h| - 1].Callback?)
            && forall i :: 0 <= i < |h| - 1 ==> h[i].Value?
  {
    if items != [] && items[0].Value? {
      UpToCallback(items[1..]);
      var h := Handles(items[1..], true, true);
      assert items == [items[0]] + items[1..];
      assert Handles(items, true, true) == [items[0]] + h;
    }
  }

  /** The item pushed last before a stop is handled exactly when the consumer is not inside its loop's body. */
  lemma PushThenStop<T>(before: seq<Event<T>>, s: Iter<T>, out: seq<T>, x: Item<T>, after: seq<Event<T>>, s1: Iter<T>, more: seq<T>)
    requires Run(Unstarted(), before, s, out) && !s.done && Harmless(s.rest + s.queue + [x])
    requires Run(Stop(Push(s, x), false), after, s1, more) && NoBreak(after) && s1.pc == Finished
    ensures s1.accepted == s.accepted + [x]
    ensures s1.handled == s1.accepted <==> s.pc != Yielding
  {
    hide Handles, Values;
    OnePush(s, x);
    RunRan(Unstarted(), before, s, out);
    StepRan(s, DoPush(x));
    hide Run;
    RunConcat(Unstarted(), before, s, out, [DoPush(x)], Push(s, x), []);
    assert s.rest + s.queue + [x] == s.rest + (s.queue + [x]);
    assert out + [] == out;
    StopHandlesAllExactly(before + [DoPush(x)], Push(s, x), out, after, s1, more);
    DoneRun(Stop(Push(s, x), false), after, s1, more);
  }

  lemma OnePush<T>(s: Iter<T>, x: Item<T>)
    ensures Run(s, [DoPush(x)], Push(s, x), [])
  {
    assert [DoPush(x)][1..] == [];
  }

  lemma {:induction false} RunConcat<T>(s: Iter<T>, a: seq<Event<T>>, s1: Iter<T>, out: seq<T>, b: seq<Event<T>>, s2: Iter<T>, more: seq<T>)
    requires Run(s, a, s1, out) && Run(s1, b, s2, more)
    ensures Run(s, a + b, s2, out + more)
    decreases |a|
  {
    if a == [] {
      assert a + b == b && out + more == more;
    } else {
      hide Step;
      var (s0, r) := Step(s, a[0]);
      RunConcat(s0, a[1..], s1, if r.Some? then out[1..] else out, b, s2, more);
      assert (a + b)[1..] == a[1..] + b;
      assert r.Some? ==> (out + more)[1..] == out[1..] + more;
    }
  }

  /** A done iterator ends after at most as many resumptions as it has items, and two. */
  lemma {:induction false} DoneEnds<T>(s: Iter<T>) returns (events: seq<Event<T>>, s1: Iter<T>, out: seq<T>)
    requires Inv(s) && s.done && s.pc != Finished
    ensures Run(s, events, s1, out) && s1.pc == Finished
    ensures |events| <= |s.rest| + |s.queue| + (if s.pc == NotStarted then 2 else 1) && forall e :: e in events ==> e == DoResume
    decreases |s.rest| + |s.queue|, s.pc == NotStarted
  {
    hide Resume, Values;
    ResumeRan(s);
    DoneResume(s);
    var (s0, r) := Resume(s);
    events, s1, out := [], s0, [];
    if s0.pc != Finished {
      events, s1, out := DoneEnds(s0);
    }
    var more := out;
    out := if r.Some? then [r.value] + more else more;
    events := [DoResume] + events;
    assert events[1..] == events[1..] && (r.Some? ==> out[1..] == more);
  }

  lemma DoneFinishes<T>(s: Iter<T>)
    requires Inv(s) && s.pc == Yielding && s.done
    ensures FinishBatch(s).0.pc != Awaiting
  {
    hide RunBatch, Values;
    RunBatchRan(s);
  }

  lemma DoneNext<T>(s: Iter<T>)
    requires Inv(s) && s.pc != Yielding && CanResume(s) && s.done
    ensures NextBatch(s).0.pc != Awaiting
  {
    hide FinishBatch, Values;
    if !s.err {
      var s0 := s.(pc := Yielding, rest := s.queue, queue := []);
      assert s0.handled + s0.rest + s0.queue == s.handled + s.rest + s.queue;
      DoneFinishes(s0);
    }
  }

  lemma {:induction false} DoneResume<T>(s: Iter<T>)
    requires Inv(s) && s.done && CanResume(s)
    ensures var s1 := Resume(s).0;
            && s1.done && s1.pc != NotStarted
            && (|| s1.pc == Finished
                || (s1.pc == Yielding && |s1.rest| + |s1.queue| < |s.rest| + |s.queue|)
                || (s.pc == NotStarted && s1 == s.(pc := Awaiting)))
  {
    hide FinishBatch, NextBatch, Values;
    ResumeRan(s);
    if s.pc == Yielding {
      DoneFinishes(s);
    } else if s.pc == Awaiting || s.queue != [] {
      DoneNext(s);
    }
    var (s1, r) := Resume(s);
    if r.Some? {
      assert s1.handled != s.handled;
      assert |s1.handled| + |s1.rest| + |s1.queue| == |s.handled| + |s.rest| + |s.queue|;
    }
  }
}
