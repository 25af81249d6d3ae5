/** The class QueuedIteratorImpl (core/src/queued_iterator.ts), proved to take the steps of IteratorSpec. */
module QueuedIterator {
  import opened Bytes
  import opened IteratorSpec

  /** A JavaScript array. */
  class List<T> {
    var items: seq<T>

    constructor ()
      ensures items == []
    {
      items := [];
    }
  }

  class Signal {
    var resolved: bool

    constructor ()
      ensures !resolved
    {
      resolved := false;
    }
  }

  class QueuedIterator<T> {
    var queue: List<Item<T>>  // the source's `yields`
    var signal: Signal
    var done: bool
    var err: bool
    var didBreak: bool

    // The suspended generator: where it is, its local array and loop index.
    var pc: Where
    var batch: List<Item<T>>
    var i: nat

    ghost var rest: seq<Item<T>>      // what is left of the batch
    ghost var accepted: seq<Item<T>>
    ghost var handled: seq<Item<T>>

    ghost function View(): Iter<T>
      reads this, queue, signal
    {
      Iter(pc, rest, queue.items, signal.resolved, done, err, accepted, handled)
    }

    ghost predicate Valid()
      reads this, queue, batch, signal
    {
      && Inv(View())
      && (pc == Yielding ==> batch != queue && i <= |batch.items| && rest == batch.items[i..])
      && (didBreak ==> done)
    }

    constructor ()
      ensures Valid() && fresh(queue) && fresh(signal) && fresh(batch)
      ensures View() == Unstarted()
    {
      queue := new List<Item<T>>();
      batch := new List<Item<T>>();
      signal := new Signal();
      done, err, didBreak, pc, i := false, false, false, NotStarted, 0;
      rest, accepted, handled := [], [], [];
    }

    method Stop(error: bool)
      requires Valid()
      modifies this`done, this`err, signal
      ensures Valid() && View() == IteratorSpec.Stop(old(View()), error)
    {
      if done {
        return;
      }
      err := error;
      done := true;
      signal.resolved := true;
    }

    /**
     * A push is refused once the iterator is done, and queued otherwise. The source runs a pushed
     * callback at once after a break; here a break has already set `done`.
     */
    method Push(v: Item<T>)
      requires Valid()
      modifies this`accepted, queue, signal
      ensures Valid() && View() == IteratorSpec.Push(old(View()), v)
    {
      if done {
        return;
      }
      StepRan(View(), DoPush(v));
      queue.items := queue.items + [v];
      signal.resolved := true;
      accepted := accepted + [v];
    }

    /** The `finally` block. */
    method Finish()
      requires Valid()
      modifies this`pc, this`didBreak, this`done, this`err, signal
      ensures Valid() && didBreak && View() == IteratorSpec.Finish(old(View()))
    {
      didBreak := true;
      pc := Finished;
      if !done {
        err := false;
        done := true;
        signal.resolved := true;
      }
    }

    /** The consumer leaves its loop at a yield. */
    method Break()
      requires Valid() && pc == Yielding
      modifies this`pc, this`didBreak, this`done, this`err, signal
      ensures Valid() && View() == IteratorSpec.Finish(old(View()))
    {
      Finish();
    }

    /** The top of the generator's loop, behind the check of `err`. */
    method TakeBatch()
      requires Valid() && (pc == Awaiting || pc == NotStarted)
      modifies this`pc, this`batch, this`queue, this`i, this`rest
      ensures fresh(queue) && batch == old(queue) && i == 0 && Valid()
      ensures View() == old(View()).(pc := Yielding, rest := old(queue.items), queue := [])
    {
      assert handled + rest + queue.items == handled + queue.items + [];
      batch := queue;
      queue := new List<Item<T>>();
      i := 0;
      pc := Yielding;
      rest := batch.items;
    }

    /** Runs the callback just taken from the batch; it may throw, or stop the iterator with an error. */
    method RunCallback(effect: Effect)
      requires Valid() && pc == Yielding
      modifies this`pc, this`done, this`err, this`didBreak, signal
      ensures Valid() && View() == IteratorSpec.RunCallback(old(View()), effect)
    {
      match effect {
        case Throws =>
          Finish();
          return;
        case Stops(e) =>
          Stop(e);
        case Returns =>
      }
      if err {
        Finish();
      }
    }

    /** One pass of the `for` loop: the next item is yielded, or its callback runs. */
    method HandleItem() returns (r: Option<T>)
      requires Valid() && pc == Yielding && i < |batch.items|
      modifies this`pc, this`i, this`rest, this`handled, this`done, this`err, this`didBreak, signal
      ensures Valid() && (View(), r) == IteratorSpec.HandleItem(old(View()))
      ensures pc == Yielding ==> i == old(i) + 1
    {
      hide Inv, IteratorSpec.RunCallback;
      var item := batch.items[i];
      assert rest == [item] + batch.items[i + 1..];
      ItemTaken(View());
      i := i + 1;
      handled := handled + [item];
      rest := batch.items[i..];
      if item.Value? {
        return Some(item.v);
      }
      RunCallback(item.effect);
      return None;
    }

    static lemma ItemTaken(s: Iter<T>)
      requires Inv(s) && s.pc == Yielding && s.rest != []
      ensures Inv(s.(rest := s.rest[1..], handled := s.handled + [s.rest[0]]))
    {
      assert s.rest == [s.rest[0]] + s.rest[1..];
      assert s.handled + ([s.rest[0]] + s.rest[1..]) + s.queue == (s.handled + [s.rest[0]]) + s.rest[1..] + s.queue;
    }

    /** The `for` loop over the batch, until it yields, ends or throws. */
    method RunBatch() returns (r: Option<T>)
      requires Valid() && pc == Yielding
      modifies this`pc, this`i, this`rest, this`handled, this`done, this`err, this`didBreak, signal
      ensures Valid() && (View(), r) == IteratorSpec.RunBatch(old(View()))
    {
      hide Inv, IteratorSpec.HandleItem;
      r := None;
      while i < |batch.items|
        invariant Valid() && pc == Yielding && r.None?
        invariant IteratorSpec.RunBatch(View()) == IteratorSpec.RunBatch(old(View()))
      {
        assert rest != [];
        HandleItemRan(View());
        r := HandleItem();
        if r.Some? || pc == Finished {
          return;
        }
      }
    }

    /** Runs the batch and goes on to the top of the loop, unless it yields or ends. */
    method FinishBatch() returns (r: Option<T>)
      requires Valid() && pc == Yielding
      modifies this, batch, signal
      ensures Valid() && (View(), r) == IteratorSpec.FinishBatch(old(View()))
      ensures if pc == Awaiting && queue.items != [] then queue == old(queue) && signal == old(signal)
              else queue == old(queue) || queue == old(batch)
      ensures pc != Awaiting ==> batch == old(batch) && signal == old(signal)
      ensures signal == old(signal) || fresh(signal)
      ensures batch == old(batch)
    {
      hide IteratorSpec.RunBatch;
      FinishBatchRan(View());
      r := RunBatch();
      if r.Some? || pc == Finished {
        return;
      }
      if done {
        Finish();
        return;
      }
      pc := Awaiting;
      if queue.items == [] {
        // the emptied array is used again
        batch.items := [];
        queue := batch;
        signal := new Signal();
      }
    }

    /**
     * Runs the generator from one suspension to the next. It runs callbacks, then yields one
     * value, waits for more, or ends.
     */
    method Resume() returns (r: Option<T>)
      requires Valid() && CanResume(View())
      modifies this, batch, queue, signal
      ensures Valid() && (View(), r) == IteratorSpec.Resume(old(View()))
      ensures queue == old(queue) || queue == old(batch) || fresh(queue)
      ensures (batch == old(batch) || batch == old(queue)) && (signal == old(signal) || fresh(signal))
    {
      hide IteratorSpec.FinishBatch;
      ResumeRan(View());
      r := None;
      if pc == NotStarted && queue.items == [] {
        pc := Awaiting;
        return;
      }
      if pc == Yielding {
        FinishBatchRan(View());
        r := FinishBatch();
        if pc != Awaiting || queue.items == [] {
          return;
        }
      }
      // At the top of the loop with items in the queue, or woken up. Nothing is pushed while the
      // generator runs, so the loop comes round only this once more.
      if err {
        Finish();
        return;
      }
      TakeBatch();
      r := FinishBatch();
    }
  }

  /** The class on any run: it ends where the model does, and yields what the model yields. */
  method Iterate<T>(events: seq<Event<T>>, ghost end: Iter<T>, ghost out: seq<T>)
    returns (q: QueuedIterator<T>, yielded: seq<T>)
    requires IteratorSpec.Run(Unstarted(), events, end, out)
    ensures q.View() == end && yielded == out == Values(end.handled)
  {
    hide Unstarted, IteratorSpec.Resume, IteratorSpec.Push, IteratorSpec.Stop, IteratorSpec.Finish, Values, Inv;
    YieldedInOrder(events, end, out);
    q := new QueuedIterator<T>();
    yielded := [];
    var i := 0;
    assert events[0..] == events && out[0..] == out;
    while i < |events|
      invariant 0 <= i <= |events| && fresh(q) && fresh(q.queue) && fresh(q.batch) && fresh(q.signal) && q.Valid()
      invariant yielded <= out && IteratorSpec.Run(q.View(), events[i..], end, out[|yielded|..])
    {
      assert events[i..][0] == events[i] && events[i..][1..] == events[i + 1..];
      ghost var left := out[|yielded|..];
      match events[i] {
        case DoPush(x) => q.Push(x);
        case DoStop(error) => q.Stop(error);
        case DoBreak => q.Break();
        case DoResume =>
          var r := q.Resume();
          if r.Some? {
            assert left[1..] == out[|yielded| + 1..];
            yielded := yielded + [r.value];
          }
      }
      i := i + 1;
    }
  }
}
