/** The methods of FastIngestImpl, each proved to take the step of the state machine. */
module FastIngest {
  import opened Bytes
  import Spec = FastIngestSpec
  import opened FastIngestSpec

  class FastIngest {
    const c: Config
    var sn: nat
    var acked: int
    var ackInterval: int
    var pending: seq<Entry>
    var closed: bool
    var start: Option<Settlement>
    var done: Option<Settlement>
    ghost var sent: seq<Sent>
    ghost var created: nat
    ghost var settled: seq<(nat, Settlement)>
    ghost var withdrawn: seq<nat>
    var nextPromise: nat

    ghost function View(): St
      reads this
    {
      St(sn, acked, ackInterval, pending, closed, start, done, sent, created, settled, withdrawn)
    }

    ghost predicate Valid()
      reads this
    {
      nextPromise == created
    }

    constructor (c: Config, ackInterval: int)
      ensures Valid() && this.c == c && View() == Initial(ackInterval)
    {
      this.c := c;
      this.ackInterval := ackInterval;
      sn, acked, pending, closed := 0, 0, [], false;
      start, done := None, None;
      sent, created, settled, withdrawn := [], 0, [], [];
      nextPromise := 0;
    }

    /** The Map lookups: the index of the entry for `key`, or -1. */
    method Lookup(key: bytes) returns (i: int)
      ensures i == Find(pending, key)
    {
      i := |pending| - 1;
      assert pending[..|pending|] == pending;
      while i >= 0
        invariant -1 <= i < |pending|
        invariant Find(pending, key) == Find(pending[..i + 1], key)
      {
        if pending[i].key == key {
          return;
        }
        assert pending[..i + 1][..i] == pending[..i];
        i := i - 1;
      }
    }

    method Set(e: Entry)
      modifies this`pending
      ensures pending == Put(old(pending), e)
    {
      var i := Lookup(e.key);
      if i >= 0 {
        pending := pending[i := e];
      } else {
        pending := pending + [e];
      }
    }

    method Remove(key: bytes)
      modifies this`pending
      ensures pending == Delete(old(pending), key)
    {
      var i := Lookup(key);
      if i >= 0 {
        pending := pending[..i] + pending[i + 1..];
      }
    }

    /** Resolves or rejects the promise of an entry. */
    ghost method SettleEntry(e: Entry, how: Settlement)
      modifies this`settled
      ensures settled == old(settled) + [(e.promise, how)]
    {
      settled := settled + [(e.promise, how)];
    }

    method CloseWith()
      requires Valid()
      modifies this
      ensures Valid() && View() == Close(old(View()))
    {
      closed := true;
      var i := 0;
      assert pending[..0] == [];
      while i < |pending|
        invariant 0 <= i <= |pending|
        invariant settled == old(settled) + Rejections(pending[..i])
        modifies this`settled
      {
        assert pending[..i + 1][..i] == pending[..i];
        SettleEntry(pending[i], Rejected);
        i := i + 1;
      }
      assert pending[..|pending|] == pending;
      pending := [];
      start := First(start, Rejected);
      done := First(done, Rejected);
    }

    /** Settles every entry still in `pending`; the batch is committed. */
    method SettleStragglers()
      modifies this`settled
      ensures settled == old(settled) + Stragglers(pending, acked)
    {
      var i := 0;
      assert pending[..0] == [];
      while i < |pending|
        invariant 0 <= i <= |pending|
        invariant settled == old(settled) + Stragglers(pending[..i], acked)
      {
        assert pending[..i + 1][..i] == pending[..i];
        SettleEntry(pending[i], if WaitsForFlow(pending[i]) then Progress(pending[i].sn, acked) else Rejected);
        i := i + 1;
      }
      assert pending[..|pending|] == pending;
    }

    method RouteTerminal(subject: bytes)
      requires Valid()
      modifies this
      ensures Valid() && View() == OnTerminal(old(View()), subject)
    {
      var at := Lookup(subject);
      if at >= 0 && (pending[at].op == Final || pending[at].op == EOB) {
        SettleEntry(pending[at], Committed);
        Remove(subject);
      }
      SettleStragglers();
      pending := [];
      start := First(start, Committed);
      done := First(done, Committed);
      closed := true;
    }

    /** One pass over the map: entry `i` is resolved and deleted, or skipped. */
    method SlideEntry(i: nat, window: int) returns (j: nat)
      requires i < |pending|
      modifies this`pending, this`settled
      ensures var e := old(pending)[i];
              if Opens(e, acked, window) then
                && j == i && pending == old(pending)[..i] + old(pending)[i + 1..]
                && settled == old(settled) + [(e.promise, Progress(e.sn, acked))]
              else j == i + 1 && pending == old(pending) && settled == old(settled)
    {
      var e := pending[i];
      j := i;
      if e.op == Append && e.sn - acked < window {
        SettleEntry(e, Progress(e.sn, acked));
        pending := pending[..i] + pending[i + 1..];
      } else {
        j := i + 1;
      }
    }

    lemma SlidePrefix(p: seq<Entry>, k: nat, window: int)
      requires k < |p|
      ensures Blocked(p[..k + 1], acked, window) ==
              Blocked(p[..k], acked, window) + if Opens(p[k], acked, window) then [] else [p[k]]
      ensures Opened(p[..k + 1], acked, window) ==
              Opened(p[..k], acked, window)
              + if Opens(p[k], acked, window) then [(p[k].promise, Progress(p[k].sn, acked))] else []
    {
      assert p[..k + 1][..k] == p[..k];
    }

    /** Resolves the adds that the window now lets through, deleting while iterating. */
    method SlideWindow()
      modifies this`pending, this`settled
      ensures View() == Slide(c, old(View()))
    {
      hide Blocked, Opened;
      ghost var p, k := pending, 0;
      var window := ackInterval * c.maxOutstandingAcks;
      var i := 0;
      SlideNothing(window);
      assert p[..0] == [];
      while i < |pending|
        invariant 0 <= k <= |p| && i == |Blocked(p[..k], acked, window)|
        invariant pending == Blocked(p[..k], acked, window) + p[k..]
        invariant settled == old(settled) + Opened(p[..k], acked, window)
        decreases |p| - k
      {
        SlidePrefix(p, k, window);
        i := SlideEntry(i, window);
        k := k + 1;
      }
      assert p[..k] == p;
    }

    lemma SlideNothing(window: int)
      ensures Blocked([], acked, window) == [] && Opened([], acked, window) == []
    {
    }

    method StoreAck(msgs: Option<int>, ackSn: Option<int>)
      modifies this`ackInterval, this`acked, this`start
      ensures View() == Acknowledge(old(View()), msgs, ackSn)
    {
      if msgs.Some? {
        ackInterval := msgs.value;
      }
      if ackSn.Some? && ackSn.value > acked {
        acked := ackSn.value;
      }
      start := First(start, Committed);
    }

    method ResolveSubject(subject: bytes)
      modifies this`pending, this`settled
      ensures View() == ResolveExact(old(View()), subject)
    {
      var at := Lookup(subject);
      if at >= 0 && WaitsForFlow(pending[at]) {
        SettleEntry(pending[at], Progress(pending[at].sn, acked));
        Remove(subject);
      }
    }

    method RouteFlow(subject: bytes, msgs: Option<int>, ackSn: Option<int>)
      requires Valid()
      modifies this
      ensures Valid() && View() == OnFlow(c, old(View()), subject, msgs, ackSn)
    {
      hide Acknowledge, ResolveExact, Slide;
      StoreAck(msgs, ackSn);
      ResolveSubject(subject);
      SlideWindow();
    }

    method RouteMessage(m: Incoming)
      requires Valid()
      modifies this
      ensures Valid() && View() == Route(c, old(View()), m)
    {
      if sn == 0 {
        return;
      }
      match m {
        case Failed => CloseWith();
        case Terminal(subject) => RouteTerminal(subject);
        case Gap =>
        case Flow(subject, msgs, ackSn) => RouteFlow(subject, msgs, ackSn);
      }
    }

    /** Puts a new deferred into `pending`. */
    method NewPending(op: Op, n: nat) returns (answer: Answer)
      requires Valid()
      modifies this`pending, this`created, this`nextPromise
      ensures Valid() && (View(), answer) == Wait(c, old(View()), op, n)
    {
      var id := nextPromise;
      Set(Entry(ReplyFor(c.prefix, op, n), n, op, id));
      nextPromise := nextPromise + 1;
      created := created + 1;
      return Waits(id);
    }

    method StartWith(ok: bool) returns (answer: Answer)
      requires Valid()
      modifies this`sent, this`sn
      ensures Valid() && (View(), answer) == StartBatch(old(View()), ok)
    {
      if !ok {
        return RejectedNow;
      }
      sent := sent + [Sent(Start, 1)];
      sn := 1;
      return WaitsForStart;
    }

    method Add(ok: bool) returns (answer: Answer)
      requires Valid()
      modifies this
      ensures Valid() && (View(), answer) == Spec.Add(c, old(View()), ok)
    {
      if closed {
        return RejectedNow;
      }
      if sn == 0 {
        answer := StartWith(ok);
        return;
      }
      var mySeq := sn + 1;
      if !ok {
        return RejectedNow;
      }
      sent := sent + [Sent(Append, mySeq)];
      sn := mySeq;
      if mySeq - acked < ackInterval * c.maxOutstandingAcks {
        return ProgressNow(mySeq, acked);
      }
      answer := NewPending(Append, mySeq);
    }

    method CommitWith(op: Op, ok: bool) returns (answer: Answer)
      requires Valid()
      modifies this
      ensures Valid() && (View(), answer) == Commit(c, old(View()), op, ok)
    {
      hide ReplyFor, Find, Delete, Put;
      var mySeq := sn + 1;
      answer := NewPending(op, mySeq);
      if !ok {
        Remove(ReplyFor(c.prefix, op, mySeq));
        withdrawn := withdrawn + [created - 1];
        return RejectedNow;
      }
      sent := sent + [Sent(op, mySeq)];
      sn := mySeq;
    }

    method Last(ok: bool) returns (answer: Answer)
      requires Valid()
      modifies this
      ensures Valid() && (View(), answer) == Spec.Last(c, old(View()), ok)
    {
      if closed {
        return RejectedNow;
      }
      if sn == 0 {
        answer := StartWith(ok);
      } else {
        answer := CommitWith(Final, ok);
      }
    }

    method End(ok: bool) returns (answer: Answer)
      requires Valid()
      modifies this
      ensures Valid() && (View(), answer) == Spec.End(c, old(View()), ok)
    {
      if closed {
        return RejectedNow;
      }
      if sn == 0 {
        closed := true;
        start := First(start, Committed);
        done := First(done, Committed);
        return EmptyBatch;
      }
      answer := CommitWith(EOB, ok);
    }

    method Ping(ok: bool) returns (answer: Answer)
      requires Valid()
      modifies this
      ensures Valid() && (View(), answer) == PingCall(c, old(View()), ok)
    {
      if closed {
        return RejectedNow;
      }
      if sn == 0 {
        return ProgressNow(0, 0);
      }
      var existing := Lookup(ReplyFor(c.prefix, Op.Ping, sn));
      if existing >= 0 && pending[existing].op == Op.Ping {
        return Waits(pending[existing].promise);
      }
      if !ok {
        return RejectedNow;
      }
      sent := sent + [Sent(Op.Ping, sn)];
      answer := NewPending(Op.Ping, sn);
    }

    method PingTimer(shared: bool, ok: bool)
      requires Valid()
      modifies this
      ensures Valid() && View() == Tick(c, old(View()), shared, ok)
    {
      if sn == 0 || closed || shared {
        return;
      }
      var existing := Lookup(ReplyFor(c.prefix, Op.Ping, sn));
      if existing >= 0 && pending[existing].op == Op.Ping {
        return;
      }
      if ok {
        sent := sent + [Sent(Op.Ping, sn)];
      }
    }

    method DeadlineFires()
      requires Valid()
      modifies this
      ensures Valid() && View() == Deadline(old(View()))
    {
      if sn > 0 && !closed {
        CloseWith();
      }
    }
  }
}
