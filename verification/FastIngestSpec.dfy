/**
 * The batch publisher FastIngestImpl of jetstream/src/jsclient.ts as a state machine. Every
 * call, message, deadline and timer tick runs to completion, so each is one step; the
 * environment picks the steps and whether a publish succeeds.
 */
module FastIngestSpec {
  import opened Bytes

  datatype Op = Start | Append | Final | EOB | Ping

  /** An entry of the `pending` map; a JavaScript map keeps the order of insertion. */
  datatype Entry = Entry(key: bytes, sn: nat, op: Op, promise: nat)

  datatype Settlement = Progress(batchSeq: nat, ackSeq: int) | Committed | Rejected

  datatype Sent = Sent(op: Op, sn: nat)

  /** What a call returns: a settled promise, or one that is settled later. */
  datatype Answer =
    | RejectedNow
    | ProgressNow(batchSeq: nat, ackSeq: int)
    | EmptyBatch
    | WaitsForStart
    | Waits(promise: nat)

  /** A message on the inbox of the batch. */
  datatype Incoming =
    | Failed                                    // an error, or a response that does not parse
    | Terminal(subject: bytes)                  // the pub ack of the whole batch
    | Gap
    | Flow(subject: bytes, msgs: Option<int>, sn: Option<int>)

  /** The options that never change. */
  datatype Config = Config(prefix: bytes, maxOutstandingAcks: int)

  /**
   * `sn` is the source's `seq`. `sent`, `created`, `settled` and `withdrawn` are histories: what was published, how many
   * promises were put in `pending`, which were settled and how, and which were taken out
   * again before the call that made them returned.
   */
  datatype St = St(
    sn: nat, acked: int, ackInterval: int, pending: seq<Entry>, closed: bool,
    start: Option<Settlement>, done: Option<Settlement>,
    sent: seq<Sent>, created: nat, settled: seq<(nat, Settlement)>, withdrawn: seq<nat>)

  function Initial(ackInterval: int): St {
    St(0, 0, ackInterval, [], false, None, None, [], 0, [], [])
  }

  // ----- the reply subjects, which are the keys of `pending`

  const DOT: byte := 46

  function Digit(op: Op): byte {
    match op
    case Start => 48
    case Append => 49
    case Final => 50
    case EOB => 51
    case Ping => 52
  }

  function ReplyFor(prefix: bytes, op: Op, sn: nat): bytes {
    prefix + (Numeral(sn) + [DOT, Digit(op), DOT, 36, 70, 73])
  }

  lemma ReplyForInjective(prefix: bytes, op1: Op, sn1: nat, op2: Op, sn2: nat)
    requires ReplyFor(prefix, op1, sn1) == ReplyFor(prefix, op2, sn2)
    ensures op1 == op2 && sn1 == sn2
  {
    var n1, n2 := Numeral(sn1), Numeral(sn2);
    var t1, t2 := n1 + [DOT, Digit(op1), DOT, 36, 70, 73], n2 + [DOT, Digit(op2), DOT, 36, 70, 73];
    assert ReplyFor(prefix, op1, sn1)[|prefix|..] == t1 && ReplyFor(prefix, op2, sn2)[|prefix|..] == t2;
    assert |n1| == |n2|;
    assert t1[..|n1|] == n1 && t2[..|n2|] == n2;
    NumeralInjective(sn1, sn2);
    assert t1[|n1| + 1] == t2[|n2| + 1];
  }

  // ----- the pending map

  function Find(p: seq<Entry>, key: bytes): (i: int)
    ensures -1 <= i < |p|
    ensures i >= 0 ==> p[i].key == key
    ensures i < 0 ==> forall j :: 0 <= j < |p| ==> p[j].key != key
  {
    if p == [] then -1
    else if p[|p| - 1].key == key then |p| - 1
    else Find(p[..|p| - 1], key)
  }

  function Put(p: seq<Entry>, e: Entry): seq<Entry> {
    var i := Find(p, e.key);
    if i >= 0 then p[i := e] else p + [e]
  }

  function Delete(p: seq<Entry>, key: bytes): seq<Entry> {
    var i := Find(p, key);
    if i >= 0 then p[..i] + p[i + 1..] else p
  }

  // ----- settling promises

  function Settle(s: St, id: nat, how: Settlement): St {
    s.(settled := s.settled + [(id, how)])
  }

  /** A deferred keeps its first settlement. */
  function First(a: Option<Settlement>, b: Settlement): Option<Settlement> {
    if a.Some? then a else Some(b)
  }

  predicate WaitsForFlow(e: Entry) {
    e.op == Append || e.op == Ping
  }

  /** How the entries left over settle when the batch is committed. */
  function Straggler(e: Entry, acked: int): (nat, Settlement) {
    (e.promise, if WaitsForFlow(e) then Progress(e.sn, acked) else Rejected)
  }

  function Stragglers(p: seq<Entry>, acked: int): seq<(nat, Settlement)> {
    if p == [] then [] else Stragglers(p[..|p| - 1], acked) + [Straggler(p[|p| - 1], acked)]
  }

  function Rejections(p: seq<Entry>): seq<(nat, Settlement)> {
    if p == [] then [] else Rejections(p[..|p| - 1]) + [(p[|p| - 1].promise, Rejected)]
  }

  function Close(s: St): St {
    s.(closed := true,
       settled := s.settled + Rejections(s.pending),
       pending := [],
       start := First(s.start, Rejected),
       done := First(s.done, Rejected))
  }

  // ----- messages

  /** The batch is committed: whatever still waits is settled. */
  function Conclude(s: St): St {
    s.(settled := s.settled + Stragglers(s.pending, s.acked),
       pending := [],
       start := First(s.start, Committed),
       done := First(s.done, Committed),
       closed := true)
  }

  function OnTerminal(s: St, subject: bytes): St {
    var i := Find(s.pending, subject);
    if i >= 0 && (s.pending[i].op == Final || s.pending[i].op == EOB) then
      Conclude(Settle(s, s.pending[i].promise, Committed).(pending := Delete(s.pending, subject)))
    else Conclude(s)
  }

  function Window(c: Config, s: St): int {
    s.ackInterval * c.maxOutstandingAcks
  }

  predicate Opens(e: Entry, acked: int, window: int) {
    e.op == Append && e.sn - acked < window
  }

  function Blocked(p: seq<Entry>, acked: int, window: int): seq<Entry> {
    if p == [] then []
    else
      var rest, e := Blocked(p[..|p| - 1], acked, window), p[|p| - 1];
      if Opens(e, acked, window) then rest else rest + [e]
  }

  function Opened(p: seq<Entry>, acked: int, window: int): seq<(nat, Settlement)> {
    if p == [] then []
    else
      var rest, e := Opened(p[..|p| - 1], acked, window), p[|p| - 1];
      if Opens(e, acked, window) then rest + [(e.promise, Progress(e.sn, acked))] else rest
  }

  function Slide(c: Config, s: St): St {
    s.(pending := Blocked(s.pending, s.acked, Window(c, s)),
       settled := s.settled + Opened(s.pending, s.acked, Window(c, s)))
  }

  function ResolveExact(s: St, subject: bytes): St {
    var i := Find(s.pending, subject);
    if i >= 0 && WaitsForFlow(s.pending[i]) then
      Settle(s, s.pending[i].promise, Progress(s.pending[i].sn, s.acked)).(pending := Delete(s.pending, subject))
    else s
  }

  /** What a flow ack sets before it looks at the entries. */
  function Acknowledge(s: St, msgs: Option<int>, sn: Option<int>): St {
    s.(ackInterval := if msgs.Some? then msgs.value else s.ackInterval,
       acked := if sn.Some? && sn.value > s.acked then sn.value else s.acked,
       start := First(s.start, Committed))
  }

  function OnFlow(c: Config, s: St, subject: bytes, msgs: Option<int>, sn: Option<int>): St {
    Slide(c, ResolveExact(Acknowledge(s, msgs, sn), subject))
  }

  /** The subscription exists from the start of the batch on. */
  function Route(c: Config, s: St, m: Incoming): St {
    if s.sn == 0 then s else
    match m
    case Failed => Close(s)
    case Terminal(subject) => OnTerminal(s, subject)
    case Gap => s
    case Flow(subject, msgs, sn) => OnFlow(c, s, subject, msgs, sn)
  }

  // ----- calls; `ok` says whether the publish succeeds

  function Publish(s: St, op: Op, sn: nat): St {
    s.(sent := s.sent + [Sent(op, sn)])
  }

  function StartBatch(s: St, ok: bool): (St, Answer) {
    if !ok then (s, RejectedNow) else (Publish(s, Start, 1).(sn := 1), WaitsForStart)
  }

  function Wait(c: Config, s: St, op: Op, sn: nat): (St, Answer) {
    (s.(pending := Put(s.pending, Entry(ReplyFor(c.prefix, op, sn), sn, op, s.created)), created := s.created + 1),
     Waits(s.created))
  }

  function Add(c: Config, s: St, ok: bool): (St, Answer) {
    if s.closed then (s, RejectedNow)
    else if s.sn == 0 then StartBatch(s, ok)
    else if !ok then (s, RejectedNow)
    else
      var mySeq := s.sn + 1;
      var s1 := Publish(s, Append, mySeq).(sn := mySeq);
      if mySeq - s.acked < Window(c, s) then (s1, ProgressNow(mySeq, s.acked)) else Wait(c, s1, Append, mySeq)
  }

  /** `last` and `end`: the entry goes in before the publish and comes out if that fails. */
  function Commit(c: Config, s: St, op: Op, ok: bool): (St, Answer) {
    var mySeq := s.sn + 1;
    var (s1, answer) := Wait(c, s, op, mySeq);
    if ok then (Publish(s1, op, mySeq).(sn := mySeq), answer)
    else (s1.(pending := Delete(s1.pending, ReplyFor(c.prefix, op, mySeq)), withdrawn := s1.withdrawn + [s.created]),
          RejectedNow)
  }

  function Last(c: Config, s: St, ok: bool): (St, Answer) {
    if s.closed then (s, RejectedNow)
    else if s.sn == 0 then StartBatch(s, ok)
    else Commit(c, s, Final, ok)
  }

  function End(c: Config, s: St, ok: bool): (St, Answer) {
    if s.closed then (s, RejectedNow)
    else if s.sn == 0 then
      (s.(closed := true, start := First(s.start, Committed), done := First(s.done, Committed)), EmptyBatch)
    else Commit(c, s, EOB, ok)
  }

  function PingCall(c: Config, s: St, ok: bool): (St, Answer) {
    if s.closed then (s, RejectedNow)
    else if s.sn == 0 then (s, ProgressNow(0, 0))
    else
      var i := Find(s.pending, ReplyFor(c.prefix, Ping, s.sn));
      if i >= 0 && s.pending[i].op == Ping then (s, Waits(s.pending[i].promise))
      else if !ok then (s, RejectedNow)
      else Wait(c, Publish(s, Ping, s.sn), Ping, s.sn)
  }

  /** The timer of a waiting call; `shared` says another ping went out lately. */
  function Tick(c: Config, s: St, shared: bool, ok: bool): St {
    var i := Find(s.pending, ReplyFor(c.prefix, Ping, s.sn));
    if s.sn == 0 || s.closed || shared || (i >= 0 && s.pending[i].op == Ping) || !ok then s
    else Publish(s, Ping, s.sn)
  }

  /** A timeout of a call; no call waits before the start of the batch. */
  function Deadline(s: St): St {
    if s.sn == 0 || s.closed then s else Close(s)
  }

  datatype Event =
    | DoAdd(ok: bool)
    | DoLast(ok: bool)
    | DoEnd(ok: bool)
    | DoPing(ok: bool)
    | DoTick(shared: bool, ok: bool)
    | DoDeadline
    | DoRoute(m: Incoming)

  function Step(c: Config, s: St, e: Event): St {
    match e
    case DoAdd(ok) => Add(c, s, ok).0
    case DoLast(ok) => Last(c, s, ok).0
    case DoEnd(ok) => End(c, s, ok).0
    case DoPing(ok) => PingCall(c, s, ok).0
    case DoTick(shared, ok) => Tick(c, s, shared, ok)
    case DoDeadline => Deadline(s)
    case DoRoute(m) => Route(c, s, m)
  }

  function Run(c: Config, s: St, events: seq<Event>): St {
    if events == [] then s else Step(c, Run(c, s, events[..|events| - 1]), events[|events| - 1])
  }
}
