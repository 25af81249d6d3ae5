/**
 * The wire parser read one byte at a time. `Step` says what one byte does and `EndChunk`
 * what the end of a chunk does: a partial argument or payload is moved out of the chunk
 * into a side buffer. The class in Parser.dfy, which jumps over payloads and keeps indices
 * into the chunk, is proved to compute `Run`.
 */
module ParserSpec {
  import opened Bytes

  const TAB: byte := 9
  const NL: byte := 10
  const CR: byte := 13
  const SPACE: byte := 32
  const PLUS: byte := 43
  const MINUS: byte := 45
  const E: byte := 69
  const F: byte := 70
  const G: byte := 71
  const H: byte := 72
  const I: byte := 73
  const K: byte := 75
  const M: byte := 77
  const N: byte := 78
  const O: byte := 79
  const P: byte := 80
  const R: byte := 82
  const S: byte := 83
  const MAX_64MB := 64 * 1024 * 1024

  datatype State =
    | OP_START
    | OP_PLUS | OP_PLUS_O | OP_PLUS_OK
    | OP_MINUS | OP_MINUS_E | OP_MINUS_ER | OP_MINUS_ERR | OP_MINUS_ERR_SPC | MINUS_ERR_ARG
    | OP_M | OP_MS | OP_MSG | OP_MSG_SPC | MSG_ARG | MSG_PAYLOAD | MSG_END
    | OP_H
    | OP_P | OP_PI | OP_PIN | OP_PING | OP_PO | OP_PON | OP_PONG
    | OP_I | OP_IN | OP_INF | OP_INFO | OP_INFO_SPC | INFO_ARG

  datatype MsgArg = MsgArg(subject: bytes, reply: Option<bytes>, sid: int, hdr: int, size: int)

  datatype Event =
    | OkEvent
    | ErrEvent(data: bytes)
    | MsgEvent(msg: MsgArg, data: bytes)
    | InfoEvent(data: bytes)
    | PingEvent
    | PongEvent

  /** What a throw of the parser reports, without the text of the offending bytes. */
  datatype Failure = BadByte(state: State) | BadArgs | BadSid | BadHeaderSize | BadSize

  datatype Result<+T> = Success(value: T) | Throw(failure: Failure)

  const NEW_MSG_ARG := MsgArg([], None, -1, -1, -1)

  /** `b` is the letter with upper-case code `upper`, in either case. */
  predicate Letter(b: byte, upper: byte) {
    b == upper || b == upper + 32
  }

  predicate Blank(b: byte) {
    b == SPACE || b == TAB
  }

  /** The state after a byte of a keyword, or None where the parser throws. */
  function Follow(s: State, b: byte): Option<State> {
    match s
    case OP_START =>
      if Letter(b, M) then Some(OP_M)
      else if Letter(b, H) then Some(OP_H)
      else if Letter(b, P) then Some(OP_P)
      else if b == PLUS then Some(OP_PLUS)
      else if b == MINUS then Some(OP_MINUS)
      else if Letter(b, I) then Some(OP_I)
      else None
    case OP_H => if Letter(b, M) then Some(OP_M) else None
    case OP_M => if Letter(b, S) then Some(OP_MS) else None
    case OP_MS => if Letter(b, G) then Some(OP_MSG) else None
    case OP_MSG => if Blank(b) then Some(OP_MSG_SPC) else None
    case OP_PLUS => if Letter(b, O) then Some(OP_PLUS_O) else None
    case OP_PLUS_O => if Letter(b, K) then Some(OP_PLUS_OK) else None
    case OP_MINUS => if Letter(b, E) then Some(OP_MINUS_E) else None
    case OP_MINUS_E => if Letter(b, R) then Some(OP_MINUS_ER) else None
    case OP_MINUS_ER => if Letter(b, R) then Some(OP_MINUS_ERR) else None
    case OP_MINUS_ERR => if Blank(b) then Some(OP_MINUS_ERR_SPC) else None
    case OP_P =>
      if Letter(b, I) then Some(OP_PI) else if Letter(b, O) then Some(OP_PO) else None
    case OP_PO => if Letter(b, N) then Some(OP_PON) else None
    case OP_PON => if Letter(b, G) then Some(OP_PONG) else None
    case OP_PI => if Letter(b, N) then Some(OP_PIN) else None
    case OP_PIN => if Letter(b, G) then Some(OP_PING) else None
    case OP_I => if Letter(b, N) then Some(OP_IN) else None
    case OP_IN => if Letter(b, F) then Some(OP_INF) else None
    case OP_INF => if Letter(b, O) then Some(OP_INFO) else None
    case OP_INFO => if Blank(b) then Some(OP_INFO_SPC) else None
    case _ => None
  }

  /** The argument state a run of blanks leads to. */
  function ArgOf(s: State): State {
    match s
    case OP_MSG_SPC => MSG_ARG
    case OP_MINUS_ERR_SPC => MINUS_ERR_ARG
    case _ => INFO_ARG
  }

  predicate IsArg(s: State) {
    s == MSG_ARG || s == MINUS_ERR_ARG || s == INFO_ARG
  }

  predicate IsBlanks(s: State) {
    s == OP_MSG_SPC || s == OP_MINUS_ERR_SPC || s == OP_INFO_SPC
  }

  predicate IsLineEnd(s: State) {
    s == MSG_END || s == OP_PLUS_OK || s == OP_PING || s == OP_PONG
  }

  /** What the NL at the end of a line pushes. */
  function LineEvents(s: State): seq<Event> {
    match s
    case OP_PLUS_OK => [OkEvent]
    case OP_PING => [PingEvent]
    case OP_PONG => [PongEvent]
    case _ => []
  }

  // ----- the argument line of MSG and HMSG

  predicate Separator(b: byte) {
    b == SPACE || b == TAB || b == CR || b == NL
  }

  /** The length of the run of non-separators that `s` starts with. */
  function WordLength(s: bytes): (n: nat)
    ensures n <= |s|
    ensures forall i :: 0 <= i < n ==> !Separator(s[i])
    ensures n < |s| ==> Separator(s[n])
  {
    if s == [] || Separator(s[0]) then 0 else 1 + WordLength(s[1..])
  }

  /** The maximal runs of non-separators, in order. */
  function Words(s: bytes): seq<bytes> {
    if s == [] then []
    else if Separator(s[0]) then Words(s[1..])
    else
      var n := WordLength(s);
      [s[..n]] + Words(s[n..])
  }

  /** The number written by `a`, or -1 if it is no number of at most 15 digits or exceeds `max`. */
  function ProtoParseInt(a: bytes, max: Option<nat>): (n: int)
    ensures -1 <= n < Pow10(15)
    ensures max.Some? ==> n <= max.value
  {
    if |a| == 0 || |a| > 15 || exists i :: 0 <= i < |a| && !IsDigit(a[i]) then
      -1
    else
      ValueBound(a, 15);
      var n := ValueOf(a);
      if max.Some? && n > max.value then -1 else n
  }

  function CheckSizes(ma: MsgArg, header: bool): Result<MsgArg> {
    if ma.sid < 0 then Throw(BadSid)
    else if header && (ma.hdr < 0 || ma.hdr > ma.size) then Throw(BadHeaderSize)
    else if ma.size < 0 then Throw(BadSize)
    else Success(ma)
  }

  /** The argument line `arg` stored into `ma`: MSG when `hdr` is negative, HMSG otherwise. */
  function ProcessMsgArgs(arg: bytes, hdr: int, ma: MsgArg): (r: Result<MsgArg>)
    ensures r.Success? && ma == NEW_MSG_ARG ==> MsgArgOk(r.value)
  {
    var max := Some(MAX_64MB as nat);
    var args := Words(arg);
    var k := if hdr >= 0 then 1 else 0;
    if |args| != 3 + k && |args| != 4 + k then
      Throw(BadArgs)
    else
      CheckSizes(
        ma.(subject := args[0],
            sid := ProtoParseInt(args[1], None),
            reply := if |args| == 4 + k then Some(args[2]) else None,
            hdr := if hdr >= 0 then ProtoParseInt(args[|args| - 2], max) else ma.hdr,
            size := ProtoParseInt(args[|args| - 1], max)),
        hdr >= 0)
  }

  /** What every delivered message satisfies; 10^15 is below 2^53, so no number is rounded. */
  predicate MsgArgOk(ma: MsgArg) {
    && 0 <= ma.sid < Pow10(15)
    && 0 <= ma.size <= MAX_64MB
    && (ma.hdr == -1 || 0 <= ma.hdr <= ma.size)
  }

  predicate EventOk(e: Event) {
    e.MsgEvent? ==> MsgArgOk(e.msg) && |e.data| == e.msg.size
  }

  // ----- the machine

  /**
   * `cur` holds the bytes of the current chunk from the start of the argument or payload
   * being read, unless these already go to a side buffer.
   */
  datatype Machine = Machine(
    state: State, hdr: int, ma: MsgArg, drop: nat, cur: bytes,
    argBuf: Option<bytes>, msgBuf: Option<bytes>, events: seq<Event>, failure: Option<Failure>)

  const INITIAL := Machine(OP_START, 0, NEW_MSG_ARG, 0, [], None, None, [], None)

  function Fail(m: Machine, f: Failure): Machine {
    m.(failure := Some(f))
  }

  function Push(m: Machine, e: Event): Machine {
    m.(events := m.events + [e])
  }

  /** The argument as the parser hands it on when it meets the NL. */
  function Argument(m: Machine): bytes {
    if m.argBuf.Some? then m.argBuf.value
    else m.cur[..if m.drop <= |m.cur| then |m.cur| - m.drop else 0]
  }

  function Payload(m: Machine): bytes {
    if m.msgBuf.Some? then m.msgBuf.value else m.cur
  }

  function StepArg(m: Machine, b: byte): Machine {
    if b == NL then
      if m.state == MSG_ARG then
        match ProcessMsgArgs(Argument(m), m.hdr, m.ma)
        case Throw(f) => Fail(m, f)
        case Success(ma) => m.(ma := ma, drop := 0, cur := [], state := MSG_PAYLOAD)
      else
        var e := if m.state == INFO_ARG then InfoEvent(Argument(m)) else ErrEvent(Argument(m));
        Push(m, e).(drop := 0, cur := [], argBuf := None, state := OP_START)
    else
      var m1 := if b == CR then m.(drop := 1) else m;
      if m.argBuf.None? then m1.(cur := m.cur + [b])
      else if b == CR then m1
      else m1.(argBuf := Some(m.argBuf.value + [b]))
  }

  function StepPayload(m: Machine, b: byte): Machine {
    if |Payload(m)| >= m.ma.size then
      Push(m, MsgEvent(m.ma, Payload(m))).(cur := [], argBuf := None, msgBuf := None, state := MSG_END)
    else if m.msgBuf.Some? then m.(msgBuf := Some(m.msgBuf.value + [b]))
    else m.(cur := m.cur + [b])
  }

  /** The blanks before an argument are skipped; the byte after them starts it. */
  function StepBlanks(m: Machine, b: byte): Machine {
    if Blank(b) then m else m.(state := ArgOf(m.state), cur := [b])
  }

  /** The rest of a line is skipped up to its NL. */
  function StepLineEnd(m: Machine, b: byte): Machine {
    if b == NL then m.(events := m.events + LineEvents(m.state), state := OP_START) else m
  }

  /** A keyword byte leads to `next`, and the first byte of MSG and HMSG starts a new argument. */
  function StepKeyword(m: Machine, b: byte, next: Option<State>): Machine {
    if next.None? then Fail(m, BadByte(m.state))
    else if m.state == OP_START && Letter(b, M) then m.(hdr := -1, ma := NEW_MSG_ARG, state := next.value)
    else if m.state == OP_START && Letter(b, H) then m.(hdr := 0, ma := NEW_MSG_ARG, state := next.value)
    else m.(state := next.value)
  }

  function Step(m: Machine, b: byte): (m': Machine)
    ensures m.failure.Some? ==> m' == m
  {
    if m.failure.Some? then m
    else if IsArg(m.state) then StepArg(m, b)
    else if m.state == MSG_PAYLOAD then StepPayload(m, b)
    else if IsBlanks(m.state) then StepBlanks(m, b)
    else if IsLineEnd(m.state) then StepLineEnd(m, b)
    else StepKeyword(m, b, Follow(m.state, b))
  }

  function Feed(m: Machine, s: bytes): (m': Machine)
    ensures m.failure.Some? ==> m' == m
  {
    if s == [] then m else Step(Feed(m, s[..|s| - 1]), s[|s| - 1])
  }

  /** At the end of a chunk what was read of an argument or payload moves to a side buffer. */
  function EndChunk(m: Machine): Machine {
    if m.failure.Some? then m
    else if IsArg(m.state) && m.argBuf.None? then
      m.(argBuf := Some(Argument(m)), cur := [])
    else if m.state == MSG_PAYLOAD && m.msgBuf.None? then
      m.(argBuf := if m.argBuf.Some? then m.argBuf else Some(ClonedArgs(m.ma)),
         msgBuf := Some(m.cur), cur := [])
    else m
  }

  /** The subject and reply copied out of the chunk into one buffer. */
  function ClonedArgs(ma: MsgArg): bytes {
    ma.subject + if ma.reply.Some? then ma.reply.value else []
  }

  /** Between chunks nothing of the machine refers to a chunk. */
  predicate Settled(m: Machine) {
    && m.cur == []
    && (IsArg(m.state) ==> m.argBuf.Some?)
    && (m.state == MSG_PAYLOAD ==> m.msgBuf.Some?)
  }

  function Run(m: Machine, chunk: bytes): Machine {
    EndChunk(Feed(m, chunk))
  }

  function RunAll(m: Machine, chunks: seq<bytes>): Machine
    decreases |chunks|
  {
    if chunks == [] then m else RunAll(Run(m, chunks[0]), chunks[1..])
  }

  // ----- how Feed composes

  lemma {:induction false} FeedConcat(m: Machine, a: bytes, b: bytes)
    ensures Feed(m, a + b) == Feed(Feed(m, a), b)
  {
    if b == [] {
      assert a + b == a;
    } else {
      assert (a + b)[..|a + b| - 1] == a + b[..|b| - 1];
      FeedConcat(m, a, b[..|b| - 1]);
    }
  }

  lemma FeedNothing(m: Machine)
    ensures Feed(m, []) == m
  {
  }

  lemma FeedOne(m: Machine, b: byte)
    ensures Feed(m, [b]) == Step(m, b)
  {
    assert [b][..0] == [];
    assert Feed(m, []) == m;
  }

  lemma {:induction false} FeedCons(m: Machine, s: bytes)
    requires s != []
    ensures Feed(m, s) == Feed(Step(m, s[0]), s[1..])
  {
    assert s == [s[0]] + s[1..];
    FeedConcat(m, [s[0]], s[1..]);
    FeedOne(m, s[0]);
  }

  /** Payload bytes are only collected, whatever they are: the jump of the parser is sound. */
  lemma {:induction false} FeedPayload(m: Machine, s: bytes)
    requires m.failure.None? && m.state == MSG_PAYLOAD
    requires |Payload(m)| + |s| <= m.ma.size
    ensures Feed(m, s) ==
            if m.msgBuf.Some? then m.(msgBuf := Some(m.msgBuf.value + s)) else m.(cur := m.cur + s)
  {
    if s == [] {
      if m.msgBuf.Some? {
        assert m.msgBuf.value + s == m.msgBuf.value;
      } else {
        assert m.cur + s == m.cur;
      }
    } else {
      FeedPayload(m, s[..|s| - 1]);
      assert s == s[..|s| - 1] + [s[|s| - 1]];
      assert Payload(m) + s == Payload(m) + s[..|s| - 1] + [s[|s| - 1]];
    }
  }

  // ----- what every reachable machine satisfies

  predicate InMsgLine(s: State) {
    s == OP_H || s == OP_M || s == OP_MS || s == OP_MSG || s == OP_MSG_SPC || s == MSG_ARG
  }

  predicate ArgShape(m: Machine) {
    && m.msgBuf.None?
    && m.drop <= 1
    && (m.argBuf.Some? ==> m.cur == [])
    && (m.argBuf.None? ==> m.drop < |m.cur|)
  }

  predicate PayloadShape(m: Machine) {
    && m.drop == 0 && MsgArgOk(m.ma)
    && |Payload(m)| <= m.ma.size
    && (m.msgBuf.Some? ==> m.argBuf.Some? && m.cur == [])
  }

  predicate KeywordShape(m: Machine) {
    m.drop == 0 && m.cur == [] && m.argBuf.None? && m.msgBuf.None?
  }

  predicate Shape(m: Machine) {
    && (InMsgLine(m.state) ==> m.ma == NEW_MSG_ARG)
    && (if IsArg(m.state) then ArgShape(m)
        else if m.state == MSG_PAYLOAD then PayloadShape(m)
        else KeywordShape(m))
  }

  predicate EventsOk(events: seq<Event>) {
    forall i :: 0 <= i < |events| ==> EventOk(events[i])
  }

  predicate Inv(m: Machine) {
    EventsOk(m.events) && (m.failure.None? ==> Shape(m))
  }

  lemma ArgInv(m: Machine, b: byte)
    requires EventsOk(m.events) && ArgShape(m) && IsArg(m.state) && m.failure.None?
    requires m.state == MSG_ARG ==> m.ma == NEW_MSG_ARG
    ensures Inv(StepArg(m, b))
  {
    if b == NL && m.state == MSG_ARG {
      var r := ProcessMsgArgs(Argument(m), m.hdr, m.ma);
      assert r.Success? ==> MsgArgOk(r.value);
    }
  }

  lemma PayloadInv(m: Machine, b: byte)
    requires EventsOk(m.events) && PayloadShape(m) && m.state == MSG_PAYLOAD
    ensures Inv(StepPayload(m, b))
  {
    assert |Payload(m)| >= m.ma.size ==> EventOk(MsgEvent(m.ma, Payload(m)));
  }

  lemma FollowShape(s: State, b: byte)
    ensures var next := Follow(s, b);
            next.Some? ==>
              && !IsArg(next.value) && next.value != MSG_PAYLOAD
              && (InMsgLine(next.value) ==> InMsgLine(s) || (s == OP_START && (Letter(b, M) || Letter(b, H))))
  {
  }

  lemma KeywordInv(m: Machine, b: byte, next: Option<State>)
    requires Inv(m) && !IsArg(m.state) && m.state != MSG_PAYLOAD
    requires next.Some? ==>
      && !IsArg(next.value) && next.value != MSG_PAYLOAD
      && (InMsgLine(next.value) ==> InMsgLine(m.state) || (m.state == OP_START && (Letter(b, M) || Letter(b, H))))
    ensures Inv(StepKeyword(m, b, next))
  {
  }

  lemma {:induction false} StepInv(m: Machine, b: byte)
    requires Inv(m)
    ensures Inv(Step(m, b))
  {
    if m.failure.Some? {
    } else if IsArg(m.state) {
      ArgInv(m, b);
    } else if m.state == MSG_PAYLOAD {
      PayloadInv(m, b);
    } else if IsBlanks(m.state) || IsLineEnd(m.state) {
    } else {
      FollowShape(m.state, b);
      KeywordInv(m, b, Follow(m.state, b));
    }
  }

  lemma {:induction false} FeedInv(m: Machine, s: bytes)
    requires Inv(m)
    ensures Inv(Feed(m, s))
  {
    if s != [] {
      FeedInv(m, s[..|s| - 1]);
      StepInv(Feed(m, s[..|s| - 1]), s[|s| - 1]);
    }
  }

  lemma EndChunkInv(m: Machine)
    requires Inv(m)
    ensures Inv(EndChunk(m))
    ensures EndChunk(m).failure.None? ==> Settled(EndChunk(m))
  {
  }

  lemma {:induction false} RunAllInv(m: Machine, chunks: seq<bytes>)
    requires Inv(m)
    ensures Inv(RunAll(m, chunks))
    decreases |chunks|
  {
    if chunks != [] {
      FeedInv(m, chunks[0]);
      EndChunkInv(Feed(m, chunks[0]));
      RunAllInv(Run(m, chunks[0]), chunks[1..]);
    }
  }
}
