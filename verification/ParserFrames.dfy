/** Round trip: the text of any list of frames, cut into any chunks, is read back as those frames. */
module ParserFrames {
  import opened Bytes
  import opened ParserSpec
  import opened ParserChunks

  datatype Frame =
    | Info(data: bytes)
    | Msg(subject: bytes, reply: Option<bytes>, sid: nat, payload: bytes)
    | HMsg(subject: bytes, reply: Option<bytes>, sid: nat, headerSize: nat, payload: bytes)
    | Ping
    | Pong
    | Ok
    | Err(data: bytes)

  /** The freedom a printer has: the case of the keyword and the blanks around arguments. */
  datatype Style = Style(keyword: bytes, blanks: bytes, gap: bytes)

  const CRLF: bytes := [CR, NL]

  function Keyword(f: Frame): bytes {
    match f
    case Info(_) => [I, N, F, O]
    case Msg(_, _, _, _) => [M, S, G]
    case HMsg(_, _, _, _, _) => [H, M, S, G]
    case Ping => [P, I, N, G]
    case Pong => [P, O, N, G]
    case Ok => [PLUS, O, K]
    case Err(_) => [MINUS, E, R, R]
  }

  /** The spelling of the keyword's byte `i`: a letter in either case, or the sign itself. */
  predicate Spells(f: Frame, i: nat, b: byte)
    requires i < |Keyword(f)|
  {
    if Keyword(f)[i] == PLUS || Keyword(f)[i] == MINUS then b == Keyword(f)[i] else Letter(b, Keyword(f)[i])
  }

  predicate IsBlankRun(s: bytes) {
    s != [] && forall i :: 0 <= i < |s| ==> Blank(s[i])
  }

  predicate StyleOk(f: Frame, st: Style) {
    && IsBlankRun(st.blanks) && IsBlankRun(st.gap)
    && |st.keyword| == |Keyword(f)|
    && forall i :: 0 <= i < |st.keyword| ==> Spells(f, i, st.keyword[i])
  }

  predicate IsWord(s: bytes) {
    s != [] && forall i :: 0 <= i < |s| ==> !Separator(s[i])
  }

  predicate IsText(s: bytes) {
    s != [] && !Blank(s[0]) && CR !in s && NL !in s
  }

  predicate FrameOk(f: Frame) {
    match f
    case Info(data) => IsText(data)
    case Err(data) => IsText(data)
    case Msg(subject, reply, sid, payload) =>
      IsWord(subject) && (reply.Some? ==> IsWord(reply.value)) && sid < Pow10(15) && |payload| <= MAX_64MB
    case HMsg(subject, reply, sid, headerSize, payload) =>
      && IsWord(subject) && (reply.Some? ==> IsWord(reply.value)) && sid < Pow10(15)
      && headerSize <= |payload| <= MAX_64MB
    case _ => true
  }

  function Join(words: seq<bytes>, gap: bytes): bytes {
    if words == [] then []
    else if |words| == 1 then words[0]
    else words[0] + gap + Join(words[1..], gap)
  }

  function ArgWords(f: Frame): seq<bytes>
    requires f.Msg? || f.HMsg?
  {
    [f.subject, Numeral(f.sid)]
    + (if f.reply.Some? then [f.reply.value] else [])
    + (if f.HMsg? then [Numeral(f.headerSize)] else [])
    + [Numeral(|f.payload|)]
  }

  function Print(f: Frame, st: Style): bytes {
    match f
    case Info(data) => st.keyword + st.blanks + data + CRLF
    case Err(data) => st.keyword + st.blanks + data + CRLF
    case Msg(_, _, _, payload) => st.keyword + st.blanks + Join(ArgWords(f), st.gap) + CRLF + payload + CRLF
    case HMsg(_, _, _, _, payload) => st.keyword + st.blanks + Join(ArgWords(f), st.gap) + CRLF + payload + CRLF
    case _ => st.keyword + CRLF
  }

  function PrintAll(frames: seq<(Frame, Style)>): bytes {
    if frames == [] then [] else Print(frames[0].0, frames[0].1) + PrintAll(frames[1..])
  }

  function MsgArgOf(f: Frame): MsgArg
    requires f.Msg? || f.HMsg?
  {
    MsgArg(f.subject, f.reply, f.sid, if f.HMsg? then f.headerSize else -1, |f.payload|)
  }

  function EventOf(f: Frame): Event {
    match f
    case Info(data) => InfoEvent(data)
    case Err(data) => ErrEvent(data)
    case Msg(_, _, _, payload) => MsgEvent(MsgArgOf(f), payload)
    case HMsg(_, _, _, _, payload) => MsgEvent(MsgArgOf(f), payload)
    case Ping => PingEvent
    case Pong => PongEvent
    case Ok => OkEvent
  }

  function Events(frames: seq<(Frame, Style)>): seq<Event> {
    if frames == [] then [] else [EventOf(frames[0].0)] + Events(frames[1..])
  }

  // ----- splitting a printed argument line

  lemma {:induction false} WordsAfterGap(gap: bytes, rest: bytes)
    requires forall i :: 0 <= i < |gap| ==> Blank(gap[i])
    ensures Words(gap + rest) == Words(rest)
  {
    if gap == [] {
      assert gap + rest == rest;
    } else {
      assert (gap + rest)[0] == gap[0] && Blank(gap[0]);
      assert (gap + rest)[1..] == gap[1..] + rest;
      WordsAfterGap(gap[1..], rest);
    }
  }

  lemma {:induction false} WordLengthOf(word: bytes, rest: bytes)
    requires forall i :: 0 <= i < |word| ==> !Separator(word[i])
    requires rest != [] ==> Separator(rest[0])
    ensures WordLength(word + rest) == |word|
  {
    if word == [] {
      assert word + rest == rest;
    } else {
      assert (word + rest)[0] == word[0] && !Separator(word[0]);
      assert (word + rest)[1..] == word[1..] + rest;
      WordLengthOf(word[1..], rest);
    }
  }

  lemma WordsFirst(word: bytes, rest: bytes)
    requires IsWord(word)
    requires rest != [] ==> Separator(rest[0])
    ensures Words(word + rest) == [word] + Words(rest)
  {
    WordLengthOf(word, rest);
    assert !Separator(word[0]);
    assert (word + rest)[..|word|] == word && (word + rest)[|word|..] == rest;
  }

  lemma {:induction false} WordsOfJoin(words: seq<bytes>, gap: bytes)
    requires forall i :: 0 <= i < |words| ==> IsWord(words[i])
    requires IsBlankRun(gap)
    ensures Words(Join(words, gap)) == words
  {
    if words == [] {
    } else if |words| == 1 {
      WordsFirst(words[0], []);
      assert words[0] + [] == words[0];
      assert words == [words[0]];
    } else {
      WordsOfJoin(words[1..], gap);
      var tail := Join(words[1..], gap);
      assert Blank(gap[0]);
      WordsFirst(words[0], gap + tail);
      WordsAfterGap(gap, tail);
      assert words[0] + (gap + tail) == words[0] + gap + tail;
    }
  }

  lemma NumeralIsWord(n: nat)
    ensures IsWord(Numeral(n))
  {
    assert forall i :: 0 <= i < |Numeral(n)| ==> IsDigit(Numeral(n)[i]);
  }

  lemma ParseNumeral(n: nat, max: Option<nat>)
    requires n < Pow10(15) && (max.Some? ==> n <= max.value)
    ensures ProtoParseInt(Numeral(n), max) == n
  {
    NumeralLength(n, 15);
    NumeralValue(n);
  }

  lemma PowBound()
    ensures MAX_64MB < Pow10(15)
  {
    assert Pow10(3) == 1000;
    assert Pow10(6) == 1000 * Pow10(3);
    assert Pow10(9) == 1000 * Pow10(6);
    assert Pow10(12) == 1000 * Pow10(9);
    assert Pow10(15) == 1000 * Pow10(12);
  }

  lemma ArgWordsAreWords(f: Frame)
    requires FrameOk(f) && (f.Msg? || f.HMsg?)
    ensures forall i :: 0 <= i < |ArgWords(f)| ==> IsWord(ArgWords(f)[i])
  {
    NumeralIsWord(f.sid);
    NumeralIsWord(|f.payload|);
    if f.HMsg? {
      NumeralIsWord(f.headerSize);
    }
  }

  /** The argument line of a frame is read back as its message arguments. */
  lemma ArgsRoundTrip(f: Frame, gap: bytes)
    requires FrameOk(f) && (f.Msg? || f.HMsg?) && IsBlankRun(gap)
    ensures ProcessMsgArgs(Join(ArgWords(f), gap), if f.HMsg? then 0 else -1, NEW_MSG_ARG) == Success(MsgArgOf(f))
  {
    hide Join, Words, Numeral, ProtoParseInt, IsWord, IsBlankRun, Pow10;
    ArgWordsAreWords(f);
    WordsOfJoin(ArgWords(f), gap);
    PowBound();
    ParseNumeral(f.sid, None);
    ParseNumeral(|f.payload|, Some(MAX_64MB));
    if f.HMsg? {
      ParseNumeral(f.headerSize, Some(MAX_64MB));
    }
  }

  // ----- reading a printed frame piece by piece

  /** `s` takes `m` to `m1`, and no byte of it breaks the CR condition. */
  predicate Reads(m: Machine, s: bytes, m1: Machine) {
    Clean(m, s) && Feed(m, s) == m1
  }

  lemma ReadsNothing(m: Machine)
    ensures Reads(m, [], m)
  {
  }

  lemma ReadsByte(m: Machine, b: byte)
    requires CleanStep(m, b)
    ensures Reads(m, [b], Step(m, b))
  {
    FeedOne(m, b);
    assert [b][..0] == [];
  }

  lemma {:induction false} ReadsConcat(m: Machine, a: bytes, m1: Machine, b: bytes, m2: Machine)
    requires Reads(m, a, m1) && Reads(m1, b, m2)
    ensures Reads(m, a + b, m2)
  {
    FeedConcat(m, a, b);
    var s := a + b;
    forall i | 0 <= i < |s|
      ensures CleanStep(Feed(m, s[..i]), s[i])
    {
      if i < |a| {
        assert s[..i] == a[..i];
      } else {
        assert s[..i] == a + b[..i - |a|];
        FeedConcat(m, a, b[..i - |a|]);
      }
    }
  }

  /** The states a keyword leads through. */
  function Path(f: Frame): seq<State> {
    match f
    case Info(_) => [OP_I, OP_IN, OP_INF, OP_INFO]
    case Msg(_, _, _, _) => [OP_M, OP_MS, OP_MSG]
    case HMsg(_, _, _, _, _) => [OP_H, OP_M, OP_MS, OP_MSG]
    case Ping => [OP_P, OP_PI, OP_PIN, OP_PING]
    case Pong => [OP_P, OP_PO, OP_PON, OP_PONG]
    case Ok => [OP_PLUS, OP_PLUS_O, OP_PLUS_OK]
    case Err(_) => [OP_MINUS, OP_MINUS_E, OP_MINUS_ER, OP_MINUS_ERR]
  }

  predicate IsKeywordState(s: State) {
    !IsArg(s) && s != MSG_PAYLOAD && !IsBlanks(s) && !IsLineEnd(s)
  }

  predicate PathStepOk(f: Frame, i: nat, b: byte) {
    && i < |Path(f)|
    && var from := if i == 0 then OP_START else Path(f)[i - 1];
       IsKeywordState(from) && Follow(from, b) == Some(Path(f)[i])
  }

  lemma LinePath(f: Frame, i: nat, b: byte)
    requires f.Info? || f.Err?
    requires i < |Keyword(f)| && Spells(f, i, b)
    ensures PathStepOk(f, i, b)
  {
    if i == 0 {
    } else if i == 1 {
    } else if i == 2 {
    } else {
      assert i == 3;
    }
  }

  lemma MsgPath(f: Frame, i: nat, b: byte)
    requires f.Msg? || f.HMsg?
    requires i < |Keyword(f)| && Spells(f, i, b)
    ensures PathStepOk(f, i, b)
  {
    if i == 0 {
    } else if i == 1 {
    } else if i == 2 {
    } else {
      assert i == 3;
    }
  }

  lemma PingPath(f: Frame, i: nat, b: byte)
    requires f.Ping? || f.Pong?
    requires i < |Keyword(f)| && Spells(f, i, b)
    ensures PathStepOk(f, i, b)
  {
    if i == 0 {
    } else if i == 1 {
    } else if i == 2 {
    } else {
      assert i == 3;
    }
  }

  lemma OkPath(f: Frame, i: nat, b: byte)
    requires f.Ok?
    requires i < |Keyword(f)| && Spells(f, i, b)
    ensures PathStepOk(f, i, b)
  {
    if i == 0 {
    } else if i == 1 {
    } else {
      assert i == 2;
    }
  }

  lemma PathStep(f: Frame, i: nat, b: byte)
    requires i < |Keyword(f)| && Spells(f, i, b)
    ensures PathStepOk(f, i, b)
  {
    match f {
      case Info(_) => LinePath(f, i, b);
      case Err(_) => LinePath(f, i, b);
      case Msg(_, _, _, _) => MsgPath(f, i, b);
      case HMsg(_, _, _, _, _) => MsgPath(f, i, b);
      case Ping => PingPath(f, i, b);
      case Pong => PingPath(f, i, b);
      case Ok => OkPath(f, i, b);
    }
  }

  /** A machine between frames. */
  predicate Idle(m: Machine) {
    Shape(m) && m.failure.None? && m.state == OP_START
  }

  /** What the keyword of a frame sets besides the state. */
  function Begin(m: Machine, f: Frame): Machine {
    match f
    case Msg(_, _, _, _) => m.(hdr := -1, ma := NEW_MSG_ARG)
    case HMsg(_, _, _, _, _) => m.(hdr := 0, ma := NEW_MSG_ARG)
    case _ => m
  }

  lemma KeywordByte(m: Machine, b: byte, next: State)
    requires m.failure.None? && m.state != OP_START && IsKeywordState(m.state) && Follow(m.state, b) == Some(next)
    ensures Step(m, b) == m.(state := next)
  {
  }

  lemma FirstKeywordByte(m: Machine, f: Frame, b: byte)
    requires Idle(m) && Spells(f, 0, b) && Follow(OP_START, b) == Some(Path(f)[0])
    ensures Step(m, b) == Begin(m, f).(state := Path(f)[0])
  {
  }

  lemma {:induction false} ReadsKeyword(m: Machine, f: Frame, k: bytes)
    requires Idle(m) && 0 < |k| <= |Keyword(f)|
    requires forall i :: 0 <= i < |k| ==> Spells(f, i, k[i])
    ensures |k| <= |Path(f)|
    ensures Reads(m, k, Begin(m, f).(state := Path(f)[|k| - 1]))
  {
    hide Reads, Spells, Follow;
    var n := |k| - 1;
    PathStep(f, n, k[n]);
    if n == 0 {
      FirstKeywordByte(m, f, k[0]);
      ReadsByte(m, k[0]);
      assert k == [k[0]];
    } else {
      ReadsKeyword(m, f, k[..n]);
      var m1 := Begin(m, f).(state := Path(f)[n - 1]);
      PathAdvances(f, n - 1);
      KeywordByte(m1, k[n], Path(f)[n]);
      ReadsByte(m1, k[n]);
      ReadsConcat(m, k[..n], m1, [k[n]], m1.(state := Path(f)[n]));
      assert k[..n] + [k[n]] == k;
    }
  }

  lemma PathAdvances(f: Frame, i: nat)
    requires i < |Path(f)|
    ensures Path(f)[i] != OP_START
  {
  }

  lemma {:induction false} ReadsBlanks(m: Machine, s: bytes)
    requires m.failure.None? && IsBlanks(m.state) && forall i :: 0 <= i < |s| ==> Blank(s[i])
    ensures Reads(m, s, m)
  {
    if s != [] {
      var n := |s| - 1;
      ReadsBlanks(m, s[..n]);
      ReadsByte(m, s[n]);
      ReadsConcat(m, s[..n], m, [s[n]], m);
      assert s[..n] + [s[n]] == s;
    }
  }

  /** The blanks after a keyword; `spaced` is the state that skips them. */
  lemma {:induction false} ReadsGap(m: Machine, s: bytes, spaced: State)
    requires m.failure.None? && IsBlankRun(s)
    requires || (m.state == OP_INFO && spaced == OP_INFO_SPC)
             || (m.state == OP_MSG && spaced == OP_MSG_SPC)
             || (m.state == OP_MINUS_ERR && spaced == OP_MINUS_ERR_SPC)
    ensures Reads(m, s, m.(state := spaced))
  {
    var m1 := m.(state := spaced);
    assert Blank(s[0]);
    KeywordByte(m, s[0], spaced);
    ReadsByte(m, s[0]);
    ReadsBlanks(m1, s[1..]);
    ReadsConcat(m, [s[0]], m1, s[1..], m1);
    assert [s[0]] + s[1..] == s;
  }

  lemma ArgByte(m: Machine, b: byte)
    requires m.failure.None? && IsArg(m.state) && m.argBuf.None? && m.drop == 0 && b != NL
    ensures Reads(m, [b], m.(cur := m.cur + [b], drop := if b == CR then 1 else 0))
  {
    ReadsByte(m, b);
  }

  lemma {:induction false} ReadsArgBytes(m: Machine, s: bytes)
    requires m.failure.None? && IsArg(m.state) && m.argBuf.None? && m.drop == 0 && CR !in s && NL !in s
    ensures Reads(m, s, m.(cur := m.cur + s))
  {
    hide Reads;
    if s == [] {
      assert m.cur + [] == m.cur;
      ReadsNothing(m);
    } else {
      var n := |s| - 1;
      var m1 := m.(cur := m.cur + s[..n]);
      ReadsArgBytes(m, s[..n]);
      ArgByte(m1, s[n]);
      ReadsConcat(m, s[..n], m1, [s[n]], m1.(cur := m1.cur + [s[n]]));
      assert s[..n] + [s[n]] == s;
      assert m.cur + s == m.cur + s[..n] + [s[n]];
    }
  }

  /** An argument and the CR after it. */
  lemma ReadsArgument(m: Machine, arg: bytes)
    requires m.failure.None? && IsBlanks(m.state) && KeywordShape(m) && IsText(arg)
    ensures Reads(m, arg + [CR], m.(state := ArgOf(m.state), cur := arg + [CR], drop := 1))
  {
    var m1 := m.(state := ArgOf(m.state), cur := [arg[0]]);
    ReadsByte(m, arg[0]);
    ReadsArgBytes(m1, arg[1..]);
    assert [arg[0]] + arg[1..] == arg;
    var m2 := m1.(cur := arg);
    ReadsConcat(m, [arg[0]], m1, arg[1..], m2);
    ArgByte(m2, CR);
    ReadsConcat(m, arg, m2, [CR], m2.(cur := arg + [CR], drop := 1));
  }

  /** The NL after the argument of INFO or -ERR. */
  lemma ReadsLine(m: Machine, data: bytes)
    requires m.failure.None? && (m.state == INFO_ARG || m.state == MINUS_ERR_ARG)
    requires m.argBuf.None? && m.cur == data + [CR] && m.drop == 1
    ensures Reads(m, [NL], Push(m, if m.state == INFO_ARG then InfoEvent(data) else ErrEvent(data)).(
                             drop := 0, cur := [], state := OP_START))
  {
    assert Argument(m) == data;
    ReadsByte(m, NL);
  }

  /** The NL after the argument of MSG or HMSG. */
  lemma ReadsMsgLine(m: Machine, line: bytes, ma: MsgArg)
    requires m.failure.None? && m.state == MSG_ARG && m.argBuf.None? && m.cur == line + [CR] && m.drop == 1
    requires ProcessMsgArgs(line, m.hdr, m.ma) == Success(ma)
    ensures Reads(m, [NL], m.(ma := ma, drop := 0, cur := [], state := MSG_PAYLOAD))
  {
    assert Argument(m) == line;
    ReadsByte(m, NL);
  }

  lemma {:induction false} ReadsPayload(m: Machine, s: bytes)
    requires m.failure.None? && m.state == MSG_PAYLOAD && m.msgBuf.None? && |m.cur| + |s| <= m.ma.size
    ensures Reads(m, s, m.(cur := m.cur + s))
  {
    forall i | 0 <= i < |s|
      ensures CleanStep(Feed(m, s[..i]), s[i])
    {
      FeedPayload(m, s[..i]);
    }
    FeedPayload(m, s);
  }

  lemma ReadsPayloadEnd(m: Machine)
    requires m.failure.None? && m.state == MSG_PAYLOAD && m.msgBuf.None? && |m.cur| == m.ma.size
    ensures Reads(m, CRLF, Push(m, MsgEvent(m.ma, m.cur)).(cur := [], argBuf := None, state := OP_START))
  {
    var m1 := Push(m, MsgEvent(m.ma, m.cur)).(cur := [], argBuf := None, state := MSG_END);
    ReadsByte(m, CR);
    assert Step(m, CR) == m1;
    ReadsByte(m1, NL);
    assert Step(m1, NL) == m1.(events := m1.events + [], state := OP_START);
    assert m1.events + [] == m1.events;
    ReadsConcat(m, [CR], m1, [NL], m1.(state := OP_START));
    assert [CR] + [NL] == CRLF;
  }

  // ----- whole frames

  /** `m1` is idle again and has pushed exactly `events` since `m`. */
  predicate Delivered(m: Machine, m1: Machine, events: seq<Event>) {
    Idle(m1) && m1.events == m.events + events
  }

  lemma {:induction false} ReadsPlain(m: Machine, f: Frame, st: Style) returns (m1: Machine)
    requires Idle(m) && StyleOk(f, st) && (f.Ping? || f.Pong? || f.Ok?)
    ensures Reads(m, Print(f, st), m1) && Delivered(m, m1, [EventOf(f)])
  {
    hide Reads;
    ReadsKeyword(m, f, st.keyword);
    var k := m.(state := Path(f)[|st.keyword| - 1]);
    ReadsByte(k, CR);
    assert Step(k, CR) == k;
    ReadsByte(k, NL);
    m1 := Step(k, NL);
    ReadsConcat(k, [CR], k, [NL], m1);
    assert [CR] + [NL] == CRLF;
    ReadsConcat(m, st.keyword, k, CRLF, m1);
  }

  function Spaced(f: Frame): State {
    if f.Info? then OP_INFO_SPC else if f.Err? then OP_MINUS_ERR_SPC else OP_MSG_SPC
  }

  lemma {:induction false} ReadsKeywordAndBlanks(m: Machine, f: Frame, st: Style)
    requires Idle(m) && StyleOk(f, st) && !f.Ping? && !f.Pong? && !f.Ok?
    ensures Reads(m, st.keyword + st.blanks, Begin(m, f).(state := Spaced(f)))
  {
    hide Reads, Spells;
    ReadsKeyword(m, f, st.keyword);
    var k := Begin(m, f).(state := Path(f)[|st.keyword| - 1]);
    ReadsGap(k, st.blanks, Spaced(f));
    ReadsConcat(m, st.keyword, k, st.blanks, k.(state := Spaced(f)));
  }

  /** Keyword, blanks, argument and CR: the common start of the other frames. */
  lemma {:induction false} ReadsUpToCR(m: Machine, f: Frame, st: Style, arg: bytes) returns (m1: Machine)
    requires Idle(m) && StyleOk(f, st) && !f.Ping? && !f.Pong? && !f.Ok? && IsText(arg)
    ensures Reads(m, st.keyword + st.blanks + (arg + [CR]), m1)
    ensures m1 == Begin(m, f).(state := ArgOf(Spaced(f)), cur := arg + [CR], drop := 1)
  {
    hide Reads, StyleOk, IsText;
    ReadsKeywordAndBlanks(m, f, st);
    var g := Begin(m, f).(state := Spaced(f));
    ReadsArgument(g, arg);
    m1 := g.(state := ArgOf(Spaced(f)), cur := arg + [CR], drop := 1);
    ReadsConcat(m, st.keyword + st.blanks, g, arg + [CR], m1);
  }

  lemma {:induction false} ReadsText(m: Machine, f: Frame, st: Style) returns (m1: Machine)
    requires Idle(m) && StyleOk(f, st) && FrameOk(f) && (f.Info? || f.Err?)
    ensures Reads(m, Print(f, st), m1) && Delivered(m, m1, [EventOf(f)])
  {
    hide Reads;
    var a := ReadsUpToCR(m, f, st, f.data);
    ReadsLine(a, f.data);
    m1 := Push(m, EventOf(f));
    var text := st.keyword + st.blanks + (f.data + [CR]);
    ReadsConcat(m, text, a, [NL], m1);
    assert text + [NL] == Print(f, st);
  }

  lemma {:induction false} JoinIsText(words: seq<bytes>, gap: bytes)
    requires words != [] && IsBlankRun(gap)
    requires forall i :: 0 <= i < |words| ==> IsWord(words[i])
    ensures IsText(Join(words, gap))
  {
    assert IsWord(words[0]) && !Separator(words[0][0]);
    assert forall i :: 0 <= i < |gap| ==> Blank(gap[i]);
    if |words| > 1 {
      JoinIsText(words[1..], gap);
    }
  }

  lemma ArgLine(f: Frame, st: Style)
    requires StyleOk(f, st) && FrameOk(f) && (f.Msg? || f.HMsg?)
    ensures IsText(Join(ArgWords(f), st.gap))
    ensures ProcessMsgArgs(Join(ArgWords(f), st.gap), if f.HMsg? then 0 else -1, NEW_MSG_ARG) == Success(MsgArgOf(f))
  {
    ArgWordsAreWords(f);
    JoinIsText(ArgWords(f), st.gap);
    ArgsRoundTrip(f, st.gap);
  }

  /** A machine that has read `line` and the CR of a MSG or HMSG frame. */
  predicate HasLine(m: Machine, f: Frame, line: bytes) {
    && m.failure.None? && m.state == MSG_ARG && m.argBuf.None? && m.msgBuf.None?
    && m.cur == line + [CR] && m.drop == 1
    && m.hdr == (if f.HMsg? then 0 else -1) && m.ma == NEW_MSG_ARG
  }

  lemma BeginsMsg(m: Machine, f: Frame, a: Machine, line: bytes)
    requires (f.Msg? || f.HMsg?) && m.failure.None? && m.argBuf.None? && m.msgBuf.None?
    requires a == Begin(m, f).(state := ArgOf(Spaced(f)), cur := line + [CR], drop := 1)
    ensures HasLine(a, f, line) && a.events == m.events
  {
  }

  lemma IdleHasNoBuffer(m: Machine)
    requires Idle(m)
    ensures m.failure.None? && m.argBuf.None? && m.msgBuf.None?
  {
  }

  lemma {:induction false} ReadsMsgLineOf(m: Machine, f: Frame, st: Style) returns (a: Machine)
    requires Idle(m) && StyleOk(f, st) && FrameOk(f) && (f.Msg? || f.HMsg?)
    ensures Reads(m, st.keyword + st.blanks + (Join(ArgWords(f), st.gap) + [CR]), a)
    ensures HasLine(a, f, Join(ArgWords(f), st.gap)) && a.events == m.events
  {
    hide Reads, ProcessMsgArgs, Join, StyleOk, FrameOk, ArgWords, Idle, IsText;
    var line := Join(ArgWords(f), st.gap);
    ArgLine(f, st);
    IdleHasNoBuffer(m);
    a := ReadsUpToCR(m, f, st, line);
    BeginsMsg(m, f, a, line);
  }

  /** The machine at the payload of a MSG or HMSG frame. */
  predicate AtPayload(m: Machine, ma: MsgArg) {
    m.failure.None? && m.state == MSG_PAYLOAD && m.argBuf.None? && m.msgBuf.None? && m.cur == [] && m.drop == 0 && m.ma == ma
  }

  lemma {:induction false} ReadsMsgArgs(m: Machine, f: Frame, st: Style) returns (p: Machine)
    requires Idle(m) && StyleOk(f, st) && FrameOk(f) && (f.Msg? || f.HMsg?)
    ensures Reads(m, st.keyword + st.blanks + (Join(ArgWords(f), st.gap) + [CR]) + [NL], p)
    ensures AtPayload(p, MsgArgOf(f)) && p.events == m.events
  {
    hide Reads, ProcessMsgArgs, Join, StyleOk, FrameOk, ArgWords, Idle, MsgArgOf, IsText;
    var line := Join(ArgWords(f), st.gap);
    var a := ReadsMsgLineOf(m, f, st);
    ArgLine(f, st);
    ReadsMsgLine(a, line, MsgArgOf(f));
    p := a.(ma := MsgArgOf(f), drop := 0, cur := [], state := MSG_PAYLOAD);
    ReadsConcat(m, st.keyword + st.blanks + (line + [CR]), a, [NL], p);
  }

  lemma PrintsMsg(f: Frame, st: Style)
    requires f.Msg? || f.HMsg?
    ensures st.keyword + st.blanks + (Join(ArgWords(f), st.gap) + [CR]) + [NL] + f.payload + CRLF == Print(f, st)
  {
    hide Join, ArgWords;
  }

  lemma {:induction false} ReadsMsg(m: Machine, f: Frame, st: Style) returns (m1: Machine)
    requires Idle(m) && StyleOk(f, st) && FrameOk(f) && (f.Msg? || f.HMsg?)
    ensures Reads(m, Print(f, st), m1) && Delivered(m, m1, [EventOf(f)])
  {
    hide Reads, Join, StyleOk, FrameOk, ArgWords, Print;
    var p := ReadsMsgArgs(m, f, st);
    var text := st.keyword + st.blanks + (Join(ArgWords(f), st.gap) + [CR]) + [NL];
    ReadsPayload(p, f.payload);
    assert [] + f.payload == f.payload;
    var q := p.(cur := f.payload);
    ReadsConcat(m, text, p, f.payload, q);
    ReadsPayloadEnd(q);
    m1 := Push(q, EventOf(f)).(cur := [], state := OP_START);
    ReadsConcat(m, text + f.payload, q, CRLF, m1);
    PrintsMsg(f, st);
  }

  lemma {:induction false} ReadsFrame(m: Machine, f: Frame, st: Style) returns (m1: Machine)
    requires Idle(m) && StyleOk(f, st) && FrameOk(f)
    ensures Reads(m, Print(f, st), m1) && Delivered(m, m1, [EventOf(f)])
  {
    if f.Info? || f.Err? {
      m1 := ReadsText(m, f, st);
    } else if f.Msg? || f.HMsg? {
      m1 := ReadsMsg(m, f, st);
    } else {
      m1 := ReadsPlain(m, f, st);
    }
  }

  predicate FramesOk(frames: seq<(Frame, Style)>) {
    forall i :: 0 <= i < |frames| ==> FrameOk(frames[i].0) && StyleOk(frames[i].0, frames[i].1)
  }

  lemma DeliveredThen(m: Machine, m1: Machine, m2: Machine, e1: seq<Event>, e2: seq<Event>)
    requires Delivered(m, m1, e1) && Delivered(m1, m2, e2)
    ensures Delivered(m, m2, e1 + e2)
  {
    assert m.events + e1 + e2 == m.events + (e1 + e2);
  }

  lemma {:induction false} ReadsFrames(m: Machine, frames: seq<(Frame, Style)>) returns (m1: Machine)
    requires Idle(m) && FramesOk(frames)
    ensures Reads(m, PrintAll(frames), m1) && Delivered(m, m1, Events(frames))
    decreases |frames|
  {
    hide Reads, Delivered, Print, FrameOk, StyleOk, Idle;
    if frames == [] {
      m1 := m;
      ReadsNothing(m);
      DeliveredNothing(m);
    } else {
      var (f, st) := frames[0];
      var m0 := ReadsFrame(m, f, st);
      DeliveredIdle(m, m0, [EventOf(f)]);
      m1 := ReadsFrames(m0, frames[1..]);
      ReadsConcat(m, Print(f, st), m0, PrintAll(frames[1..]), m1);
      DeliveredThen(m, m0, m1, [EventOf(f)], Events(frames[1..]));
    }
  }

  lemma DeliveredNothing(m: Machine)
    requires Idle(m)
    ensures Delivered(m, m, [])
  {
    assert m.events + [] == m.events;
  }

  lemma DeliveredIdle(m: Machine, m1: Machine, events: seq<Event>)
    requires Delivered(m, m1, events)
    ensures Idle(m1)
  {
  }

  /**
   * Round trip: any list of frames, in any spelling, with any payload bytes and cut into any
   * chunks, is read back as exactly those frames, and the parser waits for the next one.
   */
  lemma {:induction false} FrameRoundTrip(frames: seq<(Frame, Style)>, chunks: seq<bytes>)
    requires FramesOk(frames) && Flatten(chunks) == PrintAll(frames)
    ensures var m := RunAll(INITIAL, chunks);
            (m.events, m.failure, m.state) == (Events(frames), None, OP_START)
  {
    var m1 := ReadsFrames(INITIAL, frames);
    assert INITIAL.events + Events(frames) == Events(frames);
    ChunkIndependence(INITIAL, chunks);
    assert EndChunk(m1) == m1;
  }

  lemma PowersBelow2To53()
    ensures Pow10(15) < 0x20_0000_0000_0000
  {
    assert Pow10(3) == 1000;
    assert Pow10(6) == 1000 * Pow10(3);
    assert Pow10(9) == 1000 * Pow10(6);
    assert Pow10(12) == 1000 * Pow10(9);
    assert Pow10(15) == 1000 * Pow10(12);
  }

  /** Exactly `size` payload bytes, header bytes within them, and numbers that a double holds exactly. */
  predicate Sound(e: Event) {
    e.MsgEvent? ==>
      && |e.data| == e.msg.size <= MAX_64MB
      && (e.msg.hdr == -1 || 0 <= e.msg.hdr <= e.msg.size)
      && 0 <= e.msg.sid < 0x20_0000_0000_0000
  }

  /** Whatever bytes arrive in whatever chunks, every delivered message is sound. */
  lemma {:induction false} DeliveredMessagesAreSound(chunks: seq<bytes>)
    ensures forall i :: 0 <= i < |RunAll(INITIAL, chunks).events| ==> Sound(RunAll(INITIAL, chunks).events[i])
  {
    RunAllInv(INITIAL, chunks);
    PowersBelow2To53();
    forall i | 0 <= i < |RunAll(INITIAL, chunks).events|
      ensures Sound(RunAll(INITIAL, chunks).events[i])
    {
      assert EventOk(RunAll(INITIAL, chunks).events[i]);
    }
  }
}
