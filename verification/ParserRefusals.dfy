/** Which bytes the wire parser refuses (core/src/parser.ts): exactly those that fit no line. */
module ParserRefusals {
  import opened Bytes
  import opened ParserSpec

  /** The words a line may start with; those with arguments are followed by a blank. */
  const KEYWORDS: seq<bytes> := [
    [M, S, G, SPACE], [H, M, S, G, SPACE], [P, I, N, G], [P, O, N, G], [PLUS, O, K], [MINUS, E, R, R, SPACE], [I, N, F, O, SPACE]]

  /** A byte in the place of a byte of a keyword: a letter in either case, a blank for the space. */
  predicate Fits(b: byte, k: byte) {
    b == k || (k == SPACE && b == TAB) || (65 <= k <= 90 && b == k + 32)
  }

  /** `s` is the beginning of the word, or the word with more behind it, as far as both go. */
  predicate Agrees(s: bytes, word: bytes) {
    forall i :: 0 <= i < |s| && i < |word| ==> Fits(s[i], word[i])
  }

  /** What may follow in a state: what is left of the words that fit so far. */
  function Left(s: State): seq<bytes> {
    match s
    case OP_START => KEYWORDS
    case OP_H => [[M, S, G, SPACE]]
    case OP_M => [[S, G, SPACE]]
    case OP_MS => [[G, SPACE]]
    case OP_MSG => [[SPACE]]
    case OP_PLUS => [[O, K]]
    case OP_PLUS_O => [[K]]
    case OP_MINUS => [[E, R, R, SPACE]]
    case OP_MINUS_E => [[R, R, SPACE]]
    case OP_MINUS_ER => [[R, SPACE]]
    case OP_MINUS_ERR => [[SPACE]]
    case OP_P => [[I, N, G], [O, N, G]]
    case OP_PO => [[N, G]]
    case OP_PON => [[G]]
    case OP_PI => [[N, G]]
    case OP_PIN => [[G]]
    case OP_I => [[N, F, O, SPACE]]
    case OP_IN => [[F, O, SPACE]]
    case OP_INF => [[O, SPACE]]
    case OP_INFO => [[SPACE]]
    case _ => [[]]
  }

  predicate IsKeyword(s: State) {
    !IsArg(s) && !IsBlanks(s) && !IsLineEnd(s) && s != MSG_PAYLOAD
  }

  /** A single word is left, and only its first byte takes the machine on. */
  predicate Single(s: State, b: byte) {
    && |Left(s)| == 1 && Left(s)[0] != []
    && (Follow(s, b).Some? <==> Fits(b, Left(s)[0][0]))
    && (Follow(s, b).Some? ==> Left(Follow(s, b).value) == [Left(s)[0][1..]])
  }

  lemma MsgWords(s: State, b: byte)
    requires s == OP_H || s == OP_M || s == OP_MS || s == OP_MSG || s == OP_PO || s == OP_PON
    ensures Single(s, b)
  {
    match s {
      case OP_H => assert [M, S, G, SPACE][1..] == [S, G, SPACE];
      case OP_M => assert [S, G, SPACE][1..] == [G, SPACE];
      case OP_MS => assert [G, SPACE][1..] == [SPACE];
      case OP_MSG => assert [SPACE][1..] == [];
      case OP_PO => assert [N, G][1..] == [G];
      case OP_PON => assert [G][1..] == [];
    }
  }

  lemma SignWords(s: State, b: byte)
    requires s == OP_PLUS || s == OP_PLUS_O || s == OP_MINUS || s == OP_MINUS_E || s == OP_MINUS_ER || s == OP_MINUS_ERR
    ensures Single(s, b)
  {
    match s {
      case OP_PLUS => assert [O, K][1..] == [K];
      case OP_PLUS_O => assert [K][1..] == [];
      case OP_MINUS => assert [E, R, R, SPACE][1..] == [R, R, SPACE];
      case OP_MINUS_E => assert [R, R, SPACE][1..] == [R, SPACE];
      case OP_MINUS_ER => assert [R, SPACE][1..] == [SPACE];
      case OP_MINUS_ERR => assert [SPACE][1..] == [];
    }
  }

  lemma InfoWords(s: State, b: byte)
    requires s == OP_PI || s == OP_PIN || s == OP_I || s == OP_IN || s == OP_INF || s == OP_INFO
    ensures Single(s, b)
  {
    match s {
      case OP_PI => assert [N, G][1..] == [G];
      case OP_PIN => assert [G][1..] == [];
      case OP_I => assert [N, F, O, SPACE][1..] == [F, O, SPACE];
      case OP_IN => assert [F, O, SPACE][1..] == [O, SPACE];
      case OP_INF => assert [O, SPACE][1..] == [SPACE];
      case OP_INFO => assert [SPACE][1..] == [];
    }
  }

  lemma OneWord(s: State, b: byte)
    requires IsKeyword(s) && s != OP_START && s != OP_P
    ensures Single(s, b)
  {
    hide Single;
    if s == OP_H || s == OP_M || s == OP_MS || s == OP_MSG || s == OP_PO || s == OP_PON {
      MsgWords(s, b);
    } else if s == OP_PLUS || s == OP_PLUS_O || s == OP_MINUS || s == OP_MINUS_E || s == OP_MINUS_ER || s == OP_MINUS_ERR {
      SignWords(s, b);
    } else {
      InfoWords(s, b);
    }
  }

  lemma StartWords(b: byte, i: nat)
    requires i < 7
    ensures KEYWORDS[i] != [] && (Fits(b, KEYWORDS[i][0]) ==> Follow(OP_START, b).Some? && KEYWORDS[i][1..] in Left(Follow(OP_START, b).value))
  {
    var w := KEYWORDS[i];
    assert [M, S, G, SPACE][1..] == [S, G, SPACE] && [H, M, S, G, SPACE][1..] == [M, S, G, SPACE];
    assert [P, I, N, G][1..] == [I, N, G] && [P, O, N, G][1..] == [O, N, G] && [PLUS, O, K][1..] == [O, K];
    assert [MINUS, E, R, R, SPACE][1..] == [E, R, R, SPACE] && [I, N, F, O, SPACE][1..] == [N, F, O, SPACE];
  }

  lemma PWords(b: byte, i: nat)
    requires i < 2
    ensures Left(OP_P)[i] != [] && (Fits(b, Left(OP_P)[i][0]) ==> Follow(OP_P, b).Some? && Left(OP_P)[i][1..] in Left(Follow(OP_P, b).value))
  {
    assert [I, N, G][1..] == [N, G] && [O, N, G][1..] == [N, G];
  }

  /** The state machine of the keywords follows the words byte by byte. */
  lemma FollowsWords(s: State, b: byte, i: nat)
    requires IsKeyword(s) && i < |Left(s)|
    ensures Left(s)[i] != []
    ensures Fits(b, Left(s)[i][0]) ==> Follow(s, b).Some? && Left(s)[i][1..] in Left(Follow(s, b).value)
  {
    if s == OP_START {
      StartWords(b, i);
    } else if s == OP_P {
      PWords(b, i);
    } else {
      hide Left, Follow, Fits;
      OneWord(s, b);
    }
  }

  /** What is left in the next state was left before. */
  predicate ComeFrom(s: State, b: byte, rest: seq<bytes>, j: seq<nat>) {
    |j| == |rest| && forall i :: 0 <= i < |rest| ==>
      j[i] < |Left(s)| && Left(s)[j[i]] != [] && Fits(b, Left(s)[j[i]][0]) && rest[i] == Left(s)[j[i]][1..]
  }

  lemma StartComesFrom(b: byte) returns (j: seq<nat>)
    requires Follow(OP_START, b).Some?
    ensures ComeFrom(OP_START, b, Left(Follow(OP_START, b).value), j)
  {
    var next := Follow(OP_START, b).value;
    j := if next == OP_M then [0] else if next == OP_H then [1] else if next == OP_P then [2, 3]
         else if next == OP_PLUS then [4] else if next == OP_MINUS then [5] else [6];
    assert [M, S, G, SPACE][1..] == [S, G, SPACE] && [H, M, S, G, SPACE][1..] == [M, S, G, SPACE];
    assert [P, I, N, G][1..] == [I, N, G] && [P, O, N, G][1..] == [O, N, G] && [PLUS, O, K][1..] == [O, K];
    assert [MINUS, E, R, R, SPACE][1..] == [E, R, R, SPACE] && [I, N, F, O, SPACE][1..] == [N, F, O, SPACE];
  }

  lemma PComesFrom(b: byte) returns (j: seq<nat>)
    requires Follow(OP_P, b).Some?
    ensures ComeFrom(OP_P, b, Left(Follow(OP_P, b).value), j)
  {
    assert [I, N, G][1..] == [N, G] && [O, N, G][1..] == [N, G];
    j := if Follow(OP_P, b) == Some(OP_PI) then [0] else [1];
  }

  lemma FollowsOnlyWords(s: State, b: byte) returns (j: seq<nat>)
    requires IsKeyword(s) && Follow(s, b).Some?
    ensures ComeFrom(s, b, Left(Follow(s, b).value), j)
  {
    if s == OP_START {
      j := StartComesFrom(b);
    } else if s == OP_P {
      j := PComesFrom(b);
    } else {
      j := OneComesFrom(s, b);
    }
  }

  lemma OneComesFrom(s: State, b: byte) returns (j: seq<nat>)
    requires IsKeyword(s) && s != OP_START && s != OP_P && Follow(s, b).Some?
    ensures ComeFrom(s, b, Left(Follow(s, b).value), j)
  {
    hide Left, Follow, Fits, IsKeyword;
    OneWord(s, b);
    j := [0];
  }

  /** Some word agrees with the text, and the text does not go beyond it. */
  predicate Begins(s: bytes, words: seq<bytes>) {
    exists i :: 0 <= i < |words| && |s| <= |words[i]| && Agrees(s, words[i])
  }

  /** The text has a whole word at its front. */
  predicate Completes(s: bytes, words: seq<bytes>) {
    exists i :: 0 <= i < |words| && |s| > |words[i]| && Agrees(s, words[i])
  }

  lemma AgreesCons(s: bytes, word: bytes)
    requires s != [] && word != []
    ensures Agrees(s, word) <==> Fits(s[0], word[0]) && Agrees(s[1..], word[1..])
  {
    if Agrees(s, word) {
      assert forall i :: 0 <= i < |s[1..]| && i < |word[1..]| ==> s[1..][i] == s[i + 1] && word[1..][i] == word[i + 1];
    }
    if Fits(s[0], word[0]) && Agrees(s[1..], word[1..]) {
      forall i | 0 <= i < |s| && i < |word|
        ensures Fits(s[i], word[i])
      {
        if i > 0 {
          assert Fits(s[1..][i - 1], word[1..][i - 1]);
        }
      }
    }
  }

  /** One byte that fits takes the question to the next state. */
  lemma {:induction false} BeginsNext(s: State, text: bytes)
    requires IsKeyword(s) && text != [] && Follow(s, text[0]).Some?
    ensures Begins(text, Left(s)) <==> Begins(text[1..], Left(Follow(s, text[0]).value))
    ensures Completes(text, Left(s)) <==> Completes(text[1..], Left(Follow(s, text[0]).value))
  {
    hide Left, Fits, Follow, Agrees;
    var words, more, rest := Left(s), Left(Follow(s, text[0]).value), text[1..];
    var j := FollowsOnlyWords(s, text[0]);
    forall i | 0 <= i < |words| && Agrees(text, words[i])
      ensures words[i] != [] && Agrees(rest, words[i][1..]) && words[i][1..] in more
    {
      FollowsWords(s, text[0], i);
      AgreesCons(text, words[i]);
    }
    forall i | 0 <= i < |more| && Agrees(rest, more[i])
      ensures j[i] < |words| && Agrees(text, words[j[i]]) && |words[j[i]]| == |more[i]| + 1
    {
      AgreesCons(text, words[j[i]]);
    }
    Shift(text, words, more, j);
  }

  /** The words that agree before a byte are those that agree behind it. */
  lemma Shift(text: bytes, words: seq<bytes>, more: seq<bytes>, j: seq<nat>)
    requires text != [] && |j| == |more|
    requires forall i :: 0 <= i < |words| && Agrees(text, words[i]) ==>
               words[i] != [] && Agrees(text[1..], words[i][1..]) && words[i][1..] in more
    requires forall i :: 0 <= i < |more| && Agrees(text[1..], more[i]) ==>
               j[i] < |words| && Agrees(text, words[j[i]]) && |words[j[i]]| == |more[i]| + 1
    ensures Begins(text, words) <==> Begins(text[1..], more)
    ensures Completes(text, words) <==> Completes(text[1..], more)
  {
    hide Agrees;
    if i :| 0 <= i < |words| && |text| <= |words[i]| && Agrees(text, words[i]) {
      var k :| 0 <= k < |more| && more[k] == words[i][1..];
    }
    if i :| 0 <= i < |words| && |text| > |words[i]| && Agrees(text, words[i]) {
      var k :| 0 <= k < |more| && more[k] == words[i][1..];
    }
    if i :| 0 <= i < |more| && |text[1..]| <= |more[i]| && Agrees(text[1..], more[i]) {
      assert Agrees(text, words[j[i]]);
    }
    if i :| 0 <= i < |more| && |text[1..]| > |more[i]| && Agrees(text[1..], more[i]) {
      assert Agrees(text, words[j[i]]);
    }
  }

  /** A byte no word has in this place agrees with none. */
  lemma NoWord(s: State, text: bytes)
    requires IsKeyword(s) && text != [] && Follow(s, text[0]).None?
    ensures !Begins(text, Left(s)) && !Completes(text, Left(s))
  {
    hide Left, Fits, Follow, Agrees;
    forall i | 0 <= i < |Left(s)|
      ensures !Agrees(text, Left(s)[i])
    {
      FollowsWords(s, text[0], i);
      AgreesCons(text, Left(s)[i]);
    }
  }

  /** Nothing agrees with every word, and does not complete one. */
  lemma NoText(s: State)
    ensures Left(s) != [] && Begins([], Left(s)) && !Completes([], Left(s))
  {
    assert Left(s) != [];
    hide Left;
    assert Agrees([], Left(s)[0]);
  }

  /** Once a word is complete, any text goes beyond it. */
  lemma WordOver(s: State, text: bytes)
    requires !IsKeyword(s) && text != []
    ensures !Begins(text, Left(s)) && Completes(text, Left(s))
  {
    assert Left(s) == [[]];
    hide Left;
    assert Agrees(text, Left(s)[0]);
  }

  lemma StepFollows(m: Machine, b: byte)
    requires m.failure.None? && IsKeyword(m.state)
    ensures var m1 := Step(m, b);
            if Follow(m.state, b).Some? then m1.failure.None? && m1.state == Follow(m.state, b).value else m1.failure.Some?
  {
    hide Follow;
  }

  lemma {:induction false} KeywordFrom(m: Machine, text: bytes)
    requires m.failure.None? && IsKeyword(m.state) && !Completes(text, Left(m.state))
    ensures Feed(m, text).failure.None? <==> Begins(text, Left(m.state))
    decreases |text|
  {
    hide Left, Agrees, Begins, Completes, Follow, Feed, Step, IsKeyword;
    if text == [] {
      NoText(m.state);
      FeedNothing(m);
    } else {
      var m1 := Step(m, text[0]);
      FeedCons(m, text);
      StepFollows(m, text[0]);
      if Follow(m.state, text[0]).None? {
        NoWord(m.state, text);
        StaysFailed(m1, text[1..]);
      } else {
        BeginsNext(m.state, text);
        if IsKeyword(m1.state) {
          KeywordFrom(m1, text[1..]);
        } else if |text| > 1 {
          WordOver(m1.state, text[1..]);
        } else {
          assert text[1..] == [];
          NoText(m1.state);
          FeedNothing(m1);
        }
      }
    }
  }

  lemma {:induction false} StaysFailed(m: Machine, text: bytes)
    requires m.failure.Some?
    ensures Feed(m, text) == m
  {
  }

  /**
   * At the start of a line a text shorter than a keyword is refused exactly when no keyword, in any
   * case and with either blank, begins with it.
   */
  lemma {:induction false} KeywordExactly(m: Machine, text: bytes)
    requires m.failure.None? && m.state == OP_START && !Completes(text, KEYWORDS)
    ensures Feed(m, text).failure.None? <==> Begins(text, KEYWORDS)
  {
    KeywordFrom(m, text);
  }

  // ----- the argument line of MSG and HMSG

  /** A numeral the parser takes, and its value. */
  predicate IsNumber(a: bytes) {
    1 <= |a| <= 15 && forall i :: 0 <= i < |a| ==> IsDigit(a[i])
  }

  predicate NumberUpTo(a: bytes, max: nat) {
    IsNumber(a) && ValueOf(a) <= max
  }

  /** Subject, sid, an optional reply, the header size of HMSG, and the size. */
  predicate ArgsOk(arg: bytes, header: bool) {
    var w := Words(arg);
    var k := if header then 1 else 0;
    && (|w| == 3 + k || |w| == 4 + k)
    && IsNumber(w[1]) && NumberUpTo(w[|w| - 1], MAX_64MB)
    && (header ==> NumberUpTo(w[|w| - 2], ValueOf(w[|w| - 1])))
  }

  /** The argument line is taken exactly when it is well formed, and then each word goes to its field. */
  lemma ArgsExactly(arg: bytes, hdr: int)
    ensures var r, w := ProcessMsgArgs(arg, hdr, NEW_MSG_ARG), Words(arg);
            && (r.Success? <==> ArgsOk(arg, hdr >= 0))
            && (r.Success? ==>
                  && r.value.subject == w[0] && r.value.sid == ValueOf(w[1]) && r.value.size == ValueOf(w[|w| - 1])
                  && r.value.hdr == (if hdr >= 0 then ValueOf(w[|w| - 2]) else -1)
                  && r.value.reply == (if |w| == (if hdr >= 0 then 5 else 4) then Some(w[2]) else None))
  {
    hide Words;
  }

  /** A machine that has not failed refuses a byte only for these two reasons, and always for them. */
  lemma {:induction false} RefusesExactly(chunks: seq<bytes>, text: bytes, b: byte)
    requires Feed(RunAll(INITIAL, chunks), text).failure.None?
    ensures var m := Feed(RunAll(INITIAL, chunks), text);
            Step(m, b).failure.Some? <==>
              || (IsKeyword(m.state) && !Begins([b], Left(m.state)))
              || (m.state == MSG_ARG && b == NL && !ArgsOk(Argument(m), m.hdr >= 0))
  {
    var m := Feed(RunAll(INITIAL, chunks), text);
    RunAllInv(INITIAL, chunks);
    FeedInv(RunAll(INITIAL, chunks), text);
    assert m.state == MSG_ARG ==> m.ma == NEW_MSG_ARG;
    hide Inv, RunAll, Feed;
    RefusesThere(m, b);
  }

  lemma RefusesThere(m: Machine, b: byte)
    requires m.failure.None? && (m.state == MSG_ARG ==> m.ma == NEW_MSG_ARG)
    ensures Step(m, b).failure.Some? <==>
              || (IsKeyword(m.state) && !Begins([b], Left(m.state)))
              || (m.state == MSG_ARG && b == NL && !ArgsOk(Argument(m), m.hdr >= 0))
  {
    hide Follow, Left, Begins, ProcessMsgArgs, ArgsOk, Argument;
    if IsKeyword(m.state) {
      OneByte(m.state, b);
    }
    ArgsExactly(Argument(m), m.hdr);
  }

  lemma OneByte(s: State, b: byte)
    requires IsKeyword(s)
    ensures Begins([b], Left(s)) <==> Follow(s, b).Some?
  {
    hide Left, Follow, Fits;
    if Follow(s, b).Some? {
      var j := FollowsOnlyWords(s, b);
      NoText(Follow(s, b).value);
      assert Agrees([b], Left(s)[j[0]]);
    } else {
      NoWord(s, [b]);
    }
  }
}
