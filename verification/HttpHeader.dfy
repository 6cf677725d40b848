/** Header recognition: the automaton of header_states against plain comparison of
    strings, ignoring case. */
module HttpHeader {
  import opened HttpTypes
  import opened HttpSwitch
  import opened HttpRun
  import opened HttpParser
  import opened HttpGoes

  // ---------------------------------------------------------------- names

  predicate IsName(s: string) { s != "" && forall i :: 0 <= i < |s| ==> Token(s[i]) != '\0' }

  /** A name, lower-cased the way the table does it. */
  function Lowered(s: string): string { seq(|s|, i requires 0 <= i < |s| => Token(s[i])) }

  /** What a header name means: a comparison with the words the parser knows. */
  function Meaning(name: string): HeaderState {
    var w := Lowered(name);
    if w == CONNECTION.Spelling() || w == PROXY_CONNECTION.Spelling() then Connection
    else if w == CONTENT_LENGTH.Spelling() then ContentLength
    else if w == TRANSFER_ENCODING.Spelling() then TransferEncoding
    else if w == UPGRADE.Spelling() then Upgrade
    else General
  }

  /** What is left of a header state when the value starts. */
  function Class(h: HeaderState): HeaderState {
    if h in {Connection, ContentLength, TransferEncoding, Upgrade} then h else General
  }

  ghost predicate Inside(w: string, word: Word, index: nat) {
    |w| == index + 1 < word.Length() && w <= word.Spelling()
  }

  ghost predicate Outside(w: string) {
    && !(w <= CONNECTION.Spelling()) && !(w <= PROXY_CONNECTION.Spelling()) && !(w <= CONTENT_LENGTH.Spelling())
    && !(w <= TRANSFER_ENCODING.Spelling()) && !(w <= UPGRADE.Spelling())
  }

  /** What the automaton knows about the letters read so far. */
  ghost predicate FieldFits(h: HeaderState, index: nat, w: string) {
    match h
    case General => Outside(w)
    case C => w == "c" && index == 0
    case CO => w == "co" && index == 1
    case CON => w == "con" && index == 2
    case MatchingConnection => |w| >= 4 && Inside(w, CONNECTION, index)
    case MatchingContentLength => |w| >= 4 && Inside(w, CONTENT_LENGTH, index)
    case MatchingProxyConnection => Inside(w, PROXY_CONNECTION, index)
    case MatchingTransferEncoding => Inside(w, TRANSFER_ENCODING, index)
    case MatchingUpgrade => Inside(w, UPGRADE, index)
    case Connection => w == CONNECTION.Spelling() || w == PROXY_CONNECTION.Spelling()
    case ContentLength => w == CONTENT_LENGTH.Spelling()
    case TransferEncoding => w == TRANSFER_ENCODING.Spelling()
    case Upgrade => w == UPGRADE.Spelling()
    case _ => false
  }

  lemma Differs(w: string, word: Word, k: nat)
    requires k < |w| && k < word.Length() && w[k] != word.Spelling()[k]
    ensures !(w <= word.Spelling())
  {
  }

  /** The words differ in their first letter, but for two that differ in their fourth. */
  lemma FirstLetters()
    ensures CONNECTION.Spelling()[0] == 'c' && CONTENT_LENGTH.Spelling()[0] == 'c'
    ensures PROXY_CONNECTION.Spelling()[0] == 'p' && TRANSFER_ENCODING.Spelling()[0] == 't'
    ensures UPGRADE.Spelling()[0] == 'u'
    ensures CONNECTION.Spelling()[..4] == "conn" && CONTENT_LENGTH.Spelling()[..4] == "cont"
  {
  }

  lemma Lengths()
    ensures forall w: Word :: |w.Spelling()| == w.Length()
  {
    forall w: Word { WordLengths(w); }
  }

  /** A word is a prefix of no other, and neither are its beginnings once they are told apart. */
  lemma OnlyPrefixOf(w: string, word: Word)
    requires w != "" && word in {CONNECTION, PROXY_CONNECTION, CONTENT_LENGTH, TRANSFER_ENCODING, UPGRADE}
    requires w[..1] <= word.Spelling()
    requires word in {CONNECTION, CONTENT_LENGTH} ==> |w| >= 4 && w[..4] <= word.Spelling()
    ensures !(w <= word.Spelling()) ==> Outside(w)
    ensures forall v :: v in {CONNECTION, PROXY_CONNECTION, CONTENT_LENGTH, TRANSFER_ENCODING, UPGRADE} && v != word ==>
              !(w <= v.Spelling())
  {
    Lengths();
    FirstLetters();
    hide HttpTypes.Word.Spelling;
    assert w[0] == w[..1][0] == word.Spelling()[0];
    if word in {CONNECTION, CONTENT_LENGTH} {
      assert w[3] == w[..4][3] == word.Spelling()[3] == word.Spelling()[..4][3];
      var other := if word == CONNECTION then CONTENT_LENGTH else CONNECTION;
      assert other.Spelling()[3] == other.Spelling()[..4][3];
      Differs(w, other, 3);
    } else {
      Differs(w, CONNECTION, 0);
      Differs(w, CONTENT_LENGTH, 0);
    }
    if word != PROXY_CONNECTION { Differs(w, PROXY_CONNECTION, 0); }
    if word != TRANSFER_ENCODING { Differs(w, TRANSFER_ENCODING, 0); }
    if word != UPGRADE { Differs(w, UPGRADE, 0); }
  }

  /** One letter of a word matcher. */
  lemma MatchFits(p: Parser, word: Word, c: char, done: HeaderState, w: string)
    requires Inside(w, word, p.index) && p.headerState != General && done != General && done != p.headerState
    requires c != '\0'
    ensures var q := Match(p, word, c, done);
      && (q.headerState == General <==> !(w + [c] <= word.Spelling()))
      && (q.headerState == done <==> w + [c] == word.Spelling())
      && (q.headerState == p.headerState ==> Inside(w + [c], word, q.index))
      && q.headerState in {General, done, p.headerState}
  {
    WordLengths(word);
    hide HttpTypes.Word.Spelling;
    var x := word.Spelling();
    var v := w + [c];
    assert v <= x <==> c == x[|w|];
    assert v[..|w|] == w;
  }

  /** A matcher goes on, has its word, or gives up for good. */
  lemma MatcherStep(p: Parser, word: Word, c: char, done: HeaderState, w: string)
    requires w != "" && Inside(w, word, p.index) && p.headerState != General && done != General && done != p.headerState
    requires c != '\0' && word in {CONNECTION, PROXY_CONNECTION, CONTENT_LENGTH, TRANSFER_ENCODING, UPGRADE}
    requires word in {CONNECTION, CONTENT_LENGTH} ==> |w| >= 4
    ensures var q := Match(p, word, c, done);
      && q.(headerState := p.headerState, index := p.index) == p
      && q.headerState in {General, done, p.headerState}
      && (q.headerState == General ==> Outside(w + [c]))
      && (q.headerState == done ==> w + [c] == word.Spelling())
      && (q.headerState == p.headerState ==> Inside(w + [c], word, q.index))
  {
    hide HttpTypes.Word.Spelling, Match, Outside;
    var v := w + [c];
    assert v[..1] == w[..1] && (|w| >= 4 ==> v[..4] == w[..4]);
    Starts(w, word, 1);
    if |w| >= 4 { Starts(w, word, 4); }
    MatchFits(p, word, c, done, w);
    MatchFrame(p, word, c, done);
    OnlyPrefixOf(v, word);
  }

  lemma MatchFrame(p: Parser, word: Word, c: char, done: HeaderState)
    ensures var q := Match(p, word, c, done); q == p.(headerState := q.headerState, index := q.index)
  {
    hide HttpTypes.Word.Spelling, HttpTypes.Word.Length;
  }

  /** The whole step, on the lower-cased letters. */
  lemma FieldStep(p: Parser, ch: char, w: string)
    requires FieldFits(p.headerState, p.index, w) && w != "" && Token(ch) != '\0'
    ensures var q := FieldToken(p, ch, Token(ch));
            FieldFits(q.headerState, q.index, w + [Token(ch)]) && q.(headerState := p.headerState, index := p.index) == p
  {
    hide HttpTypes.Word.Spelling, Match, Token;
    var c := Token(ch);
    var v := w + [c];
    hide Outside, Inside;
    assert v[..|w|] == w;
    var h := p.headerState;
    if h == General {
      OutsideStays(w, c);
    } else if h == C || h == CO || h == CON {
      EarlyLetters(v);
    } else if h == MatchingConnection {
      MatcherStep(p, CONNECTION, c, Connection, w);
    } else if h == MatchingProxyConnection {
      MatcherStep(p, PROXY_CONNECTION, c, Connection, w);
    } else if h == MatchingContentLength {
      MatcherStep(p, CONTENT_LENGTH, c, ContentLength, w);
    } else if h == MatchingTransferEncoding {
      MatcherStep(p, TRANSFER_ENCODING, c, TransferEncoding, w);
    } else if h == MatchingUpgrade {
      MatcherStep(p, UPGRADE, c, Upgrade, w);
    } else {
      TokenIsNoSpace(ch);
      BeyondWord(w, c);
    }
  }

  lemma TokenIsNoSpace(ch: char)
    ensures Token(ch) != '\0' ==> ch != ' '
  {
  }

  lemma Starts(w: string, word: Word, n: nat)
    requires w <= word.Spelling() && n <= |w|
    ensures w[..n] <= word.Spelling()
  {
  }

  lemma OutsideStays(w: string, c: char)
    requires Outside(w)
    ensures Outside(w + [c])
  {
    hide HttpTypes.Word.Spelling;
    assert (w + [c])[..|w|] == w;
  }

  /** Past the end of a word. */
  lemma BeyondWord(w: string, c: char)
    requires w in {CONNECTION.Spelling(), PROXY_CONNECTION.Spelling(), CONTENT_LENGTH.Spelling(),
                   TRANSFER_ENCODING.Spelling(), UPGRADE.Spelling()}
    ensures Outside(w + [c])
  {
    Lengths();
    var word := if w == CONNECTION.Spelling() then CONNECTION
                else if w == PROXY_CONNECTION.Spelling() then PROXY_CONNECTION
                else if w == CONTENT_LENGTH.Spelling() then CONTENT_LENGTH
                else if w == TRANSFER_ENCODING.Spelling() then TRANSFER_ENCODING else UPGRADE;
    hide HttpTypes.Word.Spelling;
    assert (w + [c])[..1] == w[..1] && (w + [c])[..4] == w[..4];
    OnlyPrefixOf(w + [c], word);
  }

  /** The letters "c", "co", "con" that two words share. */
  lemma EarlyLetters(v: string)
    requires 2 <= |v| <= 4 && v[..|v| - 1] == "con"[..|v| - 1]
    ensures |v| < 4 && v[|v| - 1] != "con"[|v| - 1] ==> Outside(v)
    ensures |v| == 4 && v[3] != 'n' && v[3] != 't' ==> Outside(v)
    ensures |v| < 4 && v[|v| - 1] == "con"[|v| - 1] ==> v == "con"[..|v|]
    ensures |v| == 4 && v[3] == 'n' ==> Inside(v, CONNECTION, 3)
    ensures |v| == 4 && v[3] == 't' ==> Inside(v, CONTENT_LENGTH, 3)
  {
    var k := |v| - 1;
    assert v[0] == v[..k][0] == 'c';
    assert v == v[..k] + [v[k]];
  }

  lemma FirstLetter(ch: char)
    requires Token(ch) != '\0'
    ensures var o := FieldStartByte(Init(Both), ch);
            o.flow == Advance && FieldFits(o.p.headerState, 0, [Token(ch)])
  {
    hide HttpTypes.Word.Spelling, Token;
    FirstLetters();
    Lengths();
    var w := [Token(ch)];
    assert forall word: Word {:trigger word.Spelling()} :: |word.Spelling()| > 0;
    assert CONNECTION.Spelling()[0] == 'c';
    TokenOfNewline();
  }

  lemma TokenOfNewline()
    ensures Token(CR) == '\0' && Token(LF) == '\0' && Token(':') == '\0'
  {
  }

  /** Reading a name: its bytes go to the field callback, and the automaton ends in a
      state that fits the lower-cased name. */
  lemma {:induction false} NameGoes(answersOne: Parser -> bool, p: Parser, name: string) returns (h: HeaderState, index: nat)
    requires p.state.HeaderFieldStart? && IsName(name) && Room(p, |name|)
    ensures FieldFits(h, index, Lowered(name))
    ensures Goes(answersOne, p, name,
                 Read(p, |name|).(state := HeaderField, headerState := h, index := index), BytesOf(Field, name))
    decreases |name|
  {
    hide Token, FieldFits, FieldToken, Goes;
    var init, ch := name[..|name| - 1], name[|name| - 1];
    assert name == init + [ch];
    if init == "" {
      h, index := FirstLetterGoes(answersOne, p, ch);
      assert Lowered(name) == [Token(ch)] && BytesOf(Field, name) == [Byte(Field, ch)];
    } else {
      h, index := NameGoes(answersOne, p, init);
      assert Lowered(name) == Lowered(init) + [Token(ch)];
      var q := Read(p, |init|).(state := HeaderField, headerState := h, index := index);
      FieldStep(Read(q, 1), ch, Lowered(init));
      var r := FieldToken(Read(q, 1), ch, Token(ch));
      FieldTokenGoes(answersOne, q, ch);
      h, index := r.headerState, r.index;
      assert r == Read(p, |name|).(state := HeaderField, headerState := h, index := index);
      GoesOn(answersOne, p, init, q, BytesOf(Field, init), [ch], r, [Byte(Field, ch)]);
      assert BytesOf(Field, name) == BytesOf(Field, init) + [Byte(Field, ch)];
    }
  }

  lemma FieldTokenGoes(answersOne: Parser -> bool, p: Parser, ch: char)
    requires p.state.HeaderField? && Token(ch) != '\0' && Room(p, 1)
    requires FieldToken(Read(p, 1), ch, Token(ch)).state.HeaderField?
    requires FieldToken(Read(p, 1), ch, Token(ch)).errno == OK
    ensures Goes(answersOne, p, [ch], FieldToken(Read(p, 1), ch, Token(ch)), [Byte(Field, ch)])
  {
    hide Token, FieldToken, Goes, Switch;
    Dispatch(answersOne, Read(p, 1), ch);
    GoesMarked(answersOne, p, ch, FieldToken(Read(p, 1), ch, Token(ch)), Field);
  }

  lemma FirstLetterGoes(answersOne: Parser -> bool, p: Parser, ch: char) returns (h: HeaderState, index: nat)
    requires p.state.HeaderFieldStart? && Token(ch) != '\0' && Room(p, 1)
    ensures FieldFits(h, index, [Token(ch)])
    ensures Goes(answersOne, p, [ch], Read(p, 1).(state := HeaderField, headerState := h, index := index),
                 [Byte(Field, ch)])
  {
    hide Token, FieldFits, Goes, Switch;
    TokenOfNewline();
    FirstLetter(ch);
    h, index := FieldStartByte(Init(Both), ch).p.headerState, 0;
    Dispatch(answersOne, Read(p, 1), ch);
    var q := FieldStartByte(Read(p, 1), ch).p;
    assert q == Read(p, 1).(state := HeaderField, headerState := h, index := index);
    GoesMarked(answersOne, p, ch, q, Field);
  }

  /** The automaton recognises exactly the words. */
  lemma NameMeans(h: HeaderState, index: nat, name: string)
    requires FieldFits(h, index, Lowered(name))
    ensures Class(h) == Meaning(name)
  {
    hide HttpTypes.Word.Spelling, Lowered;
    Lengths();
    FirstLetters();
    var w := Lowered(name);
    match h
    case General =>
    case C | CO | CON =>
    case MatchingConnection => Starts(w, CONNECTION, 4); OnlyPrefixOf(w, CONNECTION);
    case MatchingContentLength => Starts(w, CONTENT_LENGTH, 4); OnlyPrefixOf(w, CONTENT_LENGTH);
    case MatchingProxyConnection => Starts(w, PROXY_CONNECTION, 1); OnlyPrefixOf(w, PROXY_CONNECTION);
    case MatchingTransferEncoding => Starts(w, TRANSFER_ENCODING, 1); OnlyPrefixOf(w, TRANSFER_ENCODING);
    case MatchingUpgrade => Starts(w, UPGRADE, 1); OnlyPrefixOf(w, UPGRADE);
    case Connection =>
    case ContentLength =>
    case TransferEncoding => assert w[0] == 't';
    case Upgrade => assert w[0] == 'u';
  }
}
