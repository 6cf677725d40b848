/** Header values: which of them set a flag, and what a Content-Length comes to. */
module HttpValue {
  import opened Options
  import opened HttpTypes
  import opened HttpSwitch
  import opened HttpHeader
  import opened Decimal

  // ---------------------------------------------------------------- reference

  function Small(s: string): (r: string)
    ensures |r| == |s|
  {
    seq(|s|, i requires 0 <= i < |s| => Lower(s[i]))
  }

  /** The word, whatever its case, and then nothing but spaces. */
  predicate Says(v: string, word: Word) {
    |v| >= word.Length() && Small(v[..word.Length()]) == word.Spelling()
    && forall i :: word.Length() <= i < |v| ==> v[i] == ' '
  }

  /** A value as it can stand on a line: it starts with something, and has no line end. */
  predicate IsValue(v: string) {
    (v != "" ==> v[0] != ' ' && v[0] != '\t') && forall i :: 0 <= i < |v| ==> v[i] != CR && v[i] != LF
  }

  predicate IsLength(v: string) { v != "" && AllDigits(v) && Decimal.Value(v) < U64_MAX }

  predicate IsHeader(name: string, v: string) {
    IsName(name) && IsValue(v) && (Meaning(name) == ContentLength && v != "" ==> IsLength(v))
  }

  function FlagsAfter(f: Flags, name: string, v: string): Flags {
    match Meaning(name)
    case Upgrade => if v == "" then f else f.(upgrade := true)
    case TransferEncoding => if Says(v, CHUNKED) then f.(chunked := true) else f
    case Connection =>
      if Says(v, KEEP_ALIVE) then f.(keepAlive := true)
      else if Says(v, CLOSE) then f.(close := true) else f
    case _ => f
  }

  function LengthAfter(n: nat, name: string, v: string): nat
    requires IsHeader(name, v)
  {
    if Meaning(name) == ContentLength && v != "" then Decimal.Value(v) else n
  }

  // ---------------------------------------------------------------- the automaton

  /** The word so far, or all of it and spaces. */
  ghost predicate MaySay(v: string, word: Word) {
    (|v| < word.Length() && Small(v) <= word.Spelling()) || Says(v, word)
  }

  ghost predicate WordFits(word: Word, matching: HeaderState, done: HeaderState, h: HeaderState, index: nat, v: string) {
    && (h == matching ==> |v| == index + 1 < word.Length() && Small(v) <= word.Spelling())
    && (h == done ==> Says(v, word))
    && (h != matching && h != done ==> !MaySay(v, word))
  }

  /** After the value `v` of a header of class `k`. */
  ghost predicate ValueFits(k: HeaderState, h: HeaderState, index: nat, v: string) {
    match k
    case TransferEncoding =>
      h in {General, MatchingChunked, Chunked} && WordFits(CHUNKED, MatchingChunked, Chunked, h, index, v)
    case Connection =>
      && h in {General, MatchingKeepAlive, MatchingClose, KeepAlive, Close}
      && WordFits(KEEP_ALIVE, MatchingKeepAlive, KeepAlive, h, index, v)
      && WordFits(CLOSE, MatchingClose, Close, h, index, v)
    case ContentLength => h == ContentLength
    case _ => h == General
  }

  lemma SmallSnoc(v: string, ch: char)
    ensures Small(v + [ch]) == Small(v) + [Lower(ch)]
  {
  }

  lemma MaySayLess(v: string, ch: char, word: Word)
    requires MaySay(v + [ch], word) && v != ""
    ensures MaySay(v, word)
  {
    WordLengths(word);
    hide HttpTypes.Word.Spelling;
    var w := v + [ch];
    var n := word.Length();
    SmallSnoc(v, ch);
    if |w| < n {
      assert Small(w)[..|v|] == Small(v);
    } else if |w| == n {
      assert w[..n] == w && Small(w)[..|v|] == Small(v);
    } else {
      assert w[..n] == v[..n] && forall i :: n <= i < |v| ==> v[i] == w[i];
    }
  }

  /** Before the word is over, it is a matter of prefixes. */
  lemma MaySayPrefix(w: string, word: Word)
    requires |w| <= word.Length()
    ensures MaySay(w, word) <==> Small(w) <= word.Spelling()
    ensures Says(w, word) <==> Small(w) == word.Spelling()
  {
    WordLengths(word);
    hide HttpTypes.Word.Spelling, Lower;
    assert |w| == word.Length() ==> w[..word.Length()] == w;
  }

  /** One letter of a word matcher, on values. */
  lemma MatchSays(p: Parser, word: Word, matching: HeaderState, done: HeaderState, ch: char, v: string)
    requires p.headerState == matching && matching != General && done != General && done != matching
    requires WordFits(word, matching, done, matching, p.index, v) && v != "" && Lower(ch) != '\0'
    ensures var q := Match(p, word, Lower(ch), done);
            WordFits(word, matching, done, q.headerState, q.index, v + [ch])
            && q.headerState in {General, matching, done}
  {
    WordLengths(word);
    hide HttpTypes.Word.Spelling, Lower, Small, Says, MaySay;
    var x, w := word.Spelling(), v + [ch];
    SmallSnoc(v, ch);
    MaySayPrefix(w, word);
    PrefixSnoc(Small(v), Lower(ch), x);
  }

  lemma PrefixSnoc(a: string, c: char, x: string)
    requires a <= x && |a| < |x|
    ensures a + [c] <= x <==> c == x[|a|]
  {
    assert (a + [c])[|a|] == c;
  }

  lemma SaysMore(v: string, word: Word, ch: char)
    requires Says(v, word)
    ensures Says(v + [ch], word) <==> ch == ' '
  {
    hide HttpTypes.Word.Spelling, Small, HttpTypes.Word.Length;
    var n := word.Length();
    var w := v + [ch];
    assert w[..n] == v[..n] && w[|v|] == ch;
    assert forall i :: n <= i < |v| ==> w[i] == v[i];
  }

  lemma SpaceSays(word: Word, matching: HeaderState, done: HeaderState, v: string, index: nat, ch: char)
    requires WordFits(word, matching, done, done, index, v) && done != matching && done != General
    requires matching != General
    ensures WordFits(word, matching, done, if ch == ' ' then done else General, index, v + [ch])
  {
    hide Says, MaySay, Small, HttpTypes.Word.Spelling, HttpTypes.Word.Length;
    if ch == ' ' {
      SaysMore(v, word, ch);
      assert WordFits(word, matching, done, done, index, v + [ch]);
    } else {
      NoMore(v, word, ch);
      assert WordFits(word, matching, done, General, index, v + [ch]);
    }
  }

  lemma NoMore(v: string, word: Word, ch: char)
    requires Says(v, word) && ch != ' '
    ensures !MaySay(v + [ch], word)
  {
    SaysMore(v, word, ch);
    hide HttpTypes.Word.Spelling, HttpTypes.Word.Length, Small;
    assert |v + [ch]| > word.Length();
  }

  lemma HopelessStays(word: Word, matching: HeaderState, done: HeaderState, h: HeaderState, i: nat, j: nat, v: string,
                      ch: char)
    requires WordFits(word, matching, done, h, i, v) && h != matching && h != done && v != ""
    ensures WordFits(word, matching, done, h, j, v + [ch])
  {
    if MaySay(v + [ch], word) {
      MaySayLess(v, ch, word);
    }
  }

  /** A value that may be one word cannot be the other. */
  lemma OneWord(v: string)
    requires v != ""
    ensures !(MaySay(v, KEEP_ALIVE) && MaySay(v, CLOSE))
  {
    hide MaySay, Lower;
    if MaySay(v, KEEP_ALIVE) { FirstSays(v, KEEP_ALIVE); }
    if MaySay(v, CLOSE) { FirstSays(v, CLOSE); }
  }

  lemma FirstSays(v: string, word: Word)
    requires v != "" && MaySay(v, word)
    ensures Lower(v[0]) == word.Spelling()[0]
  {
    WordLengths(word);
    hide HttpTypes.Word.Spelling;
    if Says(v, word) {
      assert Small(v[..word.Length()])[0] == Lower(v[0]);
    } else {
      assert Small(v)[0] == Lower(v[0]);
    }
  }

  lemma FirstMaySay(ch: char, word: Word)
    ensures word.Length() > 1 ==> (MaySay([ch], word) <==> Lower(ch) == word.Spelling()[0])
    ensures Small([ch]) == [Lower(ch)]
  {
    WordLengths(word);
    hide HttpTypes.Word.Spelling, Lower;
    assert Small([ch]) == [Lower(ch)];
  }

  // ---------------------------------------------------------------- runs over values

  /** The first byte of a value, from the class of its header. */
  lemma ValueFirst(p: Parser, ch: char)
    requires p.state.HeaderValueStart? && ch != ' ' && ch != '\t' && ch != CR && ch != LF
    requires p.headerState == ContentLength ==> IsNum(ch)
    ensures var o := ValueStartByte(p, ch);
      && o.flow == Advance && o.notify == None && o.p.state.HeaderValue?
      && ValueFits(Class(p.headerState), o.p.headerState, o.p.index, [ch])
      && o.p.(headerState := p.headerState, index := p.index, state := p.state, flags := p.flags,
              contentLength := p.contentLength) == p
      && o.p.flags == (if p.headerState == Upgrade then p.flags.(upgrade := true) else p.flags)
      && o.p.contentLength == (if p.headerState == ContentLength then Decimal.Value([ch]) else p.contentLength)
  {
    hide MaySay, Says, Lower, Small, HttpTypes.Word.Spelling;
    FirstMaySay(ch, CHUNKED);
    FirstMaySay(ch, KEEP_ALIVE);
    FirstMaySay(ch, CLOSE);
    OneWord([ch]);
    WordStarts();
    if p.headerState == ContentLength {
      assert [ch][..0] == "";
    }
  }

  lemma WordStarts()
    ensures CHUNKED.Spelling()[0] == 'c' && KEEP_ALIVE.Spelling()[0] == 'k' && CLOSE.Spelling()[0] == 'c'
    ensures forall v, w: Word :: |v| < w.Length() ==> !Says(v, w)
    ensures forall v, w: Word :: |v| < w.Length() && MaySay(v, w) ==> Small(v) <= w.Spelling()
  {
  }

  /** The digits of a length below 2^64 - 1 are never objected to. */
  lemma LengthDigit(n: nat, d: nat)
    requires d < 10 && n * 10 + d < U64_MAX
    ensures Accumulate(n, 10, d) == Some(n * 10 + d)
  {
  }

  lemma LowerIsNotNul(ch: char)
    ensures Lower(ch) != '\0'
  {
  }

  lemma ValueNext(p: Parser, ch: char, k: HeaderState, v: string)
    requires p.state.HeaderValue? && ValueFits(k, p.headerState, p.index, v) && v != "" && ch != CR && ch != LF
    requires k == Class(k)
    requires k == ContentLength ==> IsNum(ch) && p.contentLength * 10 + Digit(ch) < U64_MAX
    ensures var o := ValueByte(p, ch);
      && o.flow == Advance && o.notify == None
      && ValueFits(k, o.p.headerState, o.p.index, v + [ch])
      && o.p == p.(headerState := o.p.headerState, index := o.p.index,
                   contentLength := if k == ContentLength then p.contentLength * 10 + Digit(ch) else p.contentLength)
  {
    hide WordFits, Lower, Match, HttpTypes.Word.Spelling, HttpTypes.Word.Length;
    LowerIsNotNul(ch);
    var h, i := p.headerState, p.index;
    match h
    case ContentLength => LengthDigit(p.contentLength, Digit(ch));
    case MatchingChunked =>
      MatchSays(p, CHUNKED, h, Chunked, ch, v); MatchFrame(p, CHUNKED, Lower(ch), Chunked);
    case MatchingKeepAlive =>
      MatchSays(p, KEEP_ALIVE, h, KeepAlive, ch, v); MatchFrame(p, KEEP_ALIVE, Lower(ch), KeepAlive);
      HopelessStays(CLOSE, MatchingClose, Close, h, i, Match(p, KEEP_ALIVE, Lower(ch), KeepAlive).index, v, ch);
      StaysHopeless(CLOSE, MatchingClose, Close, h, Match(p, KEEP_ALIVE, Lower(ch), KeepAlive), v + [ch]);
    case MatchingClose =>
      MatchSays(p, CLOSE, h, Close, ch, v); MatchFrame(p, CLOSE, Lower(ch), Close);
      HopelessStays(KEEP_ALIVE, MatchingKeepAlive, KeepAlive, h, i, Match(p, CLOSE, Lower(ch), Close).index, v, ch);
      StaysHopeless(KEEP_ALIVE, MatchingKeepAlive, KeepAlive, h, Match(p, CLOSE, Lower(ch), Close), v + [ch]);
    case Chunked => SpaceSays(CHUNKED, MatchingChunked, h, v, i, ch);
    case KeepAlive =>
      SpaceSays(KEEP_ALIVE, MatchingKeepAlive, h, v, i, ch);
      HopelessStays(CLOSE, MatchingClose, Close, h, i, i, v, ch);
      StaysHopeless(CLOSE, MatchingClose, Close, h, p.(headerState := General), v + [ch]);
    case Close =>
      SpaceSays(CLOSE, MatchingClose, h, v, i, ch);
      HopelessStays(KEEP_ALIVE, MatchingKeepAlive, KeepAlive, h, i, i, v, ch);
      StaysHopeless(KEEP_ALIVE, MatchingKeepAlive, KeepAlive, h, p.(headerState := General), v + [ch]);
    case General =>
      if k == TransferEncoding {
        HopelessStays(CHUNKED, MatchingChunked, Chunked, h, i, i, v, ch);
      } else if k == Connection {
        HopelessStays(KEEP_ALIVE, MatchingKeepAlive, KeepAlive, h, i, i, v, ch);
        HopelessStays(CLOSE, MatchingClose, Close, h, i, i, v, ch);
      }
    case _ =>
  }

  /** Being hopeless for one word does not depend on where the matcher of another is. */
  lemma StaysHopeless(word: Word, matching: HeaderState, done: HeaderState, h: HeaderState, q: Parser, v: string)
    requires h != matching && h != done
    requires exists i :: WordFits(word, matching, done, h, i, v)
    ensures q.headerState != matching && q.headerState != done ==>
              WordFits(word, matching, done, q.headerState, q.index, v)
  {
  }
}
