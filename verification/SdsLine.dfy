/** Lines of arguments, as `sdssplitargs` of redis/sds.c takes them: how an argument can be written, bare or
    in quotes of either kind, and that the lines it splits are exactly those made of such arguments. */
module SdsLine {
  import opened Options
  import opened Hexadecimal
  import opened SdsQuote

  // ---------------------------------------------------------------- arguments

  /** Between double quotes: a character for itself, one behind a backslash, or a byte by its two digits. */
  datatype Piece = Plain(c: char) | Escaped(c: char) | ByDigits(digits: string)

  /** Between single quotes, only the quote itself can be escaped. */
  datatype Mark = Itself(c: char) | Apostrophe

  /** Quotes may open behind some bare characters; a closing quote ends the argument. */
  datatype Word = BareWord(text: string) | InDouble(before: string, pieces: seq<Piece>) | InSingle(before: string, marks: seq<Mark>)

  function PieceText(p: Piece): string {
    match p
    case Plain(c) => [c]
    case Escaped(c) => ['\\', c]
    case ByDigits(d) => "\\x" + d
  }

  function PieceTexts(ps: seq<Piece>): string { if ps == [] then "" else PieceText(ps[0]) + PieceTexts(ps[1..]) }

  /** The letters with a meaning, and their codes. */
  function EscapeMeans(c: char): char {
    if c == 'a' then 7 as char
    else if c == 'b' then 8 as char
    else if c == 't' then 9 as char
    else if c == 'n' then 10 as char
    else if c == 'r' then 13 as char
    else c
  }

  predicate TwoDigits(s: string) { |s| >= 2 && IsHexdig(s[0]) && IsHexdig(s[1]) }

  /** An escaped `x` stands for itself as long as no two digits follow. */
  predicate PieceFits(p: Piece, behind: string) {
    match p
    case Plain(c) => c != '"' && c != '\\'
    case Escaped(c) => c == 'x' ==> !TwoDigits(behind)
    case ByDigits(d) => |d| == 2 && TwoDigits(d)
  }

  predicate PiecesFit(ps: seq<Piece>) {
    ps != [] ==> PieceFits(ps[0], PieceTexts(ps[1..]) + "\"") && PiecesFit(ps[1..])
  }

  function PieceMeans(p: Piece): char
    requires p.ByDigits? ==> |p.digits| == 2 && TwoDigits(p.digits)
  {
    match p
    case Plain(c) => c
    case Escaped(c) => EscapeMeans(c)
    case ByDigits(d) => (16 * HexdigValue(d[0]) + HexdigValue(d[1])) as char
  }

  function PiecesMean(ps: seq<Piece>): string
    requires PiecesFit(ps)
  {
    if ps == [] then "" else [PieceMeans(ps[0])] + PiecesMean(ps[1..])
  }

  function MarkText(m: Mark): string { if m.Apostrophe? then "\\'" else [m.c] }

  function MarkTexts(ms: seq<Mark>): string { if ms == [] then "" else MarkText(ms[0]) + MarkTexts(ms[1..]) }

  predicate MarkFits(m: Mark, behind: string) {
    m.Itself? ==> m.c != '\'' && (m.c == '\\' && behind != "" ==> behind[0] != '\'')
  }

  predicate MarksFit(ms: seq<Mark>) { ms != [] ==> MarkFits(ms[0], MarkTexts(ms[1..]) + "'") && MarksFit(ms[1..]) }

  function MarksMean(ms: seq<Mark>): string {
    if ms == [] then "" else [if ms[0].Apostrophe? then '\'' else ms[0].c] + MarksMean(ms[1..])
  }

  /** The space characters of the "C" locale, and those that end a bare argument. */
  predicate IsBlank(c: char) { c as int == 32 || 9 <= c as int <= 13 }

  predicate EndsBare(c: char) { c as int in {32, 9, 10, 13} }

  predicate IsBare(s: string) { forall i :: 0 <= i < |s| ==> !EndsBare(s[i]) && s[i] != '"' && s[i] != '\'' }

  predicate WordFits(w: Word) {
    match w
    case BareWord(t) => t != "" && !IsBlank(t[0]) && IsBare(t)
    case InDouble(b, ps) => (b != "" ==> !IsBlank(b[0])) && IsBare(b) && PiecesFit(ps)
    case InSingle(b, ms) => (b != "" ==> !IsBlank(b[0])) && IsBare(b) && MarksFit(ms)
  }

  function WordText(w: Word): string {
    match w
    case BareWord(t) => t
    case InDouble(b, ps) => b + "\"" + PieceTexts(ps) + "\""
    case InSingle(b, ms) => b + "'" + MarkTexts(ms) + "'"
  }

  function WordMeans(w: Word): string
    requires WordFits(w)
  {
    match w
    case BareWord(t) => t
    case InDouble(b, ps) => b + PiecesMean(ps)
    case InSingle(b, ms) => b + MarksMean(ms)
  }

  /** What may follow. */
  predicate EndsWord(w: Word, rest: string) {
    rest != "" ==> if w.BareWord? then EndsBare(rest[0]) else IsBlank(rest[0])
  }

  // ---------------------------------------------------------------- lines

  datatype Item = Item(blanks: string, word: Word)

  predicate AreBlank(s: string) { forall i :: 0 <= i < |s| ==> IsBlank(s[i]) }

  function LineText(items: seq<Item>, end: string): string {
    if items == [] then end else items[0].blanks + WordText(items[0].word) + LineText(items[1..], end)
  }

  predicate LineFits(items: seq<Item>, end: string) {
    if items == [] then AreBlank(end)
    else
      && AreBlank(items[0].blanks) && WordFits(items[0].word) && EndsWord(items[0].word, LineText(items[1..], end))
      && LineFits(items[1..], end)
  }

  function Arguments(items: seq<Item>, end: string): seq<string>
    requires LineFits(items, end)
  {
    if items == [] then [] else [WordMeans(items[0].word)] + Arguments(items[1..], end)
  }

  // ---------------------------------------------------------------- characters

  lemma Blanks(c: char)
    ensures IsSpace(c) <==> IsBlank(c)
    ensures EndsBare(c) <==> c == ' ' || c == '\n' || c == '\r' || c == '\t'
  {
  }

  lemma Digits(c: char)
    ensures IsHexDigit(c) <==> IsHexdig(c)
    ensures IsHexdig(c) ==> HexDigitToInt(c) == HexdigValue(c)
  {
  }

  lemma Letters(c: char)
    ensures Unescape(c) == EscapeMeans(c)
  {
  }

  // ---------------------------------------------------------------- such lines are split

  lemma PieceRead(p: Piece, more: string, rest: string, cur: string)
    requires PieceFits(p, more + "\"")
    ensures Token(PieceText(p) + (more + "\"" + rest), Quoted, cur) == Token(more + "\"" + rest, Quoted, cur + [PieceMeans(p)])
  {
    hide IsHexDigit, HexDigitToInt, IsHexdig, HexdigValue, Unescape, EscapeMeans, IsSpace;
    var t := more + "\"" + rest;
    var s := PieceText(p) + t;
    match p
    case Plain(c) => assert s[1..] == t;
    case Escaped(c) =>
      Letters(c);
      assert s[0] == '\\' && s[1] == c && s[2..] == t;
      if c == 'x' {
        NoDigits(more, rest);
        forall d { Digits(d); }
      }
    case ByDigits(d) =>
      Digits(d[0]);
      Digits(d[1]);
      assert s[0] == '\\' && s[1] == 'x' && s[2] == d[0] && s[3] == d[1] && s[4..] == t;
  }

  lemma NoDigits(more: string, rest: string)
    requires !TwoDigits(more + "\"")
    ensures !TwoDigits(more + "\"" + rest)
  {
    var s, t := more + "\"", more + "\"" + rest;
    assert |s| >= 1 && t[0] == s[0] && (|s| >= 2 ==> t[1] == s[1]);
  }

  lemma Closes(q: char, rest: string, cur: string)
    requires (q == '"' || q == '\'') && (rest != "" ==> IsBlank(rest[0]))
    ensures Token([q] + rest, if q == '"' then Quoted else SingleQuoted, cur) == Some((cur, rest))
  {
    hide IsBlank, IsSpace;
    var s := [q] + rest;
    assert s[1..] == rest && (|s| >= 2 ==> s[1] == rest[0]);
    if rest != "" { Blanks(rest[0]); }
  }

  lemma {:induction false} PiecesRead(ps: seq<Piece>, rest: string, cur: string)
    requires PiecesFit(ps) && (rest != "" ==> IsBlank(rest[0]))
    ensures Token(PieceTexts(ps) + "\"" + rest, Quoted, cur) == Some((cur + PiecesMean(ps), rest))
    decreases |ps|
  {
    hide PieceText, Token, IsBlank, TwoDigits, PieceMeans;
    if ps == [] {
      Closes('"', rest, cur);
      assert PieceTexts(ps) + "\"" + rest == ['"'] + rest && cur + "" == cur;
    } else {
      var more := PieceTexts(ps[1..]);
      PieceRead(ps[0], more, rest, cur);
      hide PieceFits;
      PiecesRead(ps[1..], rest, cur + [PieceMeans(ps[0])]);
      assert PieceTexts(ps) + "\"" + rest == PieceText(ps[0]) + (more + "\"" + rest);
      assert cur + [PieceMeans(ps[0])] + PiecesMean(ps[1..]) == cur + PiecesMean(ps);
    }
  }

  lemma MarkRead(m: Mark, more: string, rest: string, cur: string)
    requires MarkFits(m, more + "'")
    ensures Token(MarkText(m) + (more + "'" + rest), SingleQuoted, cur)
         == Token(more + "'" + rest, SingleQuoted, cur + [if m.Apostrophe? then '\'' else m.c])
  {
    hide IsSpace;
    var t := more + "'" + rest;
    var s := MarkText(m) + t;
    assert t[0] == (more + "'")[0];
    if m.Apostrophe? {
      assert s[2..] == t;
    } else {
      assert s[1..] == t && s[1] == t[0];
    }
  }

  lemma {:induction false} MarksRead(ms: seq<Mark>, rest: string, cur: string)
    requires MarksFit(ms) && (rest != "" ==> IsBlank(rest[0]))
    ensures Token(MarkTexts(ms) + "'" + rest, SingleQuoted, cur) == Some((cur + MarksMean(ms), rest))
    decreases |ms|
  {
    hide MarkText, MarkFits, Token, IsBlank;
    if ms == [] {
      Closes('\'', rest, cur);
      assert MarkTexts(ms) + "'" + rest == ['\''] + rest && cur + "" == cur;
    } else {
      var more := MarkTexts(ms[1..]);
      var c := if ms[0].Apostrophe? then '\'' else ms[0].c;
      MarkRead(ms[0], more, rest, cur);
      MarksRead(ms[1..], rest, cur + [c]);
      assert MarkTexts(ms) + "'" + rest == MarkText(ms[0]) + (more + "'" + rest);
      assert cur + [c] + MarksMean(ms[1..]) == cur + MarksMean(ms);
    }
  }

  lemma {:induction false} BareRead(b: string, rest: string, cur: string)
    requires IsBare(b)
    ensures Token(b + rest, Bare, cur) == Token(rest, Bare, cur + b)
    decreases |b|
  {
    if b == "" {
      assert b + rest == rest && cur + b == cur;
    } else {
      Blanks(b[0]);
      hide IsSpace, EndsBare;
      assert (b + rest)[1..] == b[1..] + rest && (b + rest)[0] == b[0];
      BareRead(b[1..], rest, cur + [b[0]]);
      assert cur + [b[0]] + b[1..] == cur + b;
    }
  }

  lemma DoubleRead(b: string, ps: seq<Piece>, rest: string)
    requires IsBare(b) && PiecesFit(ps) && (rest != "" ==> IsBlank(rest[0]))
    ensures Token(b + "\"" + PieceTexts(ps) + "\"" + rest, Bare, "") == Some((b + PiecesMean(ps), rest))
  {
    hide Token, IsBare, PiecesFit, IsBlank, PieceTexts, PiecesMean;
    var t := PieceTexts(ps) + "\"" + rest;
    BareRead(b, ['"'] + t, "");
    assert "" + b == b && b + "\"" + PieceTexts(ps) + "\"" + rest == b + (['"'] + t);
    Opens('"', t, b);
    PiecesRead(ps, rest, b);
  }

  lemma SingleRead(b: string, ms: seq<Mark>, rest: string)
    requires IsBare(b) && MarksFit(ms) && (rest != "" ==> IsBlank(rest[0]))
    ensures Token(b + "'" + MarkTexts(ms) + "'" + rest, Bare, "") == Some((b + MarksMean(ms), rest))
  {
    hide Token, IsBare, MarksFit, IsBlank, MarkTexts, MarksMean;
    var t := MarkTexts(ms) + "'" + rest;
    BareRead(b, ['\''] + t, "");
    assert "" + b == b && b + "'" + MarkTexts(ms) + "'" + rest == b + (['\''] + t);
    Opens('\'', t, b);
    MarksRead(ms, rest, b);
  }

  /** An argument is read as what it means; behind a bare one the blank is gone. */
  lemma WordRead(w: Word, rest: string)
    requires WordFits(w) && EndsWord(w, rest)
    ensures Token(WordText(w) + rest, Bare, "") ==
      Some((WordMeans(w), if w.BareWord? && rest != "" then rest[1..] else rest))
  {
    hide Token, IsBare, PiecesFit, MarksFit, IsBlank, PieceTexts, PiecesMean, MarkTexts, MarksMean;
    match w
    case BareWord(t) =>
      BareRead(t, rest, "");
      BareEnds(rest, "" + t);
      assert "" + t == t;
    case InDouble(b, ps) => DoubleRead(b, ps, rest);
    case InSingle(b, ms) => SingleRead(b, ms, rest);
  }

  lemma BareEnds(rest: string, cur: string)
    requires rest != "" ==> EndsBare(rest[0])
    ensures Token(rest, Bare, cur) == Some((cur, if rest != "" then rest[1..] else rest))
  {
  }

  lemma Opens(q: char, t: string, cur: string)
    requires q == '"' || q == '\''
    ensures Token([q] + t, Bare, cur) == Token(t, if q == '"' then Quoted else SingleQuoted, cur)
  {
    assert ([q] + t)[1..] == t;
  }

  lemma {:induction false} BlanksSkipped(b: string, s: string)
    requires AreBlank(b)
    ensures SkipBlanks(b + s) == SkipBlanks(s)
    decreases |b|
  {
    hide IsBlank, IsSpace;
    if b == "" {
      assert b + s == s;
    } else {
      Blanks(b[0]);
      assert (b + s)[1..] == b[1..] + s && (b + s)[0] == b[0];
      BlanksSkipped(b[1..], s);
    }
  }

  lemma SplitBlank(b: string, s: string)
    requires AreBlank(b)
    ensures Split(b + s) == Split(s)
  {
    BlanksSkipped(b, s);
    hide Token, SkipBlanks, AreBlank;
  }

  lemma WordStarts(w: Word, rest: string)
    requires WordFits(w)
    ensures var s := WordText(w) + rest; s != "" && !IsBlank(s[0]) && SkipBlanks(s) == s
  {
    hide IsBare, PiecesFit, MarksFit, PieceTexts, MarkTexts;
    var s := WordText(w) + rest;
    Blanks(s[0]);
  }

  /** One argument, and then the rest of the line. */
  lemma SplitWord(w: Word, rest: string)
    requires WordFits(w) && EndsWord(w, rest)
    ensures Split(WordText(w) + rest) == Cons(WordMeans(w), Split(rest))
  {
    WordStarts(w, rest);
    WordRead(w, rest);
    if w.BareWord? && rest != "" {
      Blanks(rest[0]);
      assert [rest[0]] + rest[1..] == rest;
      SplitBlank([rest[0]], rest[1..]);
    }
    hide Token, WordText, WordMeans, WordFits;
  }

  lemma {:induction false} LineSplit(items: seq<Item>, end: string)
    requires LineFits(items, end)
    ensures Split(LineText(items, end)) == Some(Arguments(items, end))
    decreases |items|
  {
    hide Split, WordFits, EndsWord, WordText, WordMeans, AreBlank;
    if items == [] {
      NothingLeft(end);
    } else {
      var rest := LineText(items[1..], end);
      var w := items[0].word;
      SplitWord(w, rest);
      SplitBlank(items[0].blanks, WordText(w) + rest);
      LineSplit(items[1..], end);
      assert LineText(items, end) == items[0].blanks + (WordText(w) + rest);
    }
  }

  lemma NothingLeft(end: string)
    requires AreBlank(end)
    ensures Split(end) == Some([])
  {
    BlanksSkipped(end, "");
    assert end + "" == end;
  }

  // ---------------------------------------------------------------- no other line is split

  /** The first piece between double quotes, if it is not the closing quote. */
  lemma FirstPiece(s: string, cur: string) returns (p: Piece)
    requires Token(s, Quoted, cur).Some? && s[0] != '"'
    ensures PieceText(p) <= s && PieceFits(p, s[|PieceText(p)|..])
    ensures Token(s, Quoted, cur) == Token(s[|PieceText(p)|..], Quoted, cur + [PieceMeans(p)])
  {
    hide IsHexDigit, HexDigitToInt, IsHexdig, HexdigValue, Unescape, EscapeMeans, IsSpace;
    forall c { Digits(c); }
    if s[0] != '\\' {
      p := Plain(s[0]);
    } else if |s| >= 4 && s[1] == 'x' && IsHexDigit(s[2]) && IsHexDigit(s[3]) {
      p := ByDigits(s[2..4]);
      assert s[..4] == PieceText(p);
    } else {
      BackslashNotLast(s, cur);
      Letters(s[1]);
      p := Escaped(s[1]);
      assert s[..2] == PieceText(p) && (|s| >= 4 ==> s[2..][0] == s[2] && s[2..][1] == s[3]);
    }
  }

  lemma BackslashNotLast(s: string, cur: string)
    requires s != "" && s[0] == '\\' && Token(s, Quoted, cur).Some?
    ensures |s| >= 2
  {
    NothingQuoted(s[1..], cur + [s[0]]);
  }

  lemma NothingQuoted(s: string, cur: string)
    ensures s == "" ==> Token(s, Quoted, cur) == None
  {
  }

  lemma {:induction false} PiecesAre(s: string, cur: string) returns (ps: seq<Piece>, rest: string)
    requires Token(s, Quoted, cur).Some?
    ensures PiecesFit(ps) && (rest != "" ==> IsBlank(rest[0])) && s == PieceTexts(ps) + "\"" + rest
    ensures Token(s, Quoted, cur) == Some((cur + PiecesMean(ps), rest))
    decreases |s|
  {
    QuoteNeeded(s, Quoted, cur);
    hide Token, PieceText, IsBlank, TwoDigits, PieceMeans;
    if s[0] == '"' {
      ps, rest := [], s[1..];
      Closed(s, cur);
      assert s == "" + "\"" + rest && cur + "" == cur;
    } else {
      var p := FirstPiece(s, cur);
      var t := s[|PieceText(p)|..];
      TextOfPiece(p);
      var more;
      more, rest := PiecesAre(t, cur + [PieceMeans(p)]);
      ps := [p] + more;
      SameBehind(p, PieceTexts(more) + "\"", rest);
      PiecesOn(p, more, rest, cur);
      assert s == PieceText(p) + t;
    }
  }

  lemma PiecesOn(p: Piece, more: seq<Piece>, rest: string, cur: string)
    requires PieceFits(p, PieceTexts(more) + "\"") && PiecesFit(more)
    ensures PiecesFit([p] + more) && cur + PiecesMean([p] + more) == cur + [PieceMeans(p)] + PiecesMean(more)
    ensures PieceTexts([p] + more) + "\"" + rest == PieceText(p) + (PieceTexts(more) + "\"" + rest)
  {
    hide PieceText, TwoDigits, PieceMeans;
    assert ([p] + more)[1..] == more;
  }

  lemma TextOfPiece(p: Piece)
    ensures PieceText(p) != ""
  {
  }

  lemma QuoteNeeded(s: string, mode: Mode, cur: string)
    requires Token(s, mode, cur).Some? && mode != Bare
    ensures s != ""
  {
  }

  lemma Closed(s: string, cur: string)
    requires s != "" && s[0] == '"' && Token(s, Quoted, cur).Some?
    ensures Token(s, Quoted, cur) == Some((cur, s[1..])) && (s[1..] != "" ==> IsBlank(s[1..][0]))
  {
    if |s| >= 2 { Blanks(s[1]); }
  }

  /** What a piece needs behind it does not go beyond the closing quote. */
  lemma SameBehind(p: Piece, behind: string, rest: string)
    requires PieceFits(p, behind + rest) && behind != "" && behind[|behind| - 1] == '"'
    ensures PieceFits(p, behind)
  {
    assert (behind + rest)[0] == behind[0] && (|behind| >= 2 ==> (behind + rest)[1] == behind[1]);
  }

  lemma FirstMark(s: string, cur: string) returns (m: Mark)
    requires Token(s, SingleQuoted, cur).Some? && s[0] != '\''
    ensures MarkText(m) <= s && MarkFits(m, s[|MarkText(m)|..])
    ensures Token(s, SingleQuoted, cur) == Token(s[|MarkText(m)|..], SingleQuoted, cur + [if m.Apostrophe? then '\'' else m.c])
  {
    hide IsSpace;
    if |s| >= 2 && s[0] == '\\' && s[1] == '\'' {
      m := Apostrophe;
      assert s[..2] == MarkText(m);
    } else {
      m := Itself(s[0]);
    }
  }

  lemma ClosedSingle(s: string, cur: string)
    requires s != "" && s[0] == '\'' && Token(s, SingleQuoted, cur).Some?
    ensures Token(s, SingleQuoted, cur) == Some((cur, s[1..])) && (s[1..] != "" ==> IsBlank(s[1..][0]))
  {
    if |s| >= 2 { Blanks(s[1]); }
  }

  lemma {:induction false} MarksAre(s: string, cur: string) returns (ms: seq<Mark>, rest: string)
    requires Token(s, SingleQuoted, cur).Some?
    ensures MarksFit(ms) && (rest != "" ==> IsBlank(rest[0])) && s == MarkTexts(ms) + "'" + rest
    ensures Token(s, SingleQuoted, cur) == Some((cur + MarksMean(ms), rest))
    decreases |s|
  {
    QuoteNeeded(s, SingleQuoted, cur);
    hide Token, MarkText, MarkFits, IsBlank;
    if s[0] == '\'' {
      ms, rest := [], s[1..];
      ClosedSingle(s, cur);
      assert s == "" + "'" + rest && cur + "" == cur;
    } else {
      var m := FirstMark(s, cur);
      var t := s[|MarkText(m)|..];
      TextOfMark(m);
      var more;
      more, rest := MarksAre(t, cur + [if m.Apostrophe? then '\'' else m.c]);
      ms := [m] + more;
      SameBehindMark(m, MarkTexts(more) + "'", rest);
      MarksOn(m, more, rest, cur);
      assert s == MarkText(m) + t;
    }
  }

  lemma MarksOn(m: Mark, more: seq<Mark>, rest: string, cur: string)
    requires MarkFits(m, MarkTexts(more) + "'") && MarksFit(more)
    ensures MarksFit([m] + more)
    ensures cur + MarksMean([m] + more) == cur + [if m.Apostrophe? then '\'' else m.c] + MarksMean(more)
    ensures MarkTexts([m] + more) + "'" + rest == MarkText(m) + (MarkTexts(more) + "'" + rest)
  {
    hide MarkText;
    assert ([m] + more)[1..] == more;
  }

  lemma SameBehindMark(m: Mark, behind: string, rest: string)
    requires MarkFits(m, behind + rest) && behind != ""
    ensures MarkFits(m, behind)
  {
    assert (behind + rest)[0] == behind[0];
  }

  lemma TextOfMark(m: Mark)
    ensures MarkText(m) != ""
  {
  }

  /** A bare stretch, up to a blank, a quote or the end. */
  lemma {:induction false} BareIs(s: string, cur: string) returns (b: string, t: string)
    requires Token(s, Bare, cur).Some?
    ensures IsBare(b) && s == b + t && (t != "" ==> EndsBare(t[0]) || t[0] == '"' || t[0] == '\'')
    ensures Token(s, Bare, cur) == Token(t, Bare, cur + b)
    decreases |s|
  {
    hide EndsBare;
    if s != "" { Blanks(s[0]); }
    if s == "" || EndsBare(s[0]) || s[0] == '"' || s[0] == '\'' {
      b, t := "", s;
      assert cur + "" == cur && "" + s == s;
    } else {
      var more;
      more, t := BareIs(s[1..], cur + [s[0]]);
      b := [s[0]] + more;
      assert cur + [s[0]] + more == cur + b && s == [s[0]] + s[1..];
    }
  }

  lemma WordIs(s: string) returns (w: Word, rest: string)
    requires Token(s, Bare, "").Some? && s != "" && !IsBlank(s[0])
    ensures WordFits(w) && EndsWord(w, rest) && s == WordText(w) + rest
  {
    hide Token, PiecesFit, MarksFit, PieceTexts, MarkTexts, IsBlank;
    BareNoBlank(s[0]);
    var b, t := BareIs(s, "");
    if t == "" || EndsBare(t[0]) {
      w, rest := BareWord(b), t;
    } else if t[0] == '"' {
      assert t == ['"'] + t[1..];
      Opens('"', t[1..], "" + b);
      var ps;
      ps, rest := PiecesAre(t[1..], "" + b);
      w := InDouble(b, ps);
      assert s == b + "\"" + PieceTexts(ps) + "\"" + rest;
    } else {
      assert t == ['\''] + t[1..];
      Opens('\'', t[1..], "" + b);
      var ms;
      ms, rest := MarksAre(t[1..], "" + b);
      w := InSingle(b, ms);
      assert s == b + "'" + MarkTexts(ms) + "'" + rest;
    }
    assert b != "" ==> b[0] == s[0];
  }

  lemma BareNoBlank(c: char)
    ensures EndsBare(c) ==> IsBlank(c)
  {
  }

  lemma {:induction false} BlanksAre(s: string) returns (b: string)
    ensures AreBlank(b) && s == b + SkipBlanks(s)
    ensures SkipBlanks(s) != "" ==> !IsBlank(SkipBlanks(s)[0])
    decreases |s|
  {
    hide IsBlank, IsSpace;
    if s != "" { Blanks(s[0]); }
    if s != "" && IsSpace(s[0]) {
      var more := BlanksAre(s[1..]);
      b := [s[0]] + more;
      assert s == [s[0]] + s[1..];
    } else {
      b := "";
    }
  }

  lemma {:induction false} LineIs(s: string) returns (items: seq<Item>, end: string)
    requires Split(s).Some?
    ensures LineFits(items, end) && s == LineText(items, end)
    decreases |s|
  {
    hide Token, WordFits, EndsWord, WordText, AreBlank, IsBlank;
    var b := BlanksAre(s);
    var t := SkipBlanks(s);
    if t == "" {
      items, end := [], s;
      assert s == b;
    } else {
      var w, rest := WordIs(t);
      SplitWord(w, rest);
      WordNotEmpty(w);
      BlanksSkipped(b, t);
      SplitSkips(s);
      var more;
      more, end := LineIs(rest);
      items := [Item(b, w)] + more;
      assert items[1..] == more && s == b + WordText(w) + rest;
    }
  }

  lemma WordNotEmpty(w: Word)
    requires WordFits(w)
    ensures WordText(w) != ""
  {
    hide IsBare, PiecesFit, MarksFit, PieceTexts, MarkTexts;
  }

  lemma SplitSkips(s: string)
    ensures Split(s) == Split(SkipBlanks(s))
  {
    var b := BlanksAre(s);
    SplitBlank(b, SkipBlanks(s));
  }

  /** A line is split exactly if it is made of arguments with blanks between them, and then into what they mean. */
  lemma SplitExactly(line: string, args: seq<string>)
    ensures Split(line) == Some(args) <==>
      exists items, end :: LineFits(items, end) && line == LineText(items, end) && args == Arguments(items, end)
  {
    hide Split, LineFits, LineText, Arguments;
    if Split(line) == Some(args) {
      var items, end := LineIs(line);
      LineSplit(items, end);
    }
    forall items, end | LineFits(items, end) && line == LineText(items, end) && args == Arguments(items, end)
      ensures Split(line) == Some(args)
    {
      LineSplit(items, end);
    }
  }
}
