/** The strings of section 7 of RFC 8259, piece by piece, and that the reader of jsoncpp/json_reader.cpp
    takes exactly these for strings. */
module JsonStrings {
  import opened Options
  import opened Hexadecimal
  import opened JsonText

  /** What a string is made of: a character that stands for itself, one of eight escapes of two characters,
      and four hexadecimal digits, or twice four of them. */
  datatype Piece = Plain(c: char) | Short(i: nat) | Unicode(digits: string) | Pair(high: string, low: string)

  /** The letters of the short escapes, and what they stand for. */
  const LETTERS: string := "\"\\/bfnrt"
  const MEANINGS: seq<nat> := [0x22, 0x5C, 0x2F, 0x08, 0x0C, 0x0A, 0x0D, 0x09]

  predicate IsFour(digits: string) { |digits| == 4 && AllHex(digits) }

  predicate IsHigh(u: nat) { 0xD800 <= u < 0xDC00 }

  /** A high surrogate needs a second escape behind it; the reader does not ask which. */
  predicate IsPiece(p: Piece) {
    match p
    case Plain(c) => c != '"' && c != '\\'
    case Short(i) => i < 8
    case Unicode(d) => IsFour(d) && !IsHigh(HexNumber(d))
    case Pair(h, l) => IsFour(h) && IsHigh(HexNumber(h)) && IsFour(l)
  }

  function PieceText(p: Piece): string
    requires IsPiece(p)
  {
    match p
    case Plain(c) => [c]
    case Short(i) => ['\\', LETTERS[i]]
    case Unicode(d) => "\\u" + d
    case Pair(h, l) => "\\u" + h + "\\u" + l
  }

  /** Of a pair, ten bits each; of a low surrogate these are its distance from 0xDC00. */
  function PieceMeans(p: Piece): string
    requires IsPiece(p)
  {
    match p
    case Plain(c) => [c]
    case Short(i) => [MEANINGS[i] as char]
    case Unicode(d) => CodePointToUTF8(HexNumber(d))
    case Pair(h, l) => CodePointToUTF8(0x10000 + (HexNumber(h) - 0xD800) * 0x400 + HexNumber(l) % 0x400)
  }

  predicate ArePieces(ps: seq<Piece>) { forall p :: p in ps ==> IsPiece(p) }

  function Text(ps: seq<Piece>): string
    requires ArePieces(ps)
  {
    if ps == [] then "" else PieceText(ps[0]) + Text(ps[1..])
  }

  function Means(ps: seq<Piece>): string
    requires ArePieces(ps)
  {
    if ps == [] then "" else PieceMeans(ps[0]) + Means(ps[1..])
  }

  // ---------------------------------------------------------------- digits

  lemma DigitRead(u: Option<nat>, c: char)
    ensures AddHex(u, c) == if u.Some? && IsHexdig(c) then Some(u.value * 16 + HexdigValue(c)) else None
  {
  }

  lemma FourDigits(d: string)
    requires IsFour(d)
    ensures HexNumber(d) == ((HexdigValue(d[0]) * 16 + HexdigValue(d[1])) * 16 + HexdigValue(d[2])) * 16 + HexdigValue(d[3])
    ensures HexNumber(d) <= 0xFFFF
  {
    hide HexdigValue, IsHexdig;
    HexSnoc(d);
    HexSnoc(d[..3]);
    HexSnoc(d[..3][..2]);
    HexSnoc(d[..3][..2][..1]);
  }

  /** Four digits, in whatever case each is written, and nothing else. */
  lemma FourRead(s: string)
    ensures Hex4(s) == if |s| >= 4 && AllHex(s[..4]) then Some(HexNumber(s[..4])) else None
  {
    hide AddHex, HexdigValue, HexNumber, IsHexdig;
    if |s| >= 4 {
      var d := s[..4];
      var u := AddHex(Some(0), d[0]);
      var v := AddHex(u, d[1]);
      var w := AddHex(v, d[2]);
      DigitRead(Some(0), d[0]);
      DigitRead(u, d[1]);
      DigitRead(v, d[2]);
      DigitRead(w, d[3]);
      if AllHex(d) { FourDigits(d); }
    }
  }

  // ---------------------------------------------------------------- one piece

  lemma ShortRead(i: nat)
    requires i < 8
    ensures ShortEscape(LETTERS[i]) == Some(MEANINGS[i] as char) && LETTERS[i] != 'u'
  {
  }

  lemma ShortIs(c: char)
    requires ShortEscape(c).Some?
    ensures exists i :: 0 <= i < 8 && LETTERS[i] == c
  {
    assert LETTERS[0] == '"' && LETTERS[1] == '\\' && LETTERS[2] == '/' && LETTERS[3] == 'b';
    assert LETTERS[4] == 'f' && LETTERS[5] == 'n' && LETTERS[6] == 'r' && LETTERS[7] == 't';
  }

  lemma UnicodeRead(d: string, rest: string)
    requires IsPiece(Unicode(d))
    ensures CodePoint(d + rest) == Some((HexNumber(d), 4))
  {
    hide Hex4, HexNumber;
    FourRead(d + rest);
    assert (d + rest)[..4] == d;
  }

  lemma PairRead(h: string, l: string, rest: string)
    requires IsPiece(Pair(h, l))
    ensures CodePoint(h + "\\u" + l + rest) == Some((0x10000 + (HexNumber(h) - 0xD800) * 0x400 + HexNumber(l) % 0x400, 10))
  {
    hide Hex4, HexNumber, AllHex;
    var s := h + "\\u" + l + rest;
    FourRead(s);
    assert s[..4] == h && s[4] == '\\' && s[5] == 'u' && s[6..] == l + rest;
    FourRead(l + rest);
    assert (l + rest)[..4] == l;
  }

  /** A piece is read as what it means, whatever follows. */
  lemma PieceRead(p: Piece, rest: string)
    requires IsPiece(p)
    ensures Decode(PieceText(p) + rest) == Prepend(PieceMeans(p), Decode(rest))
  {
    hide CodePoint, ShortEscape, CodePointToUTF8, HexNumber;
    var s := PieceText(p) + rest;
    match p
    case Plain(c) => assert s[1..] == rest;
    case Short(i) => ShortRead(i); assert s[0] == '\\' && s[1] == LETTERS[i] && s[2..] == rest;
    case Unicode(d) => UnicodeRead(d, rest); assert s[0] == '\\' && s[1] == 'u' && s[2..] == d + rest && s[2 + 4..] == rest;
    case Pair(h, l) => PairRead(h, l, rest); assert s[0] == '\\' && s[1] == 'u' && s[2..] == h + "\\u" + l + rest && s[2 + 10..] == rest;
  }

  function Behind(n: nat, end: Option<nat>): Option<nat> { match end case None => None case Some(i) => Some(n + i) }

  lemma {:induction false} SkipDigits(d: string, rest: string)
    requires AllHex(d)
    ensures StringEnd(d + rest) == Behind(|d|, StringEnd(rest))
    decreases |d|
  {
    if d == "" {
      assert d + rest == rest;
    } else {
      assert (d + rest)[1..] == d[1..] + rest && IsHexdig(d[0]);
      SkipDigits(d[1..], rest);
    }
  }

  lemma SkipEscape(c: char, rest: string)
    ensures StringEnd(['\\', c] + rest) == Behind(2, StringEnd(rest))
  {
    assert (['\\', c] + rest)[2..] == rest;
  }

  lemma FourSkipped(d: string, rest: string)
    requires IsFour(d)
    ensures StringEnd("\\u" + d + rest) == Behind(6, StringEnd(rest))
  {
    hide StringEnd, AllHex;
    SkipEscape('u', d + rest);
    SkipDigits(d, rest);
    assert "\\u" + d + rest == ['\\', 'u'] + (d + rest);
  }

  /** No piece hides the quote behind it, or shows one of its own. */
  lemma PieceSkipped(p: Piece, rest: string)
    requires IsPiece(p)
    ensures StringEnd(PieceText(p) + rest) == Behind(|PieceText(p)|, StringEnd(rest))
  {
    hide StringEnd, HexNumber, AllHex;
    match p
    case Plain(c) => SkipPlain(c, rest);
    case Short(i) => SkipEscape(LETTERS[i], rest);
    case Unicode(d) => FourSkipped(d, rest);
    case Pair(h, l) =>
      FourSkipped(h, "\\u" + l + rest);
      FourSkipped(l, rest);
      assert "\\u" + h + "\\u" + l + rest == "\\u" + h + ("\\u" + l + rest);
  }

  lemma SkipPlain(c: char, rest: string)
    requires c != '"' && c != '\\'
    ensures StringEnd([c] + rest) == Behind(1, StringEnd(rest))
  {
    assert ([c] + rest)[1..] == rest;
  }

  // ---------------------------------------------------------------- whole strings

  lemma {:induction false} StringRead(ps: seq<Piece>, rest: string)
    requires ArePieces(ps)
    ensures Decode(Text(ps)) == Some(Means(ps))
    ensures StringEnd(Text(ps) + "\"" + rest) == Some(|Text(ps)|)
    decreases |ps|
  {
    hide Decode, StringEnd, PieceText, PieceMeans, IsPiece;
    if ps == [] {
      NothingRead(rest);
    } else {
      var p, more := ps[0], ps[1..];
      assert p in ps && forall q :: q in more ==> q in ps;
      StringRead(more, rest);
      PieceRead(p, Text(more));
      PieceSkipped(p, Text(more) + "\"" + rest);
      assert Text(ps) + "\"" + rest == PieceText(p) + (Text(more) + "\"" + rest);
    }
  }

  lemma NothingRead(rest: string)
    ensures Decode("") == Some("") && StringEnd("" + "\"" + rest) == Some(0)
  {
  }

  /** The first piece of what can be decoded. */
  lemma FirstPiece(s: string) returns (p: Piece)
    requires s != "" && s[0] != '"' && Decode(s).Some?
    ensures IsPiece(p) && PieceText(p) <= s
  {
    hide CodePointToUTF8, HexNumber;
    if s[0] != '\\' {
      p := Plain(s[0]);
    } else if s[1] != 'u' {
      ShortIs(s[1]);
      hide ShortEscape;
      var i :| 0 <= i < 8 && LETTERS[i] == s[1];
      p := Short(i);
      assert s[..2] == PieceText(p);
    } else {
      hide Hex4, AllHex;
      var u := s[2..];
      FourRead(u);
      var d := u[..4];
      if IsHigh(HexNumber(d)) {
        FourRead(u[6..]);
        p := Pair(d, u[6..][..4]);
        assert s[..12] == PieceText(p);
      } else {
        p := Unicode(d);
        assert s[..6] == PieceText(p);
      }
    }
  }

  lemma {:induction false} Taken(s: string, n: nat) returns (ps: seq<Piece>)
    requires StringEnd(s) == Some(n) && Decode(s[..n]).Some?
    ensures ArePieces(ps) && Text(ps) == s[..n]
    decreases n
  {
    hide Decode, StringEnd, PieceText, PieceMeans, IsPiece;
    if n == 0 {
      ps := [];
    } else {
      FirstIsNoQuote(s, n);
      var p := FirstPiece(s[..n]);
      var k := |PieceText(p)|;
      assert s == PieceText(p) + s[k..];
      PieceSkipped(p, s[k..]);
      PieceNotEmpty(p);
      assert s[..n] == PieceText(p) + s[k..][..n - k];
      PieceRead(p, s[k..][..n - k]);
      var more := Taken(s[k..], n - k);
      ps := [p] + more;
      assert ps[1..] == more;
    }
  }

  lemma FirstIsNoQuote(s: string, n: nat)
    requires StringEnd(s) == Some(n) && n > 0
    ensures s[0] != '"'
  {
  }

  lemma PieceNotEmpty(p: Piece)
    requires IsPiece(p)
    ensures PieceText(p) != ""
  {
  }

  /** A text is a string up to a quote, and means `t`, exactly if it is made of pieces that mean it. */
  lemma StringExactly(s: string, n: nat, t: string)
    requires n < |s|
    ensures StringEnd(s) == Some(n) && Decode(s[..n]) == Some(t) <==>
            s[n] == '"' && exists ps :: ArePieces(ps) && Text(ps) == s[..n] && Means(ps) == t
  {
    hide Decode, PieceText, PieceMeans, IsPiece, Text, Means;
    if StringEnd(s) == Some(n) && Decode(s[..n]) == Some(t) {
      var ps := Taken(s, n);
      StringRead(ps, "");
    }
    if s[n] == '"' {
      assert s == s[..n] + "\"" + s[n + 1..];
      forall ps | ArePieces(ps) && Text(ps) == s[..n] && Means(ps) == t
        ensures StringEnd(s) == Some(n) && Decode(s[..n]) == Some(t)
      {
        StringRead(ps, s[n + 1..]);
      }
    }
  }

  // ---------------------------------------------------------------- what the writer makes

  /** The piece that the writer makes of a character. */
  function PieceOf(c: char): Piece {
    if c == '"' then Short(0)
    else if c == '\\' then Short(1)
    else if c == BS then Short(3)
    else if c == FF then Short(4)
    else if c == '\n' then Short(5)
    else if c == '\r' then Short(6)
    else if c == '\t' then Short(7)
    else if IsControl(c) then Unicode(['0', '0', HexDigit(c as int / 16), HexDigit(c as int % 16)])
    else Plain(c)
  }

  lemma DigitOf(n: nat)
    requires n < 16
    ensures IsHexdig(HexDigit(n)) && HexdigValue(HexDigit(n)) == n
  {
  }

  lemma ControlPiece(c: char)
    requires IsControl(c)
    ensures var d := ['0', '0', HexDigit(c as int / 16), HexDigit(c as int % 16)];
            IsFour(d) && HexNumber(d) == c as int
  {
    var d := ['0', '0', HexDigit(c as int / 16), HexDigit(c as int % 16)];
    DigitOf(c as int / 16);
    DigitOf(c as int % 16);
    assert IsFour(d);
    FourDigits(d);
  }

  lemma PieceOfFits(c: char)
    ensures IsPiece(PieceOf(c)) && PieceText(PieceOf(c)) == Escape(c) && PieceMeans(PieceOf(c)) == [c]
  {
    hide HexNumber, HexDigit;
    if !Special(c) && IsControl(c) { ControlPiece(c); }
  }

  function PiecesOf(s: string): seq<Piece> { if s == "" then [] else [PieceOf(s[0])] + PiecesOf(s[1..]) }

  /** What the writer writes is made of pieces that mean the string. */
  lemma {:induction false} PiecesOfFit(s: string)
    ensures ArePieces(PiecesOf(s)) && Text(PiecesOf(s)) == Escapes(s) && Means(PiecesOf(s)) == s
    decreases |s|
  {
    hide PieceOf, IsPiece, PieceText, PieceMeans, Escape;
    if s != "" {
      PieceOfFits(s[0]);
      PiecesOfFit(s[1..]);
      var ps := PiecesOf(s);
      assert ps[0] == PieceOf(s[0]) && ps[1..] == PiecesOf(s[1..]);
      assert forall p :: p in ps ==> p == ps[0] || p in ps[1..];
      assert s == [s[0]] + s[1..];
    }
  }

  lemma EscapesBack(t: string, rest: string)
    ensures Decode(Escapes(t)) == Some(t)
    ensures StringEnd(Escapes(t) + "\"" + rest) == Some(|Escapes(t)|)
  {
    hide Decode, StringEnd, Escapes;
    PiecesOfFit(t);
    StringRead(PiecesOf(t), rest);
  }
}
