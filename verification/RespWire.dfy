/** Which bytes are a reply: the protocol as it is written on the wire, and that the grammar of `Resp`
    reads exactly that. */
module RespWire {
  import opened Options
  import opened Integers
  import opened Resp

  /** A reply as it is sent. There are two ways to say nothing, and nobody looks at the two bytes
      behind a bulk string. */
  datatype Wire =
    | StatusWire(text: string)
    | ErrorWire(text: string)
    | IntegerWire(value: int)
    | BulkWire(bytes: string, end: string)
    | NilBulk
    | NilArray
    | ArrayWire(elements: seq<Wire>)

  predicate IsWire(w: Wire)
    decreases w
  {
    match w
    case StatusWire(t) => Newline(t) == None
    case ErrorWire(t) => Newline(t) == None
    case IntegerWire(v) => IsLongLong(v)
    case BulkWire(b, end) => |b| <= LLONG_MAX && |end| == 2
    case ArrayWire(es) => |es| <= INT_MAX && forall e :: e in es ==> IsWire(e)
    case _ => true
  }

  function WireText(w: Wire): string {
    match w
    case StatusWire(t) => "+" + t + CRLF
    case ErrorWire(t) => "-" + t + CRLF
    case IntegerWire(v) => ":" + Show(v) + CRLF
    case BulkWire(b, end) => "$" + Show(|b|) + CRLF + b + end
    case NilBulk => "$-1" + CRLF
    case NilArray => "*-1" + CRLF
    case ArrayWire(es) => "*" + Show(|es|) + CRLF + WireTexts(es)
  }

  function WireTexts(es: seq<Wire>): string { if es == [] then "" else WireText(es[0]) + WireTexts(es[1..]) }

  function WireValue(w: Wire): Reply {
    match w
    case StatusWire(t) => Status(t)
    case ErrorWire(t) => Error(t)
    case IntegerWire(v) => Integer(v)
    case BulkWire(b, _) => Bulk(b)
    case NilBulk => Nil
    case NilArray => Nil
    case ArrayWire(es) => Array(WireValues(es))
  }

  function WireValues(es: seq<Wire>): (rs: seq<Reply>)
    ensures |rs| == |es|
  {
    if es == [] then [] else [WireValue(es[0])] + WireValues(es[1..])
  }

  /** No array stands at level 8, not even an empty one or none. */
  predicate Flat(w: Wire, level: nat)
    decreases w
  {
    (w.ArrayWire? || w.NilArray? ==> level < MAX_LEVEL) && (w.ArrayWire? ==> forall e :: e in w.elements ==> Flat(e, level + 1))
  }

  // ---------------------------------------------------------------- what is written is read

  lemma NumberLine(v: int, rest: string)
    requires IsLongLong(v)
    ensures Newline(Show(v) + CRLF + rest) == Some(|Show(v)|)
    ensures (Show(v) + CRLF + rest)[..|Show(v)|] == Show(v) && ToLongLong(Show(v)) == Some(v)
    ensures (Show(v) + CRLF + rest)[|Show(v)| + 2..] == rest
  {
    hide Show, ToLongLong, Newline;
    ShowHasNoNewline(v);
    NewlineEnds(Show(v), rest);
    ReadBack(v);
  }

  lemma ShowHasNoNewline(v: int)
    ensures Newline(Show(v)) == None
  {
    var s := Show(v);
    assert forall i :: 0 <= i < |s| ==> s[i] != LF;
  }

  lemma MinusOne()
    ensures Show(-1) == "-1" && IsLongLong(-1)
  {
  }

  function KindFor(w: Wire): Kind {
    match w
    case StatusWire(_) => StatusLine
    case ErrorWire(_) => ErrorLine
    case IntegerWire(_) => IntegerLine
    case BulkWire(_, _) => BulkString
    case NilBulk => BulkString
    case NilArray => MultiBulk
    case ArrayWire(_) => MultiBulk
  }

  lemma HeadByte(w: Wire, rest: string, level: nat)
    requires level <= MAX_LEVEL
    ensures WireText(w) != "" && ReadItem(WireText(w) + rest, level) == ReadTyped(KindFor(w), WireText(w)[1..] + rest, level)
  {
    hide ReadTyped, Show, WireTexts;
    var s := WireText(w) + rest;
    assert s[1..] == WireText(w)[1..] + rest;
  }

  /** To the byte; and an array below level 7 is refused wherever it stands. */
  lemma {:induction false} WireRead(w: Wire, rest: string, level: nat)
    requires IsWire(w) && level <= MAX_LEVEL
    ensures ReadItem(WireText(w) + rest, level) == if Flat(w, level) then Done(WireValue(w), rest) else Fail(TooDeep)
    decreases w
  {
    hide ReadTyped, ReadItem, Show, WireText, Newline, WireTexts;
    HeadByte(w, rest, level);
    match w {
      case StatusWire(t) => TextRead(w, rest, level);
      case ErrorWire(t) => TextRead(w, rest, level);
      case IntegerWire(v) => IntegerRead(v, rest, level);
      case NilBulk => NilRead(w, rest, level);
      case NilArray => NilRead(w, rest, level);
      case BulkWire(b, end) => BulkRead(b, end, rest, level);
      case ArrayWire(es) =>
        ArrayRead(es, rest, level);
        if level < MAX_LEVEL { WiresRead(w, es, rest, level + 1); }
    }
  }

  lemma TextLine(head: string, t: string, rest: string)
    requires |head| == 1
    ensures (head + t + CRLF)[1..] + rest == t + CRLF + rest
    ensures (t + CRLF + rest)[..|t|] == t && (t + CRLF + rest)[|t| + 2..] == rest
  {
  }

  lemma TextRead(w: Wire, rest: string, level: nat)
    requires level <= MAX_LEVEL && IsWire(w) && (w.StatusWire? || w.ErrorWire?)
    ensures ReadTyped(KindFor(w), WireText(w)[1..] + rest, level) == Done(WireValue(w), rest)
  {
    hide Newline;
    NewlineEnds(w.text, rest);
    TextLine(if w.StatusWire? then "+" else "-", w.text, rest);
  }

  lemma IntegerRead(v: int, rest: string, level: nat)
    requires level <= MAX_LEVEL && IsLongLong(v)
    ensures ReadTyped(IntegerLine, WireText(IntegerWire(v))[1..] + rest, level) == Done(Integer(v), rest)
  {
    hide Newline, Show, ToLongLong;
    NumberLine(v, rest);
    TextLine(":", Show(v), rest);
  }

  lemma NilRead(w: Wire, rest: string, level: nat)
    requires level <= MAX_LEVEL && (w.NilBulk? || w.NilArray?)
    ensures ReadTyped(KindFor(w), WireText(w)[1..] + rest, level) == if Flat(w, level) then Done(Nil, rest) else Fail(TooDeep)
  {
    hide Newline, Show, ToLongLong;
    MinusOne();
    NumberLine(-1, rest);
    assert WireText(w)[1..] + rest == Show(-1) + CRLF + rest;
  }

  lemma BulkRead(b: string, end: string, rest: string, level: nat)
    requires level <= MAX_LEVEL && |b| <= LLONG_MAX && |end| == 2
    ensures ReadTyped(BulkString, WireText(BulkWire(b, end))[1..] + rest, level) == Done(Bulk(b), rest)
  {
    hide Newline, Show, ToLongLong;
    var t := b + end + rest;
    assert WireText(BulkWire(b, end))[1..] + rest == Show(|b|) + CRLF + t;
    NumberLine(|b|, t);
    assert t[..|b|] == b && t[|b| + 2..] == rest;
  }

  lemma ArrayRead(es: seq<Wire>, rest: string, level: nat)
    requires level <= MAX_LEVEL && |es| <= INT_MAX
    ensures ReadTyped(MultiBulk, WireText(ArrayWire(es))[1..] + rest, level) ==
            if level == MAX_LEVEL then Fail(TooDeep)
            else match ReadItems(WireTexts(es) + rest, |es|, level + 1)
                 case Done(xs, rest') => Done(Array(xs), rest')
                 case Need => Need
                 case Fail(e) => Fail(e)
  {
    hide Newline, Show, ToLongLong, ReadItems, WireTexts;
    assert WireText(ArrayWire(es))[1..] + rest == Show(|es|) + CRLF + (WireTexts(es) + rest);
    NumberLine(|es|, WireTexts(es) + rest);
  }

  lemma {:induction false} WiresRead(whole: Wire, es: seq<Wire>, rest: string, level: nat)
    requires level <= MAX_LEVEL && forall e :: e in es ==> e < whole && IsWire(e)
    ensures ReadItems(WireTexts(es) + rest, |es|, level) ==
            if forall e :: e in es ==> Flat(e, level) then Done(WireValues(es), rest) else Fail(TooDeep)
    decreases whole, |es|
  {
    hide ReadItem, WireText, Flat, IsWire, WireValue;
    if es == [] {
      assert WireTexts(es) + rest == rest;
    } else {
      var more := WireTexts(es[1..]) + rest;
      assert es == [es[0]] + es[1..] && es[0] in es;
      assert WireTexts(es) + rest == WireText(es[0]) + more;
      forall e | e in es[1..]
        ensures e in es
      {
      }
      WireRead(es[0], more, level);
      WiresRead(whole, es[1..], rest, level);
    }
  }

  // ---------------------------------------------------------------- nothing else is read

  /** Where a line ends. */
  lemma LineCut(s: string, i: nat)
    requires Newline(s) == Some(i)
    ensures s == s[..i] + CRLF + s[i + 2..] && Newline(s[..i]) == None
  {
    assert s[i..i + 2] == CRLF;
    forall j
      ensures !NewlineAt(s[..i], j)
    {
      assert NewlineAt(s[..i], j) ==> NewlineAt(s, j);
    }
  }

  /** A line with a number. */
  lemma NumberCut(s: string, i: nat, v: int)
    requires Newline(s) == Some(i) && ToLongLong(s[..i]) == Some(v)
    ensures IsLongLong(v) && s == Show(v) + CRLF + s[i + 2..]
  {
    hide Newline, ToLongLong, Show;
    LineCut(s, i);
    ReadsExactlyShown(s[..i], v);
  }

  lemma {:induction false} WireIs(s: string, level: nat) returns (w: Wire)
    requires level <= MAX_LEVEL && ReadItem(s, level).Done?
    ensures IsWire(w) && Flat(w, level) && WireValue(w) == ReadItem(s, level).value
    ensures s == WireText(w) + ReadItem(s, level).rest
    decreases |s|, 1
  {
    hide ReadTyped, Newline, WireText, WireTexts, ToLongLong, Show;
    var k := KindOf(s[0]).value;
    assert s == [s[0]] + s[1..];
    if k == MultiBulk {
      w := ArrayIs(s[1..], level);
    } else if k == BulkString {
      w := BulkIs(s[1..], level);
    } else {
      w := LineIs(k, s[1..], level);
    }
    TextStarts(w);
    assert s == WireText(w) + ReadItem(s, level).rest;
  }

  lemma TextStarts(w: Wire)
    ensures WireText(w) != "" && KindOf(WireText(w)[0]) == Some(KindFor(w)) && WireText(w) == [WireText(w)[0]] + WireText(w)[1..]
  {
    hide Show, WireTexts;
  }

  lemma LineIs(k: Kind, s: string, level: nat) returns (w: Wire)
    requires level <= MAX_LEVEL && ReadTyped(k, s, level).Done? && k != MultiBulk && k != BulkString
    ensures IsWire(w) && Flat(w, level) && KindFor(w) == k && WireValue(w) == ReadTyped(k, s, level).value
    ensures s == WireText(w)[1..] + ReadTyped(k, s, level).rest
  {
    hide Newline, ToLongLong, Show;
    var i := Newline(s).value;
    LineCut(s, i);
    if k == StatusLine {
      w := StatusWire(s[..i]);
    } else if k == ErrorLine {
      w := ErrorWire(s[..i]);
    } else {
      var v := ToLongLong(s[..i]).value;
      NumberCut(s, i, v);
      w := IntegerWire(v);
    }
  }

  lemma BulkIs(s: string, level: nat) returns (w: Wire)
    requires level <= MAX_LEVEL && ReadTyped(BulkString, s, level).Done?
    ensures IsWire(w) && Flat(w, level) && KindFor(w) == BulkString && WireValue(w) == ReadTyped(BulkString, s, level).value
    ensures s == WireText(w)[1..] + ReadTyped(BulkString, s, level).rest
  {
    hide Newline, ToLongLong, Show;
    var i := Newline(s).value;
    var n := ToLongLong(s[..i]).value;
    NumberCut(s, i, n);
    var t := s[i + 2..];
    if n == -1 {
      MinusOne();
      w := NilBulk;
    } else {
      w := BulkWire(t[..n], t[n..n + 2]);
      BulkText(t[..n], t[n..n + 2]);
      hide WireText;
      BulkCut(Show(n) + CRLF, t, n);
    }
  }

  lemma BulkText(b: string, end: string)
    ensures WireText(BulkWire(b, end))[1..] == Show(|b|) + CRLF + b + end
  {
    hide Show;
  }

  lemma BulkCut(head: string, t: string, n: nat)
    requires n + 2 <= |t|
    ensures head + t == head + t[..n] + t[n..n + 2] + t[n + 2..]
  {
  }

  lemma {:induction false} ArrayIs(s: string, level: nat) returns (w: Wire)
    requires level <= MAX_LEVEL && ReadTyped(MultiBulk, s, level).Done?
    ensures IsWire(w) && Flat(w, level) && KindFor(w) == MultiBulk && WireValue(w) == ReadTyped(MultiBulk, s, level).value
    ensures s == WireText(w)[1..] + ReadTyped(MultiBulk, s, level).rest
    decreases |s|, 3
  {
    hide Newline, ToLongLong, Show, ReadItems, WireTexts;
    var i := Newline(s).value;
    var n := ToLongLong(s[..i]).value;
    NumberCut(s, i, n);
    var t := s[i + 2..];
    if n == -1 {
      MinusOne();
      w := NilArray;
    } else {
      var es := WiresAre(t, n, level + 1);
      w := ArrayWire(es);
      assert WireText(w)[1..] == Show(n) + CRLF + WireTexts(es);
    }
  }

  lemma {:induction false} WiresAre(s: string, n: nat, level: nat) returns (es: seq<Wire>)
    requires level <= MAX_LEVEL && ReadItems(s, n, level).Done?
    ensures |es| == n && forall e :: e in es ==> IsWire(e) && Flat(e, level)
    ensures WireValues(es) == ReadItems(s, n, level).value && s == WireTexts(es) + ReadItems(s, n, level).rest
    decreases |s|, 2, n
  {
    hide ReadItem, WireText, IsWire, Flat, WireValue;
    if n == 0 {
      es := [];
    } else {
      var w := WireIs(s, level);
      var rest := ReadItem(s, level).rest;
      var more := WiresAre(rest, n - 1, level);
      es := [w] + more;
      assert es[1..] == more && forall e :: e in es ==> e == w || e in more;
      assert s == WireText(w) + WireTexts(more) + ReadItems(rest, n - 1, level).rest;
    }
  }

  /** A reply is read exactly from the bytes that are a reply, and from all of them. */
  lemma ReadExactly(s: string, r: Reply, rest: string)
    ensures ReadItem(s, 0) == Done(r, rest) <==>
            exists w :: IsWire(w) && Flat(w, 0) && WireValue(w) == r && s == WireText(w) + rest
  {
    hide ReadItem, WireText, IsWire, Flat, WireValue;
    if ReadItem(s, 0) == Done(r, rest) {
      var w := WireIs(s, 0);
    }
    forall w | IsWire(w) && Flat(w, 0) && WireValue(w) == r && s == WireText(w) + rest
      ensures ReadItem(s, 0) == Done(r, rest)
    {
      WireRead(w, rest, 0);
    }
  }

  // ---------------------------------------------------------------- as servers write

  /** How a server writes a reply. */
  function WireOf(r: Reply): Wire {
    match r
    case Status(t) => StatusWire(t)
    case Error(t) => ErrorWire(t)
    case Integer(v) => IntegerWire(v)
    case Bulk(b) => BulkWire(b, CRLF)
    case Nil => NilBulk
    case Array(es) => ArrayWire(WiresOf(es))
  }

  function WiresOf(es: seq<Reply>): (ws: seq<Wire>)
    ensures |ws| == |es|
  {
    if es == [] then [] else [WireOf(es[0])] + WiresOf(es[1..])
  }

  ghost predicate Carries(r: Reply, level: nat) {
    && IsWire(WireOf(r)) && WireText(WireOf(r)) == Encode(r) && WireValue(WireOf(r)) == r
    && (Flat(WireOf(r), level) <==> Shallow(r, level))
  }

  lemma {:induction false} WireOfCarries(r: Reply, level: nat)
    requires Writable(r)
    ensures Carries(r, level)
    decreases r
  {
    if r.Array? {
      hide Carries;
      forall e | e in r.elements
        ensures Carries(e, level + 1)
      {
        WireOfCarries(e, level + 1);
      }
      ArrayCarries(r.elements, level);
    } else {
      hide Show, Newline;
      MinusOne();
    }
  }

  lemma ArrayCarries(es: seq<Reply>, level: nat)
    requires |es| <= INT_MAX && forall e :: e in es ==> Carries(e, level + 1)
    ensures Carries(Array(es), level)
  {
    WiresOfEncode(es, level + 1);
    ArrayText(es);
    ArrayWireOf(es);
    forall i | 0 <= i < |es|
      ensures IsWire(WireOf(es[i])) && (Flat(WireOf(es[i]), level + 1) <==> Shallow(es[i], level + 1))
    {
      assert Carries(es[i], level + 1);
    }
    hide Carries, Show, WiresOf, WireTexts, WireValues, EncodeAll, Encode, WireOf, WireText, WireValue;
    Together(WiresOf(es), es, level);
    assert Carries(Array(es), level) by { CarriesIs(Array(es), level); }
  }

  lemma CarriesIs(r: Reply, level: nat)
    ensures Carries(r, level) <==>
      && IsWire(WireOf(r)) && WireText(WireOf(r)) == Encode(r) && WireValue(WireOf(r)) == r
      && (Flat(WireOf(r), level) <==> Shallow(r, level))
  {
  }

  /** Element by element. */
  lemma Together(ws: seq<Wire>, es: seq<Reply>, level: nat)
    requires |ws| == |es| <= INT_MAX
    requires forall i :: 0 <= i < |es| ==> IsWire(ws[i]) && (Flat(ws[i], level + 1) <==> Shallow(es[i], level + 1))
    ensures IsWire(ArrayWire(ws)) && (Flat(ArrayWire(ws), level) <==> Shallow(Array(es), level))
  {
    if Shallow(Array(es), level) {
      forall w | w in ws ensures Flat(w, level + 1) {
        var i :| 0 <= i < |ws| && ws[i] == w;
        assert es[i] in es;
      }
    }
    if Flat(ArrayWire(ws), level) {
      forall e | e in es ensures Shallow(e, level + 1) {
        var i :| 0 <= i < |es| && es[i] == e;
        assert ws[i] in ws;
      }
    }
  }

  lemma ArrayText(es: seq<Reply>)
    ensures Encode(Array(es)) == "*" + Show(|es|) + CRLF + EncodeAll(es)
  {
    hide Show;
  }

  lemma ArrayWireOf(es: seq<Reply>)
    ensures WireOf(Array(es)) == ArrayWire(WiresOf(es))
    ensures WireText(ArrayWire(WiresOf(es))) == "*" + Show(|es|) + CRLF + WireTexts(WiresOf(es))
    ensures WireValue(ArrayWire(WiresOf(es))) == Array(WireValues(WiresOf(es)))
  {
    hide Show;
  }

  lemma {:induction false} WiresOfEncode(es: seq<Reply>, level: nat)
    requires forall e :: e in es ==> Carries(e, level)
    ensures WireTexts(WiresOf(es)) == EncodeAll(es) && WireValues(WiresOf(es)) == es
    ensures forall i :: 0 <= i < |es| ==> WiresOf(es)[i] == WireOf(es[i])
    decreases |es|
  {
    hide Show, IsWire, WireText, WireValue, WireOf, Flat, Shallow, Encode;
    if es != [] {
      assert Carries(es[0], level) && es == [es[0]] + es[1..];
      WiresOfEncode(es[1..], level);
      var ws := WiresOf(es);
      assert ws[0] == WireOf(es[0]) && ws[1..] == WiresOf(es[1..]);
    }
  }

  /** Round trip, to the byte; and an array below level 7 is refused wherever it stands. */
  lemma RoundTrip(r: Reply, rest: string, level: nat)
    requires Writable(r) && level <= MAX_LEVEL
    ensures ReadItem(Encode(r) + rest, level) == if Shallow(r, level) then Done(r, rest) else Fail(TooDeep)
  {
    hide ReadItem, WireText, IsWire, Flat, WireValue, WireOf, Encode;
    WireOfCarries(r, level);
    WireRead(WireOf(r), rest, level);
  }
}
