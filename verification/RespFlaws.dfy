/** Which bytes are refused, and why: the first broken item, behind whole ones. */
module RespFlaws {
  import opened Options
  import opened Integers
  import opened Resp
  import opened RespWire

  /** The start of an item that cannot become one. Inside an array, whole elements may come first. */
  datatype Broken =
    | BadByte(c: char)
    | BadNumber(text: string)
    | BadBulkLine(text: string)
    | BulkOutOfRange(n: int)
    | Deep
    | BadArrayLine(text: string)
    | ArrayOutOfRange(n: int)
    | InArray(count: nat, before: seq<Wire>, broken: Broken)

  ghost predicate IsNumber(t: string) { exists v :: IsLongLong(v) && t == Show(v) }

  /** A line with anything but a 64-bit integer on it. */
  ghost predicate IsOtherLine(t: string) { Newline(t) == None && !IsNumber(t) }

  ghost predicate IsBroken(b: Broken, level: nat)
    decreases b
  {
    match b
    case BadByte(c) => c !in {'+', '-', ':', '$', '*'}
    case BadNumber(t) => IsOtherLine(t)
    case BadBulkLine(t) => IsOtherLine(t)
    case BulkOutOfRange(n) => IsLongLong(n) && n < -1
    case Deep => level == MAX_LEVEL
    case BadArrayLine(t) => level < MAX_LEVEL && IsOtherLine(t)
    case ArrayOutOfRange(n) => level < MAX_LEVEL && IsLongLong(n) && (n < -1 || n > 0x7FFF_FFFF)
    case InArray(n, before, inner) =>
      && level < MAX_LEVEL && |before| < n <= 0x7FFF_FFFF
      && (forall w :: w in before ==> IsWire(w) && Flat(w, level + 1)) && IsBroken(inner, level + 1)
  }

  function BrokenText(b: Broken): string {
    match b
    case BadByte(c) => [c]
    case BadNumber(t) => ":" + t + CRLF
    case BadBulkLine(t) => "$" + t + CRLF
    case BulkOutOfRange(n) => "$" + Show(n) + CRLF
    case Deep => "*"
    case BadArrayLine(t) => "*" + t + CRLF
    case ArrayOutOfRange(n) => "*" + Show(n) + CRLF
    case InArray(n, before, inner) => "*" + Show(n) + CRLF + WireTexts(before) + BrokenText(inner)
  }

  function FlawOf(b: Broken): Flaw {
    match b
    case BadByte(c) => TypeByte(c)
    case BadNumber(_) => BadInteger
    case BadBulkLine(_) => BadBulkLength
    case BulkOutOfRange(_) => BulkLengthRange
    case Deep => TooDeep
    case BadArrayLine(_) => BadMultiBulkLength
    case ArrayOutOfRange(_) => MultiBulkLengthRange
    case InArray(_, _, inner) => FlawOf(inner)
  }

  // ---------------------------------------------------------------- what is broken is refused

  lemma OtherLine(t: string, rest: string)
    requires IsOtherLine(t)
    ensures var s := t + CRLF + rest; Newline(s) == Some(|t|) && s[..|t|] == t && ToLongLong(t) == None
  {
    hide Newline, ToLongLong, Show;
    NewlineEnds(t, rest);
    if ToLongLong(t).Some? { ReadsExactlyShown(t, ToLongLong(t).value); }
  }

  /** Behind the type byte. */
  lemma HeadRead(c: char, s: string, level: nat)
    requires level <= MAX_LEVEL
    ensures ReadItem([c] + s, level) == match KindOf(c) case None => Fail(TypeByte(c)) case Some(k) => ReadTyped(k, s, level)
  {
    hide ReadTyped;
    assert ([c] + s)[1..] == s;
  }

  lemma {:induction false} BrokenRead(b: Broken, rest: string, level: nat)
    requires level <= MAX_LEVEL && IsBroken(b, level)
    ensures ReadItem(BrokenText(b) + rest, level) == Fail(FlawOf(b))
    decreases b
  {
    hide ReadItem, ReadTyped, IsOtherLine, Show, Newline;
    match b
    case BadByte(c) => HeadRead(c, rest, level);
    case BadNumber(t) =>
      HeadRead(':', t + CRLF + rest, level);
      assert BrokenText(b) + rest == [':'] + (t + CRLF + rest);
      NumberRefused(t, rest, level);
    case BadBulkLine(t) =>
      HeadRead('$', t + CRLF + rest, level);
      assert BrokenText(b) + rest == ['$'] + (t + CRLF + rest);
      BulkRefused(t, rest, level);
    case BulkOutOfRange(n) =>
      HeadRead('$', Show(n) + CRLF + rest, level);
      assert BrokenText(b) + rest == ['$'] + (Show(n) + CRLF + rest);
      BulkRangeRefused(n, rest, level);
    case Deep => HeadRead('*', rest, level); DeepRefused(rest);
    case BadArrayLine(t) =>
      HeadRead('*', t + CRLF + rest, level);
      assert BrokenText(b) + rest == ['*'] + (t + CRLF + rest);
      ArrayLineRefused(t, rest, level);
    case ArrayOutOfRange(n) =>
      HeadRead('*', Show(n) + CRLF + rest, level);
      assert BrokenText(b) + rest == ['*'] + (Show(n) + CRLF + rest);
      ArrayRangeRefused(n, rest, level);
    case InArray(n, before, inner) =>
      BrokenRead(inner, rest, level + 1);
      InArrayRead(n, before, inner, rest, level);
  }

  lemma InArrayRead(n: nat, before: seq<Wire>, inner: Broken, rest: string, level: nat)
    requires level < MAX_LEVEL && IsBroken(InArray(n, before, inner), level)
    requires ReadItem(BrokenText(inner) + rest, level + 1) == Fail(FlawOf(inner))
    ensures ReadItem(BrokenText(InArray(n, before, inner)) + rest, level) == Fail(FlawOf(inner))
  {
    hide ReadItem, ReadTyped, Show, WireTexts;
    var more := BrokenText(inner) + rest;
    HeadRead('*', Show(n) + CRLF + (WireTexts(before) + more), level);
    assert BrokenText(InArray(n, before, inner)) + rest == ['*'] + (Show(n) + CRLF + (WireTexts(before) + more));
    ItemsRefused(before, n, more, FlawOf(inner), level + 1);
    ArrayRefused(n, WireTexts(before) + more, FlawOf(inner), level);
  }

  lemma NumberRefused(t: string, rest: string, level: nat)
    requires level <= MAX_LEVEL && IsOtherLine(t)
    ensures ReadTyped(IntegerLine, t + CRLF + rest, level) == Fail(BadInteger)
  {
    hide Newline, ToLongLong, IsOtherLine;
    OtherLine(t, rest);
  }

  lemma BulkRefused(t: string, rest: string, level: nat)
    requires level <= MAX_LEVEL && IsOtherLine(t)
    ensures ReadTyped(BulkString, t + CRLF + rest, level) == Fail(BadBulkLength)
  {
    hide Newline, ToLongLong, IsOtherLine;
    OtherLine(t, rest);
  }

  lemma BulkRangeRefused(n: int, rest: string, level: nat)
    requires level <= MAX_LEVEL && IsLongLong(n) && n < -1
    ensures ReadTyped(BulkString, Show(n) + CRLF + rest, level) == Fail(BulkLengthRange)
  {
    hide Newline, ToLongLong, Show;
    NumberLine(n, rest);
  }

  lemma DeepRefused(s: string)
    ensures ReadTyped(MultiBulk, s, MAX_LEVEL) == Fail(TooDeep)
  {
  }

  lemma ArrayLineRefused(t: string, rest: string, level: nat)
    requires level < MAX_LEVEL && IsOtherLine(t)
    ensures ReadTyped(MultiBulk, t + CRLF + rest, level) == Fail(BadMultiBulkLength)
  {
    hide Newline, ToLongLong, IsOtherLine, ReadItems;
    OtherLine(t, rest);
  }

  lemma ArrayRangeRefused(n: int, rest: string, level: nat)
    requires level < MAX_LEVEL && IsLongLong(n) && (n < -1 || n > 0x7FFF_FFFF)
    ensures ReadTyped(MultiBulk, Show(n) + CRLF + rest, level) == Fail(MultiBulkLengthRange)
  {
    hide Newline, ToLongLong, Show, ReadItems;
    NumberLine(n, rest);
  }

  lemma ArrayRefused(n: nat, s: string, e: Flaw, level: nat)
    requires level < MAX_LEVEL && n <= 0x7FFF_FFFF && ReadItems(s, n, level + 1) == Fail(e)
    ensures ReadTyped(MultiBulk, Show(n) + CRLF + s, level) == Fail(e)
  {
    hide Newline, ToLongLong, Show, ReadItems;
    NumberLine(n, s);
  }

  lemma {:induction false} ItemsRefused(before: seq<Wire>, n: nat, s: string, e: Flaw, level: nat)
    requires level <= MAX_LEVEL && |before| < n && forall w :: w in before ==> IsWire(w) && Flat(w, level)
    requires ReadItem(s, level) == Fail(e)
    ensures ReadItems(WireTexts(before) + s, n, level) == Fail(e)
    decreases |before|
  {
    hide ReadItem, WireText, IsWire, Flat, WireValue;
    if before == [] {
      assert WireTexts(before) + s == s;
    } else {
      var w, more := before[0], before[1..];
      assert w in before && forall x :: x in more ==> x in before;
      ItemsRefused(more, n - 1, s, e, level);
      WireRead(w, WireTexts(more) + s, level);
      assert WireTexts(before) + s == WireText(w) + (WireTexts(more) + s);
    }
  }

  // ---------------------------------------------------------------- nothing else is refused

  lemma OtherLineIs(s: string, i: nat)
    requires Newline(s) == Some(i) && ToLongLong(s[..i]) == None
    ensures IsOtherLine(s[..i]) && s == s[..i] + CRLF + s[i + 2..]
  {
    hide Newline, ToLongLong, Show;
    LineCut(s, i);
    forall v: int { ReadsExactlyShown(s[..i], v); }
  }

  lemma {:induction false} BrokenIs(s: string, level: nat) returns (b: Broken)
    requires level <= MAX_LEVEL && ReadItem(s, level).Fail?
    ensures IsBroken(b, level) && BrokenText(b) <= s && FlawOf(b) == ReadItem(s, level).flaw
    decreases |s|, 1
  {
    hide ReadTyped, Newline, ToLongLong, Show, WireTexts, IsOtherLine;
    assert s == [s[0]] + s[1..];
    if KindOf(s[0]) == None {
      b := BadByte(s[0]);
    } else if KindOf(s[0]) == Some(MultiBulk) {
      b := ArrayBroken(s[1..], level);
      BrokenStarts(b);
    } else {
      b := LineBroken(KindOf(s[0]).value, s[1..], level);
      BrokenStarts(b);
    }
  }

  lemma BrokenStarts(b: Broken)
    requires !b.BadByte?
    ensures BrokenText(b) == [BrokenText(b)[0]] + BrokenText(b)[1..]
    ensures BrokenText(b)[0] == if b.BadNumber? then ':' else if b.BadBulkLine? || b.BulkOutOfRange? then '$' else '*'
  {
    hide Show, WireTexts;
  }

  lemma LineBroken(k: Kind, s: string, level: nat) returns (b: Broken)
    requires level <= MAX_LEVEL && k != MultiBulk && ReadTyped(k, s, level).Fail?
    ensures IsBroken(b, level) && FlawOf(b) == ReadTyped(k, s, level).flaw
    ensures if k == BulkString then b.BadBulkLine? || b.BulkOutOfRange? else k == IntegerLine && b.BadNumber?
    ensures BrokenText(b)[1..] <= s
  {
    hide Newline, ToLongLong, Show, IsOtherLine;
    var i := Newline(s).value;
    var n := ToLongLong(s[..i]);
    if n == None {
      OtherLineIs(s, i);
      b := if k == BulkString then BadBulkLine(s[..i]) else BadNumber(s[..i]);
      assert BrokenText(b)[1..] == s[..i] + CRLF;
    } else {
      NumberCut(s, i, n.value);
      b := BulkOutOfRange(n.value);
      assert BrokenText(b)[1..] == Show(n.value) + CRLF;
    }
  }

  lemma {:induction false} ArrayBroken(s: string, level: nat) returns (b: Broken)
    requires level <= MAX_LEVEL && ReadTyped(MultiBulk, s, level).Fail?
    ensures IsBroken(b, level) && FlawOf(b) == ReadTyped(MultiBulk, s, level).flaw
    ensures (b.Deep? || b.BadArrayLine? || b.ArrayOutOfRange? || b.InArray?) && BrokenText(b)[1..] <= s
    decreases |s|, 3
  {
    hide Newline, ToLongLong, Show, ReadItems, WireTexts, IsOtherLine;
    if level == MAX_LEVEL {
      b := Deep;
    } else {
      var i := Newline(s).value;
      var n := ToLongLong(s[..i]);
      if n == None {
        OtherLineIs(s, i);
        b := BadArrayLine(s[..i]);
        assert BrokenText(b)[1..] == s[..i] + CRLF;
      } else {
        NumberCut(s, i, n.value);
        if n.value < -1 || n.value > INT_MAX {
          b := ArrayOutOfRange(n.value);
          assert BrokenText(b)[1..] == Show(n.value) + CRLF;
        } else {
          var before, inner := ItemsBroken(s[i + 2..], n.value, level + 1);
          b := InArray(n.value, before, inner);
          InArrayText(b, s, s[i + 2..]);
        }
      }
    }
  }

  lemma InArrayText(b: Broken, s: string, t: string)
    requires b.InArray? && s == Show(b.count) + CRLF + t && WireTexts(b.before) + BrokenText(b.broken) <= t
    ensures BrokenText(b)[1..] <= s
  {
    hide Show, WireTexts;
    assert BrokenText(b)[1..] == Show(b.count) + CRLF + (WireTexts(b.before) + BrokenText(b.broken));
  }

  lemma {:induction false} ItemsBroken(s: string, n: nat, level: nat) returns (before: seq<Wire>, b: Broken)
    requires level <= MAX_LEVEL && ReadItems(s, n, level).Fail?
    ensures |before| < n && (forall w :: w in before ==> IsWire(w) && Flat(w, level)) && IsBroken(b, level)
    ensures WireTexts(before) + BrokenText(b) <= s && FlawOf(b) == ReadItems(s, n, level).flaw
    decreases |s|, 2, n
  {
    hide ReadItem, WireText, IsWire, Flat, WireValue, IsBroken, BrokenText, FlawOf;
    if ReadItem(s, level).Fail? {
      before := [];
      b := BrokenIs(s, level);
      assert WireTexts([]) + BrokenText(b) == BrokenText(b);
    } else {
      var w := WireIs(s, level);
      var rest := ReadItem(s, level).rest;
      var more;
      more, b := ItemsBroken(rest, n - 1, level);
      before := [w] + more;
      assert before[1..] == more && forall x :: x in before ==> x == w || x in more;
      assert WireTexts(before) + BrokenText(b) == WireText(w) + (WireTexts(more) + BrokenText(b));
    }
  }

  /** Bytes are refused exactly if the first item that is not a reply is broken, and for what is wrong with it. */
  lemma RefusedExactly(s: string, e: Flaw)
    ensures ReadItem(s, 0) == Fail(e) <==> exists b :: IsBroken(b, 0) && BrokenText(b) <= s && FlawOf(b) == e
  {
    hide ReadItem, IsBroken, BrokenText, FlawOf;
    if ReadItem(s, 0) == Fail(e) {
      var b := BrokenIs(s, 0);
    }
    forall b | IsBroken(b, 0) && BrokenText(b) <= s && FlawOf(b) == e
      ensures ReadItem(s, 0) == Fail(e)
    {
      BrokenRead(b, s[|BrokenText(b)|..], 0);
      assert s == BrokenText(b) + s[|BrokenText(b)|..];
    }
  }
}
