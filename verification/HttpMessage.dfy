/** Whole requests: what the parser makes of a message that was written from a request. */
module HttpMessage {
  import opened HttpTypes
  import opened HttpSwitch
  import opened HttpGoes
  import opened HttpHeader
  import opened HttpValue
  import opened Decimal

  const CRLF: string := [CR, LF]

  // ---------------------------------------------------------------- one header

  /** The fields that a value changes while it is read. */
  function WithValue(p: Parser, n: nat, h: HeaderState, index: nat, v: string, k: HeaderState): Parser
    requires k == ContentLength ==> AllDigits(v)
  {
    Read(p, n).(state := HeaderValue, headerState := h, index := index,
                flags := if k == Upgrade then p.flags.(upgrade := true) else p.flags,
                contentLength := if k == ContentLength then Decimal.Value(v) else p.contentLength)
  }

  lemma OneValueByte(answersOne: Parser -> bool, p: Parser, ch: char)
    requires p.state.HeaderValueStart? && ch != ' ' && ch != '\t' && ch != CR && ch != LF && Room(p, 1)
    requires p.headerState == ContentLength ==> IsNum(ch)
    ensures Goes(answersOne, p, [ch], ValueStartByte(Read(p, 1), ch).p, [HttpTypes.Byte(Value, ch)])
  {
    hide Goes, ValueStartByte, ValueFits, Switch;
    Dispatch(answersOne, Read(p, 1), ch);
    ValueFirst(Read(p, 1), ch);
    GoesMarked(answersOne, p, ch, ValueStartByte(Read(p, 1), ch).p, Value);
  }

  lemma NextValueByte(answersOne: Parser -> bool, p: Parser, ch: char, k: HeaderState, v: string)
    requires p.state.HeaderValue? && ValueFits(k, p.headerState, p.index, v) && v != "" && ch != CR && ch != LF
    requires k == Class(k) && Room(p, 1)
    requires k == ContentLength ==> IsNum(ch) && p.contentLength * 10 + Digit(ch) < U64_MAX
    ensures Goes(answersOne, p, [ch], ValueByte(Read(p, 1), ch).p, [HttpTypes.Byte(Value, ch)])
  {
    hide Goes, ValueByte, ValueFits, Switch;
    Dispatch(answersOne, Read(p, 1), ch);
    ValueNext(Read(p, 1), ch, k, v);
    GoesMarked(answersOne, p, ch, ValueByte(Read(p, 1), ch).p, Value);
  }

  lemma ValuePrefix(s: string)
    requires IsLength(s)
    ensures IsNum(s[|s| - 1]) && AllDigits(s) && AllDigits(s[..|s| - 1])
    ensures |s| > 1 ==> IsLength(s[..|s| - 1])
    ensures Decimal.Value(s) == Decimal.Value(s[..|s| - 1]) * 10 + Digit(s[|s| - 1]) < U64_MAX
    ensures |s| == 1 ==> Decimal.Value([s[0]]) == Decimal.Value(s)
  {
    assert |s| == 1 ==> s == [s[0]];
  }

  /** The fields after one more byte of a value. */
  lemma ValueStep(answersOne: Parser -> bool, p: Parser, init: string, h0: HeaderState, i0: nat, ch: char)
    returns (h: HeaderState, index: nat)
    requires init != "" && ch != CR && ch != LF && Room(p, |init| + 1)
    requires Class(p.headerState) == ContentLength ==> IsLength(init) && IsLength(init + [ch])
    requires ValueFits(Class(p.headerState), h0, i0, init)
    ensures ValueFits(Class(p.headerState), h, index, init + [ch])
    ensures Goes(answersOne, WithValue(p, |init|, h0, i0, init, Class(p.headerState)), [ch],
                 WithValue(p, |init| + 1, h, index, init + [ch], Class(p.headerState)), [HttpTypes.Byte(Value, ch)])
  {
    hide ValueFits, Goes, ValueByte, Decimal.Value, AllDigits, IsLength;
    var k := Class(p.headerState);
    if k == ContentLength {
      ValuePrefix(init);
      ValuePrefix(init + [ch]);
      assert (init + [ch])[..|init|] == init;
    }
    var q := WithValue(p, |init|, h0, i0, init, k);
    ValueNext(Read(q, 1), ch, k, init);
    NextValueByte(answersOne, q, ch, k, init);
    var r := ValueByte(Read(q, 1), ch).p;
    h, index := r.headerState, r.index;
    assert r == WithValue(p, |init| + 1, h, index, init + [ch], k);
  }

  /** Reading a value: its bytes go to the value callback, and the automaton fits it. */
  lemma {:induction false} ValueGoes(answersOne: Parser -> bool, p: Parser, v: string) returns (h: HeaderState, index: nat)
    requires p.state.HeaderValueStart? && v != "" && IsValue(v) && Room(p, |v|)
    requires Class(p.headerState) == ContentLength ==> IsLength(v)
    ensures ValueFits(Class(p.headerState), h, index, v)
    ensures Goes(answersOne, p, v, WithValue(p, |v|, h, index, v, Class(p.headerState)), BytesOf(Value, v))
    decreases |v|
  {
    hide ValueFits, Goes, ValueStartByte, Decimal.Value, BytesOf, AllDigits, IsLength;
    var k := Class(p.headerState);
    if k == ContentLength { ValuePrefix(v); }
    if |v| == 1 {
      assert v == [v[0]];
      ValueFirst(Read(p, 1), v[0]);
      OneValueByte(answersOne, p, v[0]);
      var q := ValueStartByte(Read(p, 1), v[0]).p;
      h, index := q.headerState, q.index;
      ByteAlone(Value, v[0]);
      assert q == WithValue(p, |v|, h, index, v, k);
    } else {
      var init, ch := v[..|v| - 1], v[|v| - 1];
      assert v == init + [ch];
      var h0, i0 := ValueGoes(answersOne, p, init);
      h, index := ValueStep(answersOne, p, init, h0, i0, ch);
      GoesOn(answersOne, p, init, WithValue(p, |init|, h0, i0, init, k), BytesOf(Value, init),
             [ch], WithValue(p, |v|, h, index, v, k), [HttpTypes.Byte(Value, ch)]);
      OneByteMore(Value, init, ch);
    }
  }

  /** What the end of the line makes of the automaton's state. */
  function FlagsAtEnd(f: Flags, h: HeaderState): Flags {
    match h
    case KeepAlive => f.(keepAlive := true)
    case Close => f.(close := true)
    case Chunked => f.(chunked := true)
    case _ => f
  }

  lemma ValueMeans(f: Flags, k: HeaderState, h: HeaderState, index: nat, name: string, v: string)
    requires k == Meaning(name) && ValueFits(k, h, index, v) && v != ""
    ensures FlagsAtEnd(if k == Upgrade then f.(upgrade := true) else f, h) == FlagsAfter(f, name, v)
  {
    hide MaySay, Says, Meaning;
    SaysIsMaySay(v);
    OneWord(v);
    ShortSaysNothing(v);
  }

  lemma SaysIsMaySay(v: string)
    ensures forall w: Word :: Says(v, w) ==> MaySay(v, w)
  {
    hide HttpTypes.Word.Spelling, HttpTypes.Word.Length, Says;
  }

  lemma ShortSaysNothing(v: string)
    ensures forall w: Word :: |v| < w.Length() ==> !Says(v, w)
  {
    hide HttpTypes.Word.Spelling;
  }

  function HeaderLine(name: string, v: string): string { name + ": " + v + CRLF }

  function AfterHeader(p: Parser, name: string, v: string, h: HeaderState, index: nat): Parser
    requires IsHeader(name, v)
  {
    Read(p, |HeaderLine(name, v)|).(
      state := HeaderValueLws, headerState := h, index := index,
      flags := FlagsAfter(p.flags, name, v), contentLength := LengthAfter(p.contentLength, name, v))
  }

  /** ": " after a name. */
  lemma ColonGoes(answersOne: Parser -> bool, p: Parser)
    requires p.state.HeaderField? && Room(p, 2)
    ensures Goes(answersOne, p, ": ", Read(p, 2).(state := HeaderValueStart), [])
  {
    hide Goes, Switch, Token;
    TokenOfNewline();
    var q := Read(p, 1).(state := HeaderValueStart);
    var r := Read(p, 2).(state := HeaderValueStart);
    Dispatch(answersOne, Read(p, 1), ':');
    Dispatch(answersOne, Read(q, 1), ' ');
    assert FieldByte(Read(p, 1), ':').p == q;
    GoesQuietly(answersOne, p, ':', q);
    assert ValueStartByte(Read(q, 1), ' ').p == r;
    GoesQuietly(answersOne, q, ' ', r);
    GoesOn(answersOne, p, [':'], q, [], [' '], r, []);
    assert [':'] + [' '] == ": " && NO_ATOMS + NO_ATOMS == NO_ATOMS;
  }

  /** The end of a line after a value, empty or not. */
  lemma LineEndGoes(answersOne: Parser -> bool, p: Parser)
    requires p.state.HeaderValue? || p.state.HeaderValueStart?
    requires Room(p, 2)
    ensures var h := if p.state.HeaderValue? then p.headerState else General;
            Goes(answersOne, p, CRLF,
                 Read(p, 2).(state := HeaderValueLws, headerState := h, flags := FlagsAtEnd(p.flags, h),
                             index := if p.state.HeaderValue? then p.index else 0), [])
  {
    hide Goes, Switch;
    var h := if p.state.HeaderValue? then p.headerState else General;
    var i := if p.state.HeaderValue? then p.index else 0;
    var q := Read(p, 1).(state := HeaderAlmostDone, headerState := h, index := i);
    CrEndsValue(answersOne, p, q);
    var r := Read(p, 2).(state := HeaderValueLws, headerState := h, index := i, flags := FlagsAtEnd(p.flags, h));
    Dispatch(answersOne, Read(q, 1), LF);
    assert HeaderEndByte(Read(q, 1), LF).p == r;
    GoesQuietly(answersOne, q, LF, r);
    GoesOn(answersOne, p, [CR], q, [], [LF], r, []);
    assert [CR] + [LF] == CRLF && NO_ATOMS + NO_ATOMS == NO_ATOMS;
  }

  lemma CrEndsValue(answersOne: Parser -> bool, p: Parser, q: Parser)
    requires p.state.HeaderValue? || p.state.HeaderValueStart?
    requires Room(p, 1)
    requires q == Read(p, 1).(state := HeaderAlmostDone,
                              headerState := if p.state.HeaderValue? then p.headerState else General,
                              index := if p.state.HeaderValue? then p.index else 0)
    ensures Goes(answersOne, p, [CR], q, [])
  {
    hide Goes, Lower, Match, Switch;
    Dispatch(answersOne, Read(p, 1), CR);
    if p.state.HeaderValue? {
      assert ValueByte(Read(p, 1), CR).p == q;
    } else {
      assert ValueStartByte(Read(p, 1), CR).p == q;
    }
    GoesQuietly(answersOne, p, CR, q);
  }

  /** A header line: two data callbacks, and the fields as the reference has them. */
  lemma HeaderGoes(answersOne: Parser -> bool, p: Parser, name: string, v: string) returns (h: HeaderState, index: nat)
    requires p.state.HeaderFieldStart? && IsHeader(name, v) && Room(p, |HeaderLine(name, v)|)
    ensures Goes(answersOne, p, HeaderLine(name, v), AfterHeader(p, name, v, h, index),
                 BytesOf(Field, name) + BytesOf(Value, v))
  {
    hide Goes, FieldFits, ValueFits, Meaning, FlagsAfter, BytesOf, Decimal.Value;
    h, index := NameGoes(answersOne, p, name);
    NameMeans(h, index, name);
    var q1 := Read(p, |name|).(state := HeaderField, headerState := h, index := index);
    var q2 := Read(q1, 2).(state := HeaderValueStart);
    ColonGoes(answersOne, q1);
    GoesOn(answersOne, p, name, q1, BytesOf(Field, name), ": ", q2, []);
    if v == "" {
      LineEndGoes(answersOne, q2);
      EmptyValueMeans(p.flags, name);
      h, index := General, 0;
      var r := AfterHeader(p, name, v, h, index);
      GoesOn(answersOne, p, name + ": ", q2, BytesOf(Field, name) + [], CRLF, r, []);
      assert name + ": " + CRLF == HeaderLine(name, v);
      assert BytesOf(Value, "") == [] by { ByteCount(Value, ""); }
      assert BytesOf(Field, name) + [] + [] == BytesOf(Field, name) + BytesOf(Value, v);
    } else {
      var k := Meaning(name);
      h, index := ValueGoes(answersOne, q2, v);
      var q3 := WithValue(q2, |v|, h, index, v, k);
      ValueMeans(p.flags, k, h, index, name, v);
      LineEndGoes(answersOne, q3);
      var r := AfterHeader(p, name, v, h, index);
      GoesOn(answersOne, p, name + ": ", q2, BytesOf(Field, name) + [], v, q3, BytesOf(Value, v));
      GoesOn(answersOne, p, name + ": " + v, q3, BytesOf(Field, name) + [] + BytesOf(Value, v), CRLF, r, []);
      assert name + ": " + v + CRLF == HeaderLine(name, v);
      assert BytesOf(Field, name) + [] + BytesOf(Value, v) + [] == BytesOf(Field, name) + BytesOf(Value, v);
    }
  }

  lemma ByteCount(k: DataKind, s: string)
    ensures |BytesOf(k, s)| == |s|
  {
  }

  lemma EmptyValueMeans(f: Flags, name: string)
    ensures FlagsAtEnd(f, General) == f && FlagsAfter(f, name, "") == f
  {
    hide Meaning;
    ShortSaysNothing("");
  }
}
