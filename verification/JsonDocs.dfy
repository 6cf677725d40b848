/** JSON documents: which texts the reader of jsoncpp/json_reader.cpp takes for a value, and for which one. */
module JsonDocs {
  import opened Options
  import CStrings
  import opened Hexadecimal
  import opened Decimal
  import opened Integers
  import opened JsonText
  import opened JsonNumber
  import opened JsonStrings
  import opened Json

  // ---------------------------------------------------------------- documents

  datatype DocMember = DocMember(name: seq<Piece>, value: Doc)

  /** A document as it is written down. A comma may stand before a closing brace, after a member without a name. */
  datatype Doc =
    | DocNull
    | DocBool(b: bool)
    | DocNumber(minus: bool, digits: string)
    | DocString(text: seq<Piece>)
    | DocArray(elements: seq<Doc>)
    | DocObject(members: seq<DocMember>, comma: bool)

  /** Numbers are integers of 64 bits; a lone minus sign counts for one. */
  ghost predicate IsDoc(d: Doc)
    decreases d
  {
    match d
    case DocNumber(minus, digits) =>
      && (minus || digits != "") && AllDigits(digits)
      && Value(digits) <= if minus then 0x8000_0000_0000_0000 else 0xFFFF_FFFF_FFFF_FFFF
    case DocString(ps) => ArePieces(ps)
    case DocArray(es) => forall e :: e in es ==> IsDoc(e)
    case DocObject(ms, comma) =>
      && (forall m :: m in ms ==> ArePieces(m.name) && IsDoc(m.value))
      && (comma ==> ms != []) && CommaFits(ms, comma)
    case _ => true
  }

  ghost predicate CommaFits(ms: seq<DocMember>, comma: bool) {
    comma && ms != [] ==> ArePieces(ms[|ms| - 1].name) && Means(ms[|ms| - 1].name) == ""
  }

  /** The value of a document: integers get the type of their range, and strings end at a null byte. */
  ghost function DocValue(d: Doc): Json
    requires IsDoc(d)
    decreases d
  {
    match d
    case DocNull => Null
    case DocBool(b) => Bool(b)
    case DocNumber(minus, digits) =>
      if minus then Int(0 - Value(digits)) else if Value(digits) <= 0x7FFF_FFFF then Int(Value(digits)) else UInt(Value(digits))
    case DocString(ps) => Str(CStrings.CString(Means(ps)))
    case DocArray(es) => Arr(DocValues(es))
    case DocObject(ms, _) => Obj(PutAll([], ms))
  }

  ghost function DocValues(es: seq<Doc>): seq<Json>
    requires forall e :: e in es ==> IsDoc(e)
  {
    if es == [] then [] else [DocValue(es[0])] + DocValues(es[1..])
  }

  ghost predicate AreMembers(ms: seq<DocMember>) { forall m :: m in ms ==> ArePieces(m.name) && IsDoc(m.value) }

  ghost function MemberValue(m: DocMember): Member
    requires ArePieces(m.name) && IsDoc(m.value)
  {
    Member(CStrings.CString(Means(m.name)), DocValue(m.value))
  }

  /** The members put one after the other. */
  ghost function PutAll(acc: seq<Member>, ms: seq<DocMember>): seq<Member>
    requires forall m :: m in ms ==> ArePieces(m.name) && IsDoc(m.value)
    decreases ms
  {
    if ms == [] then acc else PutAll(Put(acc, MemberValue(ms[0])), ms[1..])
  }

  // ---------------------------------------------------------------- tokens

  function StringText(ps: seq<Piece>): string
    requires ArePieces(ps)
  {
    "\"" + Text(ps) + "\""
  }

  function NumberText(minus: bool, digits: string): string { (if minus then "-" else "") + digits }

  ghost function DocTokens(d: Doc): seq<string>
    requires IsDoc(d)
    decreases d
  {
    match d
    case DocNull => [NULL]
    case DocBool(b) => [if b then TRUE else FALSE]
    case DocNumber(minus, digits) => [NumberText(minus, digits)]
    case DocString(ps) => [StringText(ps)]
    case DocArray(es) => ["["] + if es == [] then ["]"] else ElementsText(es)
    case DocObject(ms, comma) => ["{"] + MembersText(ms, comma)
  }

  /** Up to the closing bracket. */
  ghost function ElementsText(es: seq<Doc>): seq<string>
    requires es != [] && forall e :: e in es ==> IsDoc(e)
  {
    DocTokens(es[0]) + if es[1..] == [] then ["]"] else [","] + ElementsText(es[1..])
  }

  /** Up to the closing brace. */
  ghost function MembersText(ms: seq<DocMember>, comma: bool): seq<string>
    requires forall m :: m in ms ==> ArePieces(m.name) && IsDoc(m.value)
    decreases ms
  {
    if ms == [] then ["}"]
    else
      [StringText(ms[0].name), ":"] + DocTokens(ms[0].value) + Comma(ms[1..] != [] || comma) + MembersText(ms[1..], comma)
  }

  /** One token, and those behind it. */
  lemma ConsumeOne(t: string, ts: seq<string>, s: string, mid: string)
    requires Consume([t], s) == Some(mid)
    ensures Consume([t] + ts, s) == Consume(ts, mid)
  {
    hide Consume;
    ConsumeConcat([t], ts, s);
  }

  lemma ConsumeFirst(t: string, ts: seq<string>, s: string, rest: string) returns (mid: string)
    requires Consume([t] + ts, s) == Some(rest)
    ensures Consume([t], s) == Some(mid) && Consume(ts, mid) == Some(rest)
  {
    hide Consume;
    ConsumeConcat([t], ts, s);
    mid := Consume([t], s).value;
  }

  lemma StringTokenRead(ps: seq<Piece>, s: string, rest: string)
    requires ArePieces(ps) && Consume([StringText(ps)], s) == Some(rest)
    ensures var t := ReadToken(s);
            t == Token(StringToken, StringText(ps), rest) && Decode(Inner(t.text)) == Some(Means(ps))
  {
    hide Text, Means, ArePieces, StringEnd, Decode;
    var u := SkipSpaces(s);
    var q := StringText(ps);
    assert [q][1..] == [] && u == q + rest;
    StringRead(ps, rest);
    assert u[1..] == Text(ps) + "\"" + rest;
    assert u[0] == '"' && u[..|Text(ps)| + 2] == q && Inner(q) == Text(ps);
  }

  lemma NumberTokenRead(minus: bool, digits: string, s: string, rest: string)
    requires IsDoc(DocNumber(minus, digits)) && Consume([NumberText(minus, digits)], s) == Some(rest) && Ends(rest)
    ensures ReadValue(s) == Got(DocValue(DocNumber(minus, digits)), rest)
  {
    hide ReadToken, Consume, Decoded, IsNumberToken, Value, IsDoc, DocValue, NumberText, NumberValue, Ends;
    NumberDecoded(minus, digits);
    NumberRead(NumberText(minus, digits), s, rest);
  }

  lemma NumberDecoded(minus: bool, digits: string)
    requires IsDoc(DocNumber(minus, digits))
    ensures IsNumberToken(NumberText(minus, digits))
    ensures NumberValue(Decoded(NumberText(minus, digits))) == Some(DocValue(DocNumber(minus, digits)))
  {
    hide Value;
    var x := NumberText(minus, digits);
    if minus {
      assert x[1..] == digits;
    } else {
      assert x == digits;
    }
  }

  // ---------------------------------------------------------------- documents are read

  /** Any text with the tokens of a document is read as its value. */
  lemma {:induction false} DocRead(d: Doc, s: string, rest: string)
    requires IsDoc(d) && Consume(DocTokens(d), s) == Some(rest) && (d.DocNumber? ==> Ends(rest))
    ensures ReadValue(s) == Got(DocValue(d), rest)
    decreases d
  {
    hide ReadToken, Consume, Decoded, Decode, Inner, ReadElements, ReadMembers, CStrings.CString, Value, Text, Means, PutAll;
    match d
    case DocNull => WordRead(NULL, s, rest);
    case DocBool(b) => WordRead(if b then TRUE else FALSE, s, rest);
    case DocNumber(minus, digits) => NumberTokenRead(minus, digits, s, rest);
    case DocString(ps) => StringTokenRead(ps, s, rest);
    case DocArray(es) => ArrayRead(d, es, s, rest);
    case DocObject(ms, comma) => ObjectRead(d, ms, comma, s, rest);
  }

  lemma {:induction false} ArrayRead(whole: Doc, es: seq<Doc>, s: string, rest: string)
    requires whole == DocArray(es) && IsDoc(whole) && Consume(DocTokens(whole), s) == Some(rest)
    ensures ReadValue(s) == Got(DocValue(whole), rest)
    decreases whole, |es| + 1
  {
    hide ReadToken, Decoded, Decode, Inner, Consume, ReadElements, SkipSpaces;
    var ts := if es == [] then ["]"] else ElementsText(es);
    assert DocTokens(whole) == ["["] + ts;
    var mid := ConsumeFirst("[", ts, s, rest);
    OneCharRead('[', s, mid);
    if es == [] {
      ClosesAtOnce(mid, rest);
    } else {
      NotClosed(es, mid, rest);
      ElementsRead(whole, es, [], mid, rest);
      assert [] + DocValues(es) == DocValues(es);
    }
  }

  lemma ClosesAtOnce(s: string, rest: string)
    requires Consume(["]"], s) == Some(rest)
    ensures var u := SkipSpaces(s); u != "" && u[0] == ']' && u[1..] == rest
  {
  }

  /** The first token of a document. */
  lemma FirstDocToken(d: Doc)
    requires IsDoc(d)
    ensures DocTokens(d) != [] && DocTokens(d)[0] != "" && DocTokens(d)[0][0] != ']'
  {
    hide Text, ElementsText, MembersText;
  }

  lemma NotClosed(es: seq<Doc>, s: string, rest: string)
    requires es != [] && (forall e :: e in es ==> IsDoc(e)) && Consume(ElementsText(es), s) == Some(rest)
    ensures var u := SkipSpaces(s); u == "" || u[0] != ']'
  {
    assert es[0] in es;
    FirstDocToken(es[0]);
    hide DocTokens, IsDoc;
    assert ElementsText(es)[0] == DocTokens(es[0])[0];
  }

  /** One turn of the loop in readArray. */
  lemma ElementStep(s: string, acc: seq<Json>, v: Json, mid: string)
    requires ReadValue(s) == Got(v, mid)
    ensures var t := ReadToken(mid);
      && (t.kind == ArraySeparator ==> ReadElements(s, acc) == ReadElements(t.rest, acc + [v]))
      && (t.kind == ArrayEnd ==> ReadElements(s, acc) == Got(Arr(acc + [v]), t.rest))
      && (t.kind != ArraySeparator && t.kind != ArrayEnd ==> !ReadElements(s, acc).Got?)
  {
    hide ReadToken, ReadValue;
  }

  lemma EndsHere(c: char, ts: seq<string>, s: string)
    requires OneChar(c).Some? && Consume([[c]] + ts, s).Some?
    ensures Ends(s)
  {
    EndsBefore([c], ts, s);
  }

  lemma {:induction false} ElementsRead(whole: Doc, es: seq<Doc>, acc: seq<Json>, s: string, rest: string)
    requires es != [] && DocsWithin(whole, es) && Consume(ElementsText(es), s) == Some(rest)
    ensures ReadElements(s, acc) == Got(Arr(acc + DocValues(es)), rest)
    decreases whole, |es|
  {
    hide ReadToken, Consume, ReadValue, ReadElements, DocTokens, IsDoc, DocValue, Ends;
    var e, more := es[0], es[1..];
    assert e in es && forall x :: x in more ==> x in es;
    ValuesNext(acc, es);
    var tail := if more == [] then ["]"] else [","] + ElementsText(more);
    ConsumeConcat(DocTokens(e), tail, s);
    var mid := Consume(DocTokens(e), s).value;
    if more == [] {
      assert tail == ["]"] + [];
      EndsHere(']', [], mid);
      DocRead(e, s, mid);
      OneCharRead(']', mid, rest);
      ElementStep(s, acc, DocValue(e), mid);
    } else {
      EndsHere(',', ElementsText(more), mid);
      DocRead(e, s, mid);
      var next := ConsumeFirst(",", ElementsText(more), mid, rest);
      OneCharRead(',', mid, next);
      ElementStep(s, acc, DocValue(e), mid);
      ElementsRead(whole, more, acc + [DocValue(e)], next, rest);
    }
  }

  lemma ValuesNext(acc: seq<Json>, es: seq<Doc>)
    requires es != [] && forall e :: e in es ==> IsDoc(e)
    ensures es[0] in es && forall e :: e in es[1..] ==> e in es
    ensures acc + DocValues(es) == acc + [DocValue(es[0])] + DocValues(es[1..])
    ensures es[1..] == [] ==> acc + DocValues(es) == acc + [DocValue(es[0])]
  {
    hide DocValue, IsDoc;
  }

  ghost predicate DocsWithin(whole: Doc, es: seq<Doc>) { forall e :: e in es ==> e < whole && IsDoc(e) }

  lemma {:induction false} ObjectRead(whole: Doc, ms: seq<DocMember>, comma: bool, s: string, rest: string)
    requires whole == DocObject(ms, comma) && IsDoc(whole) && Consume(DocTokens(whole), s) == Some(rest)
    ensures ReadValue(s) == Got(DocValue(whole), rest)
    decreases whole, |ms| + 1
  {
    hide ReadToken, Decoded, Decode, Inner, Consume, ReadMembers, MembersText, PutAll;
    var mid := ConsumeFirst("{", MembersText(ms, comma), s, rest);
    OneCharRead('{', s, mid);
    MembersRead(whole, ms, comma, "", [], mid, rest);
  }

  /** One turn of the loop in readObject, from a member on. */
  lemma MemberStep(s: string, name: string, acc: seq<Member>, m: DocMember, colon: string, mid: string)
    requires ArePieces(m.name) && IsDoc(m.value)
    requires var t := ReadToken(s);
             t.kind == StringToken && Decode(Inner(t.text)) == Some(Means(m.name))
             && ReadToken(t.rest) == Token(MemberSeparator, ":", colon)
    requires ReadValue(colon) == Got(DocValue(m.value), mid)
    ensures var t := ReadToken(mid);
      && (t.kind == ArraySeparator ==>
            ReadMembers(s, name, acc) == ReadMembers(t.rest, Means(m.name), Put(acc, MemberValue(m))))
      && (t.kind == ObjectEnd ==> ReadMembers(s, name, acc) == Got(Obj(Put(acc, MemberValue(m))), t.rest))
      && (t.kind != ArraySeparator && t.kind != ObjectEnd ==> !ReadMembers(s, name, acc).Got?)
  {
    hide ReadToken, ReadValue, Decode, Inner, CStrings.CString, Put, Means, DocValue;
  }

  /** The closing brace where a name might be. */
  lemma MembersEnd(s: string, acc: seq<Member>, rest: string)
    requires ReadToken(s) == Token(ObjectEnd, "}", rest)
    ensures ReadMembers(s, "", acc) == Got(Obj(acc), rest)
  {
    hide ReadToken, ReadValue, Decode;
  }

  lemma NameRead(m: DocMember, ts: seq<string>, s: string, rest: string) returns (colon: string)
    requires ArePieces(m.name) && Consume([StringText(m.name), ":"] + ts, s) == Some(rest)
    ensures Consume(ts, colon) == Some(rest)
    ensures var t := ReadToken(s);
            t.kind == StringToken && Decode(Inner(t.text)) == Some(Means(m.name))
            && ReadToken(t.rest) == Token(MemberSeparator, ":", colon)
  {
    hide ReadToken, Consume, Decode, Inner, Text, Means, StringText;
    var q := StringText(m.name);
    assert [q, ":"] + ts == [q] + ([":"] + ts);
    var after := ConsumeFirst(q, [":"] + ts, s, rest);
    StringTokenRead(m.name, s, after);
    colon := ConsumeFirst(":", ts, after, rest);
    OneCharRead(':', after, colon);
  }

  ghost predicate MembersWithin(whole: Doc, ms: seq<DocMember>) { forall m :: m in ms ==> m.value < whole && ArePieces(m.name) && IsDoc(m.value) }

  /** A name, a colon, where the value starts and ends, and what the token behind it is. */
  lemma MemberStarts(ms: seq<DocMember>, comma: bool, s: string, rest: string)
    returns (colon: string, mid: string, next: string)
    requires ms != [] && AreMembers(ms) && Consume(MembersText(ms, comma), s) == Some(rest)
    ensures Consume(DocTokens(ms[0].value), colon) == Some(mid) && Ends(mid)
    ensures var t := ReadToken(s);
            t.kind == StringToken && Decode(Inner(t.text)) == Some(Means(ms[0].name))
            && ReadToken(t.rest) == Token(MemberSeparator, ":", colon)
    ensures if ms[1..] == [] && !comma then ReadToken(mid) == Token(ObjectEnd, "}", rest)
            else ReadToken(mid) == Token(ArraySeparator, ",", next) && Consume(MembersText(ms[1..], comma), next) == Some(rest)
  {
    hide ReadToken, Consume, DocTokens, IsDoc, Ends, Decode, Inner, Means, StringText, ArePieces;
    var m, more := ms[0], ms[1..];
    assert m in ms && forall x :: x in more ==> x in ms;
    var tail := Comma(more != [] || comma) + MembersText(more, comma);
    assert MembersText(ms, comma) == [StringText(m.name), ":"] + (DocTokens(m.value) + tail);
    colon := NameRead(m, DocTokens(m.value) + tail, s, rest);
    ConsumeConcat(DocTokens(m.value), tail, colon);
    mid := Consume(DocTokens(m.value), colon).value;
    next := "";
    if more == [] && !comma {
      assert tail == ["}"] && tail == ["}"] + [];
      EndsHere('}', [], mid);
      OneCharRead('}', mid, rest);
    } else {
      EndsHere(',', MembersText(more, comma), mid);
      next := ConsumeFirst(",", MembersText(more, comma), mid, rest);
      OneCharRead(',', mid, next);
    }
  }

  lemma PutNext(acc: seq<Member>, ms: seq<DocMember>)
    requires ms != [] && AreMembers(ms)
    ensures ms[0] in ms && AreMembers(ms[1..])
    ensures PutAll(acc, ms) == PutAll(Put(acc, MemberValue(ms[0])), ms[1..])
    ensures ms[1..] == [] ==> PutAll(acc, ms) == Put(acc, MemberValue(ms[0]))
  {
    hide Put, MemberValue, IsDoc;
  }

  lemma {:induction false} MembersRead(whole: Doc, ms: seq<DocMember>, comma: bool, name: string, acc: seq<Member>, s: string,
                                       rest: string)
    requires MembersWithin(whole, ms) && CommaFits(ms, comma) && (ms == [] ==> name == "")
    requires Consume(MembersText(ms, comma), s) == Some(rest)
    ensures ReadMembers(s, name, acc) == Got(Obj(PutAll(acc, ms)), rest)
    decreases whole, |ms|
  {
    hide ReadToken, Consume, ReadValue, ReadMembers, DocTokens, IsDoc, DocValue, Ends, Put, MemberValue, Decode, Inner, Means,
         StringText, ArePieces, MembersText, PutAll;
    if ms == [] {
      NoMembers(comma, acc);
      OneCharRead('}', s, rest);
      MembersEnd(s, acc, rest);
    } else {
      var m, more := ms[0], ms[1..];
      PutNext(acc, ms);
      var colon, mid, next := MemberStarts(ms, comma, s, rest);
      DocRead(m.value, colon, mid);
      MemberStep(s, name, acc, m, colon, mid);
      if more != [] || comma {
        assert more != [] ==> more[|more| - 1] == ms[|ms| - 1];
        MembersRead(whole, more, comma, Means(m.name), Put(acc, MemberValue(m)), next, rest);
      }
    }
  }

  lemma NoMembers(comma: bool, acc: seq<Member>)
    ensures MembersText([], comma) == ["}"] && PutAll(acc, []) == acc
  {
  }

  // ---------------------------------------------------------------- nothing else is read

  /** A token that is told apart stands where it is found. */
  lemma TokenStands(s: string)
    ensures var t := ReadToken(s);
      t.kind != EndOfStream && t.kind != ErrorToken ==> t.text != "" && Consume([t.text], s) == Some(t.rest)
  {
    hide StringEnd, NumberLength;
    var t, u := ReadToken(s), SkipSpaces(s);
    if t.kind != EndOfStream && t.kind != ErrorToken {
      assert t.text <= u && t.rest == u[|t.text|..];
      assert [t.text][1..] == [];
    }
  }

  /** The text of a token, from its kind. */
  lemma TokenText(s: string)
    ensures var t := ReadToken(s);
      && (t.kind == ObjectBegin ==> t.text == "{") && (t.kind == ObjectEnd ==> t.text == "}")
      && (t.kind == ArrayBegin ==> t.text == "[") && (t.kind == ArrayEnd ==> t.text == "]")
      && (t.kind == ArraySeparator ==> t.text == ",") && (t.kind == MemberSeparator ==> t.text == ":")
      && (t.kind == TrueToken ==> t.text == TRUE) && (t.kind == FalseToken ==> t.text == FALSE)
      && (t.kind == NullToken ==> t.text == NULL)
      && (t.kind == NumberToken ==> Ends(t.rest))
  {
    hide StringEnd;
    var u := SkipSpaces(s);
    if u != "" && (IsDigit(u[0]) || u[0] == '-') {
      var n := NumberLength(u[1..]);
      assert u[1 + n..] == u[1..][n..];
    }
  }

  /** The pieces of a string token. */
  lemma StringTokenIs(s: string) returns (ps: seq<Piece>)
    requires ReadToken(s).kind == StringToken && Decode(Inner(ReadToken(s).text)).Some?
    ensures ArePieces(ps) && ReadToken(s).text == StringText(ps) && Decode(Inner(ReadToken(s).text)) == Some(Means(ps))
  {
    hide StringEnd, Decode, Text, Means, NumberLength;
    var t, u := ReadToken(s), SkipSpaces(s);
    var n := StringEnd(u[1..]).value;
    assert Inner(t.text) == u[1..][..n];
    var m := Decode(u[1..][..n]).value;
    StringExactly(u[1..], n, m);
    ps :| ArePieces(ps) && Text(ps) == u[1..][..n] && Means(ps) == m;
    assert t.text == "\"" + u[1..][..n] + "\"";
  }

  /** The document of a number token. */
  lemma NumberIs(t: string) returns (d: Doc)
    requires IsNumberToken(t) && NumberValue(Decoded(t)).Some?
    ensures d.DocNumber? && IsDoc(d) && NumberText(d.minus, d.digits) == t && NumberValue(Decoded(t)) == Some(DocValue(d))
  {
    hide Value;
    var minus := t[0] == '-';
    d := DocNumber(minus, if minus then t[1..] else t);
    assert t == NumberText(d.minus, d.digits);
  }

  /** Whatever is read has been written as a document. */
  lemma {:induction false} DocIs(s: string, v: Json, rest: string) returns (d: Doc)
    requires ReadValue(s) == Got(v, rest)
    ensures IsDoc(d) && DocValue(d) == v && Consume(DocTokens(d), s) == Some(rest) && (d.DocNumber? ==> Ends(rest))
    decreases |s|, 2
  {
    var t := ReadToken(s);
    TokenStands(s);
    TokenText(s);
    hide ReadToken, Consume, Decoded, Decode, Inner, ReadElements, ReadMembers, CStrings.CString, Text, Means, Value, PutAll,
         SkipSpaces, IsNumberToken;
    if t.kind == ObjectBegin {
      var ms, comma := MembersAre(t.rest, "", [], v, rest);
      d := DocObject(ms, comma);
      ConsumeOne("{", MembersText(ms, comma), s, t.rest);
    } else if t.kind == ArrayBegin {
      d := ArrayIs(s, v, rest);
    } else if t.kind == NumberToken {
      d := NumberIs(t.text);
    } else if t.kind == StringToken {
      var ps := StringTokenIs(s);
      d := DocString(ps);
    } else if t.kind == NullToken {
      d := DocNull;
    } else {
      d := DocBool(t.kind == TrueToken);
    }
  }

  lemma {:induction false} ArrayIs(s: string, v: Json, rest: string) returns (d: Doc)
    requires ReadValue(s) == Got(v, rest) && ReadToken(s).kind == ArrayBegin
    ensures d.DocArray? && IsDoc(d) && DocValue(d) == v && Consume(DocTokens(d), s) == Some(rest)
    decreases |s|, 1
  {
    var t := ReadToken(s);
    TokenStands(s);
    TokenText(s);
    hide ReadToken, Decode, Inner, Decoded, ReadElements, Consume, SkipSpaces;
    var u := SkipSpaces(t.rest);
    if u != "" && u[0] == ']' {
      d := DocArray([]);
      ClosedAtOnce(t.rest);
      ConsumeOne("[", ["]"], s, t.rest);
    } else {
      var es := ElementsAre(t.rest, [], v, rest);
      d := DocArray(es);
      assert [] + DocValues(es) == DocValues(es);
      ConsumeOne("[", ElementsText(es), s, t.rest);
    }
  }

  lemma ClosedAtOnce(s: string)
    requires var u := SkipSpaces(s); u != "" && u[0] == ']'
    ensures Consume(["]"], s) == Some(SkipSpaces(s)[1..])
  {
    assert ["]"][1..] == [];
  }

  /** The rest of what is read once a value and a comma have been. */
  lemma ElementsGo(s: string, acc: seq<Json>) returns (v: Json, mid: string)
    requires ReadElements(s, acc).Got?
    ensures ReadValue(s) == Got(v, mid)
  {
    hide ReadToken, ReadValue;
    v, mid := ReadValue(s).value, ReadValue(s).rest;
  }

  lemma {:induction false} ElementsAre(s: string, acc: seq<Json>, v: Json, rest: string) returns (es: seq<Doc>)
    requires ReadElements(s, acc) == Got(v, rest)
    ensures es != [] && (forall e :: e in es ==> IsDoc(e)) && v == Arr(acc + DocValues(es))
    ensures Consume(ElementsText(es), s) == Some(rest)
    decreases |s|, 3
  {
    hide ReadToken, Consume, ReadValue, ReadElements, DocTokens, IsDoc, DocValue;
    var x, mid := ElementsGo(s, acc);
    var d := DocIs(s, x, mid);
    ElementStep(s, acc, x, mid);
    var t := ReadToken(mid);
    TokenStands(mid);
    TokenText(mid);
    if t.kind == ArrayEnd {
      es := [d];
      ValuesNext(acc, es);
      ConsumeConcat(DocTokens(d), ["]"], s);
      assert es[1..] == [];
    } else {
      var more := ElementsAre(t.rest, acc + [x], v, rest);
      es := [d] + more;
      assert es[1..] == more && forall e :: e in es ==> e == d || e in more;
      ValuesNext(acc, es);
      ConsumeOne(",", ElementsText(more), mid, t.rest);
      ConsumeConcat(DocTokens(d), [","] + ElementsText(more), s);
    }
  }

  /** What has to come first for members to be read. */
  lemma MembersGo(s: string, name: string, acc: seq<Member>) returns (mid: string, ps: seq<Piece>, x: Json)
    requires ReadMembers(s, name, acc).Got?
    ensures var t := ReadToken(s); (t.kind == ObjectEnd && name == "") || t.kind == StringToken
    ensures var t := ReadToken(s); !(t.kind == ObjectEnd && name == "") ==>
      && ArePieces(ps) && t.text == StringText(ps) && Decode(Inner(t.text)) == Some(Means(ps))
      && ReadToken(t.rest).kind == MemberSeparator && ReadValue(ReadToken(t.rest).rest) == Got(x, mid)
  {
    hide ReadToken, ReadValue, Decode, Inner, Means, Text, StringText;
    mid, ps, x := "", [], Null;
    var t := ReadToken(s);
    if !(t.kind == ObjectEnd && name == "") {
      ps := StringTokenIs(s);
      var r := ReadValue(ReadToken(t.rest).rest);
      mid, x := r.rest, r.value;
    }
  }

  lemma {:induction false} MembersAre(s: string, name: string, acc: seq<Member>, v: Json, rest: string)
    returns (ms: seq<DocMember>, comma: bool)
    requires ReadMembers(s, name, acc) == Got(v, rest)
    ensures AreMembers(ms) && CommaFits(ms, comma) && (ms == [] ==> name == "" && !comma)
    ensures v == Obj(PutAll(acc, ms)) && Consume(MembersText(ms, comma), s) == Some(rest)
    decreases |s|, 3
  {
    hide ReadToken, Consume, ReadValue, ReadMembers, DocTokens, IsDoc, DocValue, Put, MemberValue, Decode, Inner, Means,
         StringText, ArePieces, MembersText, PutAll;
    var t := ReadToken(s);
    TokenStands(s);
    TokenText(s);
    var mid, ps, x := MembersGo(s, name, acc);
    if t.kind == ObjectEnd && name == "" {
      ms, comma := [], false;
      NoMembers(comma, acc);
      MembersEnd(s, acc, t.rest);
    } else {
      var colon := ReadToken(t.rest);
      TokenStands(t.rest);
      TokenText(t.rest);
      var d := DocIs(colon.rest, x, mid);
      var m := DocMember(ps, d);
      MemberStep(s, name, acc, m, colon.rest, mid);
      var next := ReadToken(mid);
      TokenStands(mid);
      TokenText(mid);
      if next.kind == ObjectEnd {
        ms, comma := [m], false;
        NoMembers(comma, acc);
        assert Comma(false) + ["}"] == ["}"] && ms[1..] == [];
      } else {
        var more, c := MembersAre(next.rest, Means(ps), Put(acc, MemberValue(m)), v, rest);
        ms, comma := [m] + more, c || more == [];
        if more == [] { NoMembers(true, acc); NoMembers(false, acc); }
        ConsumeOne(",", MembersText(more, comma), mid, next.rest);
        assert ms[1..] == more && (more != [] ==> comma == c);
        assert more != [] ==> ms[|ms| - 1] == more[|more| - 1];
      }
      assert ms[0] == m && forall y :: y in ms ==> y == m || y in ms[1..];
      PutNext(acc, ms);
      MembersConsumed(ms, comma, s, t.rest, colon.rest, mid, rest);
    }
  }

  lemma MembersConsumed(ms: seq<DocMember>, comma: bool, s: string, name: string, colon: string, mid: string, rest: string)
    requires ms != [] && AreMembers(ms) && AreMembers(ms[1..]) && ArePieces(ms[0].name) && IsDoc(ms[0].value)
    requires Consume([StringText(ms[0].name)], s) == Some(name) && Consume([":"], name) == Some(colon)
    requires Consume(DocTokens(ms[0].value), colon) == Some(mid)
    requires Consume(Comma(ms[1..] != [] || comma) + MembersText(ms[1..], comma), mid) == Some(rest)
    ensures Consume(MembersText(ms, comma), s) == Some(rest)
  {
    hide Consume, DocTokens, IsDoc, StringText, ArePieces;
    var m := ms[0];
    var tail := Comma(ms[1..] != [] || comma) + MembersText(ms[1..], comma);
    var values := DocTokens(m.value) + tail;
    ConsumeConcat(DocTokens(m.value), tail, colon);
    ConsumeOne(":", values, name, colon);
    ConsumeOne(StringText(m.name), [":"] + values, s, name);
    assert MembersText(ms, comma) == [StringText(m.name)] + ([":"] + values);
  }

  // ---------------------------------------------------------------- blanks

  /** Section 2 of RFC 8259. */
  predicate IsWsChar(c: char) { c as int == 0x20 || c as int == 0x09 || c as int == 0x0A || c as int == 0x0D }

  predicate IsWs(w: string) { forall c :: c in w ==> IsWsChar(c) }

  predicate AreWs(ws: seq<string>) { forall w :: w in ws ==> IsWs(w) }

  /** Tokens, with blanks before each of them. */
  function Lay(ws: seq<string>, ts: seq<string>): string
    requires |ws| == |ts|
  {
    if ts == [] then "" else ws[0] + ts[0] + Lay(ws[1..], ts[1..])
  }

  predicate StartsSolid(t: string) { t != "" && !IsWsChar(t[0]) }

  lemma BlanksAreWs(c: char)
    ensures IsBlank(c) <==> IsWsChar(c)
  {
  }

  ghost predicate AreSolid(ts: seq<string>) { forall t :: t in ts ==> StartsSolid(t) }

  lemma {:induction false} Skipped(s: string) returns (w: string)
    ensures IsWs(w) && s == w + SkipSpaces(s)
    decreases |s|
  {
    hide IsWsChar;
    if s != "" && IsBlank(s[0]) {
      hide IsBlank;
      var more := Skipped(s[1..]);
      w := [s[0]] + more;
      BlanksAreWs(s[0]);
      assert s == [s[0]] + s[1..];
      assert forall c :: c in w ==> c == s[0] || c in more;
    } else {
      w := "";
    }
  }

  lemma {:induction false} LaidOut(ts: seq<string>, s: string, rest: string) returns (ws: seq<string>)
    requires Consume(ts, s) == Some(rest)
    ensures |ws| == |ts| && AreWs(ws) && s == Lay(ws, ts) + rest
    decreases |ts|
  {
    hide IsWs, SkipSpaces;
    if ts == [] {
      ws := [];
    } else {
      var w := Skipped(s);
      var u := SkipSpaces(s);
      var more := LaidOut(ts[1..], u[|ts[0]|..], rest);
      ws := [w] + more;
      assert ws[1..] == more && u == ts[0] + u[|ts[0]|..];
      assert Lay(ws, ts) == w + ts[0] + Lay(more, ts[1..]);
    }
  }

  lemma {:induction false} LayoutRead(ws: seq<string>, ts: seq<string>, rest: string)
    requires |ws| == |ts| && AreWs(ws) && AreSolid(ts)
    ensures Consume(ts, Lay(ws, ts) + rest) == Some(rest)
    decreases |ts|
  {
    hide Consume, IsWs, StartsSolid, AreWs, AreSolid;
    if ts == [] {
      assert "" + rest == rest;
      NothingConsumed(rest);
    } else {
      var more := Lay(ws[1..], ts[1..]) + rest;
      Rest(ws, ts);
      LayoutRead(ws[1..], ts[1..], rest);
      hide Lay;
      TokenConsumed(ws[0], ts[0], ts[1..], more);
      assert Lay(ws, ts) + rest == ws[0] + (ts[0] + more) by { LayFirst(ws, ts); }
      assert [ts[0]] + ts[1..] == ts;
    }
  }

  lemma NothingConsumed(s: string)
    ensures Consume([], s) == Some(s)
  {
  }

  lemma LayFirst(ws: seq<string>, ts: seq<string>)
    requires |ws| == |ts| && ts != []
    ensures Lay(ws, ts) == ws[0] + ts[0] + Lay(ws[1..], ts[1..])
  {
  }

  lemma Rest(ws: seq<string>, ts: seq<string>)
    requires AreWs(ws) && AreSolid(ts) && ws != [] && ts != []
    ensures IsWs(ws[0]) && AreWs(ws[1..]) && StartsSolid(ts[0]) && AreSolid(ts[1..])
  {
    hide IsWs, StartsSolid;
    assert ws[0] in ws && ts[0] in ts;
    forall w | w in ws[1..] ensures w in ws {}
    forall t | t in ts[1..] ensures t in ts {}
  }

  lemma TokenConsumed(w: string, t: string, ts: seq<string>, more: string)
    requires IsWs(w) && StartsSolid(t)
    ensures Consume([t] + ts, w + (t + more)) == Consume(ts, more)
  {
    hide IsWs, StartsSolid, SkipSpaces;
    BlanksSkipped(w, t, more);
    assert ([t] + ts)[1..] == ts && (t + more)[|t|..] == more;
  }

  lemma BlanksSkipped(w: string, t: string, more: string)
    requires IsWs(w) && StartsSolid(t)
    ensures SkipSpaces(w + (t + more)) == t + more
  {
    hide SkipSpaces, IsWsChar, IsBlank, StartsSolid;
    forall c { BlanksAreWs(c); }
    SkipBlanks(w, t + more);
    SolidStays(t, more);
  }

  lemma SolidStays(t: string, more: string)
    requires StartsSolid(t)
    ensures SkipSpaces(t + more) == t + more
  {
    assert (t + more)[0] == t[0];
  }

  lemma SolidConcat(ts: seq<string>, us: seq<string>)
    requires AreSolid(ts) && AreSolid(us)
    ensures AreSolid(ts + us)
  {
  }

  lemma SolidMarks()
    ensures AreSolid(["["]) && AreSolid(["]"]) && AreSolid(["{"]) && AreSolid(["}"]) && AreSolid([","]) && AreSolid([])
    ensures AreSolid([TRUE]) && AreSolid([FALSE]) && AreSolid([NULL])
  {
  }

  lemma {:induction false} DocIsSolid(d: Doc)
    requires IsDoc(d)
    ensures AreSolid(DocTokens(d))
    decreases d
  {
    hide AreSolid, StartsSolid, Text, Value;
    SolidMarks();
    match d
    case DocNull =>
    case DocBool(b) =>
    case DocNumber(minus, digits) => SolidNumber(minus, digits);
    case DocString(ps) => SolidString(ps);
    case DocArray(es) =>
      if es == [] {
        SolidConcat(["["], ["]"]);
      } else {
        ElementsAreSolid(d, es);
        SolidConcat(["["], ElementsText(es));
      }
    case DocObject(ms, comma) =>
      MembersAreSolid(d, ms, comma);
      SolidConcat(["{"], MembersText(ms, comma));
  }

  lemma SolidNumber(minus: bool, digits: string)
    requires IsDoc(DocNumber(minus, digits))
    ensures AreSolid([NumberText(minus, digits)])
  {
  }

  lemma SolidString(ps: seq<Piece>)
    requires ArePieces(ps)
    ensures AreSolid([StringText(ps)]) && AreSolid([StringText(ps), ":"])
  {
  }

  lemma {:induction false} ElementsAreSolid(whole: Doc, es: seq<Doc>)
    requires es != [] && DocsWithin(whole, es)
    ensures AreSolid(ElementsText(es))
    decreases whole, |es|
  {
    hide AreSolid, DocTokens, IsDoc;
    SolidMarks();
    var e, more := es[0], es[1..];
    assert e in es && forall x :: x in more ==> x in es;
    DocIsSolid(e);
    if more == [] {
      SolidConcat(DocTokens(e), ["]"]);
    } else {
      ElementsAreSolid(whole, more);
      SolidConcat([","], ElementsText(more));
      SolidConcat(DocTokens(e), [","] + ElementsText(more));
    }
  }

  lemma {:induction false} MembersAreSolid(whole: Doc, ms: seq<DocMember>, comma: bool)
    requires MembersWithin(whole, ms)
    ensures AreSolid(MembersText(ms, comma))
    decreases whole, |ms|
  {
    hide AreSolid, DocTokens, IsDoc, StringText, ArePieces;
    SolidMarks();
    if ms != [] {
      var m, more := ms[0], ms[1..];
      assert m in ms && forall x :: x in more ==> x in ms;
      SolidString(m.name);
      DocIsSolid(m.value);
      MembersAreSolid(whole, more, comma);
      var mark := Comma(more != [] || comma);
      SolidConcat([StringText(m.name), ":"], DocTokens(m.value));
      SolidConcat([StringText(m.name), ":"] + DocTokens(m.value), mark);
      SolidConcat([StringText(m.name), ":"] + DocTokens(m.value) + mark, MembersText(more, comma));
    }
  }

  // ---------------------------------------------------------------- exactly the documents

  /** The text `s` is the document with blanks between its tokens, and more behind it. */
  ghost predicate Writes(d: Doc, s: string, rest: string)
    requires IsDoc(d)
  {
    && (exists ws :: |ws| == |DocTokens(d)| && AreWs(ws) && s == Lay(ws, DocTokens(d)) + rest)
    && (d.DocNumber? && rest != "" ==> rest[0] !in "0123456789.eE+-")
  }

  lemma WritesIsConsume(d: Doc, s: string, rest: string)
    requires IsDoc(d)
    ensures Writes(d, s, rest) <==> Consume(DocTokens(d), s) == Some(rest) && (d.DocNumber? ==> Ends(rest))
  {
    DocIsSolid(d);
    hide Consume, Lay, AreWs, AreSolid, DocTokens, IsDoc;
    var ts := DocTokens(d);
    if Consume(ts, s) == Some(rest) {
      var ws := LaidOut(ts, s, rest);
    }
    forall ws | |ws| == |ts| && AreWs(ws) && s == Lay(ws, ts) + rest
      ensures Consume(ts, s) == Some(rest)
    {
      LayoutRead(ws, ts, rest);
    }
  }

  /** A text is accepted, and read as `v`, exactly if it starts with a document of that value. */
  lemma DocumentExactly(s: string, v: Json)
    ensures Parse(s) == Some(v) <==> exists d, rest :: IsDoc(d) && DocValue(d) == v && Writes(d, s, rest)
  {
    hide ReadValue, IsDoc, DocValue, Writes, DocTokens;
    if Parse(s) == Some(v) {
      var rest := ReadValue(s).rest;
      var d := DocIs(s, v, rest);
      WritesIsConsume(d, s, rest);
    }
    forall d, rest | IsDoc(d) && DocValue(d) == v && Writes(d, s, rest)
      ensures Parse(s) == Some(v)
    {
      WritesIsConsume(d, s, rest);
      DocRead(d, s, rest);
    }
  }

  // ---------------------------------------------------------------- members

  /** The members of a value are sorted by name, and of those written with one name the last one counts. */
  lemma {:induction false} LastCounts(acc: seq<Member>, ms: seq<DocMember>)
    requires Sorted(acc) && AreMembers(ms)
    ensures Sorted(PutAll(acc, ms))
    ensures forall x :: x in PutAll(acc, ms) <==>
      || (exists i :: 0 <= i < |ms| && x == MemberValue(ms[i]) && NotAfter(ms, i + 1, x.name))
      || (x in acc && NotAfter(ms, 0, x.name))
    decreases |ms|
  {
    hide Sorted, Put, MemberValue, IsDoc, PutAll;
    if ms == [] {
      NoMembers(false, acc);
    } else {
      var m, more := MemberValue(ms[0]), ms[1..];
      PutNext(acc, ms);
      PutSorted(acc, m);
      LastCounts(Put(acc, m), more);
      forall x {
        Shifted(ms, x);
      }
    }
  }

  /** No member from `i` on has the name. */
  ghost predicate NotAfter(ms: seq<DocMember>, i: nat, name: string)
    requires AreMembers(ms)
  {
    forall j :: i <= j < |ms| ==> MemberValue(ms[j]).name != name
  }

  lemma Shifted(ms: seq<DocMember>, x: Member)
    requires ms != [] && AreMembers(ms) && AreMembers(ms[1..])
    ensures (exists i :: 0 <= i < |ms| && x == MemberValue(ms[i]) && NotAfter(ms, i + 1, x.name)) <==>
      || (exists i :: 0 <= i < |ms| - 1 && x == MemberValue(ms[1..][i]) && NotAfter(ms[1..], i + 1, x.name))
      || (x == MemberValue(ms[0]) && NotAfter(ms[1..], 0, x.name))
    ensures NotAfter(ms, 0, x.name) <==> MemberValue(ms[0]).name != x.name && NotAfter(ms[1..], 0, x.name)
  {
    hide MemberValue;
    var more := ms[1..];
    forall i: nat | i <= |more|
      ensures NotAfter(ms, i + 1, x.name) <==> NotAfter(more, i, x.name)
    {
      assert forall j :: i <= j < |more| ==> more[j] == ms[j + 1];
      assert forall j :: i + 1 <= j < |ms| ==> ms[j] == more[j - 1];
    }
    forall i | 0 <= i < |ms| && x == MemberValue(ms[i]) && NotAfter(ms, i + 1, x.name)
      ensures (exists k :: 0 <= k < |ms| - 1 && x == MemberValue(more[k]) && NotAfter(more, k + 1, x.name))
              || (x == MemberValue(ms[0]) && NotAfter(more, 0, x.name))
    {
      if i > 0 { assert more[i - 1] == ms[i]; }
    }
    forall k | 0 <= k < |ms| - 1 && x == MemberValue(more[k]) && NotAfter(more, k + 1, x.name)
      ensures exists i :: 0 <= i < |ms| && x == MemberValue(ms[i]) && NotAfter(ms, i + 1, x.name)
    {
      assert ms[k + 1] == more[k];
    }
  }

  // ---------------------------------------------------------------- what the writers write

  /** The document that the writers make of a value. */
  ghost function DocOf(v: Json): Doc
    decreases v
  {
    match v
    case Null => DocNull
    case Bool(b) => DocBool(b)
    case Int(n) => NumberOf(n)
    case UInt(n) => NumberOf(n)
    case Str(s) => DocString(PiecesOf(CStrings.CString(s)))
    case Arr(es) => DocArray(DocsOf(es))
    case Obj(ms) => DocObject(MembersOf(ms), false)
  }

  function NumberOf(n: int): Doc { if n < 0 then DocNumber(true, Dec(-n)) else DocNumber(false, Dec(n)) }

  ghost function DocsOf(es: seq<Json>): (ds: seq<Doc>)
    ensures |ds| == |es|
  {
    if es == [] then [] else [DocOf(es[0])] + DocsOf(es[1..])
  }

  ghost function MembersOf(ms: seq<Member>): (ds: seq<DocMember>)
    ensures |ds| == |ms|
  {
    if ms == [] then [] else [DocMember(PiecesOf(ms[0].name), DocOf(ms[0].value))] + MembersOf(ms[1..])
  }

  /** It has the tokens of the value, and its value is the normal form. */
  ghost predicate Fits(v: Json) {
    IsDoc(DocOf(v)) && DocTokens(DocOf(v)) == Tokens(v) && DocValue(DocOf(v)) == Normal(v)
  }

  lemma {:induction false} DocOfFits(v: Json)
    requires Writable(v)
    ensures Fits(v)
    decreases v
  {
    hide Show, Dec, Value, Text, Means, Escapes, PiecesOf, CStrings.CString, Less;
    match v
    case Int(n) => NumberOfFits(n);
    case UInt(n) => NumberOfFits(n);
    case Str(s) =>
      PiecesOfFit(CStrings.CString(s));
      CStrings.WholeCString(CStrings.CString(s));
    case Arr(es) =>
      DocsOfFit(v, es);
      ArrayFits(es);
    case Obj(ms) =>
      MembersOfFit(v, ms, []);
      ObjectFits(ms);
    case _ =>
  }

  lemma ArrayFits(es: seq<Json>)
    requires (forall d :: d in DocsOf(es) ==> IsDoc(d)) && DocValues(DocsOf(es)) == NormalAll(es)
    requires es != [] ==> ElementsText(DocsOf(es)) == ElementTokens(es) + ["]"]
    ensures Fits(Arr(es))
  {
    hide DocsOf, DocValues, NormalAll, ElementsText;
    assert ["["] + ElementTokens(es) + ["]"] == ["["] + (ElementTokens(es) + ["]"]);
    if es == [] { assert [] + ["]"] == ["]"]; }
  }

  lemma ObjectFits(ms: seq<Member>)
    requires AreMembers(MembersOf(ms)) && PutAll([], MembersOf(ms)) == [] + NormalMembers(ms)
    requires MembersText(MembersOf(ms), false) == MemberTokens(ms) + ["}"]
    ensures Fits(Obj(ms))
  {
    hide MembersOf, PutAll, NormalMembers, MembersText, MemberTokens, Means;
    assert [] + NormalMembers(ms) == NormalMembers(ms);
    assert ["{"] + MemberTokens(ms) + ["}"] == ["{"] + (MemberTokens(ms) + ["}"]);
  }

  lemma NumberOfFits(n: int)
    requires LLONG_MIN <= n <= ULLONG_MAX
    ensures IsDoc(NumberOf(n)) && DocTokens(NumberOf(n)) == [Show(n)] && DocValue(NumberOf(n)) == Retyped(n)
  {
    hide Dec, Value;
    ValueOfDec(if n < 0 then -n else n);
    if n >= 0 { assert "" + Dec(n) == Dec(n); }
  }

  lemma {:induction false} DocsOfFit(whole: Json, es: seq<Json>)
    requires AllWithin(whole, es)
    ensures forall d :: d in DocsOf(es) ==> IsDoc(d)
    ensures DocValues(DocsOf(es)) == NormalAll(es)
    ensures es != [] ==> ElementsText(DocsOf(es)) == ElementTokens(es) + ["]"]
    decreases whole, |es|
  {
    hide DocOf, IsDoc, DocTokens, Tokens, DocValue, Normal, Writable, ElementsText, DocValues;
    if es == [] {
      NoValues();
    } else {
      var e, more := es[0], es[1..];
      assert e in es && forall x :: x in more ==> x in es;
      DocOfFits(e);
      DocsOfFit(whole, more);
      ElementsOn(DocOf(e), DocsOf(more));
      assert DocsOf(es) == [DocOf(e)] + DocsOf(more) && NormalAll(es) == [Normal(e)] + NormalAll(more);
      ElementTokensNext(es);
    }
  }

  lemma NoValues()
    ensures DocValues([]) == []
  {
  }

  lemma ElementsOn(d: Doc, ds: seq<Doc>)
    requires IsDoc(d) && forall x :: x in ds ==> IsDoc(x)
    ensures forall x :: x in [d] + ds ==> IsDoc(x)
    ensures DocValues([d] + ds) == [DocValue(d)] + DocValues(ds)
    ensures ElementsText([d] + ds) == DocTokens(d) + if ds == [] then ["]"] else [","] + ElementsText(ds)
  {
    hide IsDoc, DocTokens, DocValue;
    assert ([d] + ds)[1..] == ds;
  }

  lemma ElementTokensNext(es: seq<Json>)
    requires es != []
    ensures ElementTokens(es) + ["]"] ==
      Tokens(es[0]) + if es[1..] == [] then ["]"] else [","] + (ElementTokens(es[1..]) + ["]"])
  {
    hide Tokens, ElementTokens;
    ElementTokensFirst(es);
    var ts := Tokens(es[0]);
    if es[1..] == [] {
      assert ts + [] + [] == ts;
    } else {
      assert ts + [","] + ElementTokens(es[1..]) + ["]"] == ts + ([","] + (ElementTokens(es[1..]) + ["]"]));
    }
  }

  lemma ElementTokensFirst(es: seq<Json>)
    requires es != []
    ensures ElementTokens(es) == Tokens(es[0]) + Comma(es[1..] != []) + ElementTokens(es[1..]) && ElementTokens([]) == []
  {
    hide Tokens;
  }

  ghost predicate Before(acc: seq<Member>, ms: seq<Member>) {
    forall m, x :: m in ms && x in acc ==> Less(x.name, m.name)
  }

  lemma {:induction false} MembersOfFit(whole: Json, ms: seq<Member>, acc: seq<Member>)
    requires Within(whole, ms) && Sorted(ms) && Before(acc, ms)
    ensures AreMembers(MembersOf(ms)) && PutAll(acc, MembersOf(ms)) == acc + NormalMembers(ms)
    ensures MembersText(MembersOf(ms), false) == MemberTokens(ms) + ["}"]
    decreases whole, |ms|
  {
    hide DocOf, IsDoc, DocTokens, Tokens, DocValue, Normal, Writable, Less, Put, Text, Means, Escapes, PiecesOf,
         CStrings.CString, Sorted, Before, MembersText, PutAll;
    if ms == [] {
      NoMembers(false, acc);
      assert acc + [] == acc && [] + ["}"] == ["}"];
    } else {
      var m, more := ms[0], ms[1..];
      assert m in ms && forall x :: x in more ==> x in ms;
      DocOfFits(m.value);
      PiecesOfFit(m.name);
      CStrings.WholeCString(m.name);
      var n := Member(m.name, Normal(m.value));
      var d := DocMember(PiecesOf(m.name), DocOf(m.value));
      assert MemberValue(d) == n;
      PutBehind(acc, ms, n);
      MoreInOrder(ms, acc, n);
      MembersOfFit(whole, more, acc + [n]);
      PutsOn(acc, d, MembersOf(more), NormalMembers(more));
      TextOn(d, MembersOf(more));
      assert MembersOf(ms) == [d] + MembersOf(more) && NormalMembers(ms) == [n] + NormalMembers(more);
      MemberTokensNext(ms);
      assert StringText(d.name) == Quoted(m.name);
    }
  }

  lemma MemberTokensNext(ms: seq<Member>)
    requires ms != []
    ensures MemberTokens(ms) + ["}"] ==
      [Quoted(ms[0].name), ":"] + Tokens(ms[0].value) + Comma(ms[1..] != []) + (MemberTokens(ms[1..]) + ["}"])
  {
    hide Tokens, Quoted;
  }

  lemma PutsOn(acc: seq<Member>, d: DocMember, ds: seq<DocMember>, r: seq<Member>)
    requires ArePieces(d.name) && IsDoc(d.value) && AreMembers(ds)
    requires var n := MemberValue(d); Put(acc, n) == acc + [n] && PutAll(acc + [n], ds) == acc + [n] + r
    ensures AreMembers([d] + ds) && PutAll(acc, [d] + ds) == acc + ([MemberValue(d)] + r)
  {
    hide MemberValue, IsDoc, ArePieces, Put;
    assert AreMembers([d] + ds);
    assert ([d] + ds)[1..] == ds;
  }

  lemma TextOn(d: DocMember, ds: seq<DocMember>)
    requires ArePieces(d.name) && IsDoc(d.value) && AreMembers(ds)
    ensures AreMembers([d] + ds)
    ensures MembersText([d] + ds, false) ==
      [StringText(d.name), ":"] + DocTokens(d.value) + Comma(ds != []) + MembersText(ds, false)
  {
    hide IsDoc, ArePieces, StringText, DocTokens;
    assert AreMembers([d] + ds);
    assert ([d] + ds)[1..] == ds;
  }

  lemma PutBehind(acc: seq<Member>, ms: seq<Member>, n: Member)
    requires ms != [] && Before(acc, ms) && n.name == ms[0].name
    ensures Put(acc, n) == acc + [n]
  {
    assert ms[0] in ms;
    PutLast(acc, n);
  }

  lemma MoreInOrder(ms: seq<Member>, acc: seq<Member>, n: Member)
    requires ms != [] && Sorted(ms) && n.name == ms[0].name && Before(acc, ms)
    ensures Sorted(ms[1..]) && Before(acc + [n], ms[1..])
  {
    hide Less;
    var more := ms[1..];
    forall m | m in more ensures m in ms && Less(n.name, m.name) {
      var i :| 0 <= i < |more| && more[i] == m;
      assert ms[i + 1] == m;
    }
  }

  /** Any text with the tokens of a value is read as its normal form. */
  lemma ValueRead(v: Json, s: string, rest: string)
    requires Writable(v) && Consume(Tokens(v), s) == Some(rest) && Ends(rest)
    ensures ReadValue(s) == Got(Normal(v), rest)
  {
    DocOfFits(v);
    DocRead(DocOf(v), s, rest);
  }

  /** Writing and reading: the value comes back but for the types of its integers and for what is
      behind null bytes; so it comes back exactly if it is in normal form. */
  lemma RoundTrip(v: Json, s: string, rest: string)
    requires Writable(v) && Consume(Tokens(v), s) == Some(rest) && Ends(rest)
    ensures Parse(s) == Some(Normal(v))
    ensures Parse(s) == Some(v) <==> IsNormal(v)
  {
    ValueRead(v, s, rest);
    NormalIff(v);
  }

  // ---------------------------------------------------------------- at one text

  function Plains(s: string): seq<Piece> { seq(|s|, i requires 0 <= i < |s| => Plain(s[i])) }

  lemma {:induction false} PlainsFit(s: string)
    requires '"' !in s && '\\' !in s
    ensures ArePieces(Plains(s)) && Text(Plains(s)) == s && Means(Plains(s)) == s
    decreases |s|
  {
    if s != "" {
      PlainsFit(s[1..]);
      assert s[0] in s && Plains(s)[1..] == Plains(s[1..]) && s == [s[0]] + s[1..];
      assert forall p :: p in Plains(s) ==> p == Plains(s)[0] || p in Plains(s)[1..];
    }
  }

  const NAME: string := "\"" + "filename" + "\""
  const CONTENT: string := "\"" + "\\u4e2d" + "\""
  const EXAMPLE: string := "{" + NAME + ":" + CONTENT + "}"

  /** A file name outside ASCII, as most encoders write it: the three bytes of its UTF-8. */
  lemma ExampleRead()
    ensures Parse(EXAMPLE) == Some(Obj([Member("filename", Str([0xE4 as char, 0xB8 as char, 0xAD as char]))]))
  {
    var m := ExampleMember();
    hide ArePieces, IsDoc, DocTokens, DocValue, Writes, Parse, Means, StringText;
    ExampleWritten(m);
    ExampleValue(m);
    DocumentExactly(EXAMPLE, DocValue(DocObject([m], false)));
  }

  lemma ExampleMember() returns (m: DocMember)
    ensures ArePieces(m.name) && IsDoc(m.value) && StringText(m.name) == NAME && Means(m.name) == "filename"
    ensures m.value.DocString? && DocTokens(m.value) == [CONTENT]
    ensures Means(m.value.text) == [0xE4 as char, 0xB8 as char, 0xAD as char]
  {
    ExamplePiece();
    PlainsFit("filename");
    hide Plains, Text, Means, ArePieces;
    m := DocMember(Plains("filename"), DocString([Unicode("4e2d")]));
  }

  lemma ExampleValue(m: DocMember)
    requires ArePieces(m.name) && IsDoc(m.value) && Means(m.name) == "filename"
    requires m.value.DocString? && Means(m.value.text) == [0xE4 as char, 0xB8 as char, 0xAD as char]
    ensures IsDoc(DocObject([m], false))
    ensures DocValue(DocObject([m], false)) ==
      Obj([Member("filename", Str([0xE4 as char, 0xB8 as char, 0xAD as char]))])
  {
    hide Means, ArePieces, CStrings.CString, PutAll;
    CStrings.WholeCString("filename");
    CStrings.WholeCString([0xE4 as char, 0xB8 as char, 0xAD as char]);
    PutNext([], [m]);
  }

  lemma ExampleWritten(m: DocMember)
    requires ArePieces(m.name) && IsDoc(m.value) && StringText(m.name) == NAME
    requires DocTokens(m.value) == [CONTENT]
    ensures IsDoc(DocObject([m], false)) && Writes(DocObject([m], false), EXAMPLE, "")
  {
    hide ArePieces, StringText, Lay, Means;
    var d := DocObject([m], false);
    assert IsDoc(d);
    NoMembers(false, []);
    assert DocTokens(d) == ["{", NAME, ":", CONTENT, "}"];
    LayFive("{", NAME, ":", CONTENT, "}");
    assert AreWs(["", "", "", "", ""]);
  }

  lemma LayFive(a: string, b: string, c: string, d: string, e: string)
    ensures Lay(["", "", "", "", ""], [a, b, c, d, e]) == a + b + c + d + e
  {
    hide Lay;
    LayNext(e, [], []);
    LayNext(d, [""], [e]);
    LayNext(c, ["", ""], [d, e]);
    LayNext(b, ["", "", ""], [c, d, e]);
    LayNext(a, ["", "", "", ""], [b, c, d, e]);
    LayNothing();
    assert [""] + [] == [""] && [e] + [] == [e] && [""] + [""] == ["", ""] && [d] + [e] == [d, e];
    assert [""] + ["", ""] == ["", "", ""] && [c] + [d, e] == [c, d, e];
    assert [""] + ["", "", ""] == ["", "", "", ""] && [b] + [c, d, e] == [b, c, d, e];
    assert [""] + ["", "", "", ""] == ["", "", "", "", ""] && [a] + [b, c, d, e] == [a, b, c, d, e];
    assert a + (b + (c + (d + (e + "")))) == a + b + c + d + e;
  }

  lemma LayNothing()
    ensures Lay([], []) == ""
  {
  }

  lemma LayNext(t: string, ws: seq<string>, ts: seq<string>)
    requires |ws| == |ts|
    ensures Lay([""] + ws, [t] + ts) == t + Lay(ws, ts)
  {
    assert ([""] + ws)[1..] == ws && ([t] + ts)[1..] == ts && "" + t == t;
  }

  lemma ExamplePiece()
    ensures IsPiece(Unicode("4e2d")) && HexNumber("4e2d") == 0x4E2D
    ensures ArePieces([Unicode("4e2d")]) && Text([Unicode("4e2d")]) == "\\u4e2d"
    ensures Means([Unicode("4e2d")]) == [0xE4 as char, 0xB8 as char, 0xAD as char]
  {
    hide HexNumber;
    FourDigits("4e2d");
    assert Text([Unicode("4e2d")]) == "\\u" + "4e2d" + "";
  }
}
