/** Requests one after the other on one connection, each with its content. */
module HttpPipeline {
  import opened Options
  import opened HttpTypes
  import opened HttpSwitch
  import opened HttpRun
  import opened HttpParser
  import HttpSplit
  import opened HttpGoes
  import opened HttpMessage
  import opened HttpBody
  import opened HttpRequest
  import opened HttpChunked
  import opened HttpNames

  datatype Content = Bodyless | InPieces(pieces: Pieces) | Whole(bytes: string)

  datatype Message = Message(r: Request, content: Content)

  predicate Says(hs: seq<(string, string)>, what: ((string, string)) -> bool) { exists h :: h in hs && what(h) }

  predicate IsMessage(m: Message) {
    var hs := m.r.headers;
    && IsTarget(m.r.verb, m.r.target) && 0 < m.r.major <= 999 && m.r.minor <= 999 && AreFields(hs)
    && m.r.verb != CONNECT && !Says(hs, AsksUpgrade)
    && match m.content
       case Bodyless => !Says(hs, SaysChunked) && LengthGiven(hs) in {None, Some(0)}
       case InPieces(b) => Says(hs, SaysChunked) && ArePieces(b)
       case Whole(b) => !Says(hs, SaysChunked) && LengthGiven(hs) == Some(|b|) && b != ""
  }

  function ContentText(c: Content): string {
    match c
    case Bodyless => ""
    case InPieces(b) => PiecesText(b)
    case Whole(b) => b
  }

  function ContentAtoms(c: Content): seq<Atom> {
    match c
    case Bodyless => [Signal(MessageComplete)]
    case InPieces(b) => PiecesAtoms(b)
    case Whole(b) => BytesOf(Body, b) + [Signal(MessageComplete)]
  }

  function Text(m: Message): string { HeadText(m.r) + ContentText(m.content) }

  /** What the callbacks are told of a message. */
  function Told(m: Message): seq<Atom> { HeadAtoms(m.r) + TOLD + ContentAtoms(m.content) }


  function Trailer(m: Message): seq<(string, string)> {
    if m.content.InPieces? then m.content.pieces.trailer else []
  }

  /** The fields of the header section and of the trailer. */
  function Fields(m: Message): seq<(string, string)> { m.r.headers + Trailer(m) }

  /** Section 6.3 of RFC 7230: whether the connection is kept. A trailer has its say, too. */
  predicate Persists(m: Message) {
    if m.r.minor > 0 then !Says(Fields(m), SaysClose) else Says(Fields(m), SaysKeepAlive)
  }

  /** Header bytes that are still counted when the next message begins: those of the trailer. */
  function Counted(m: Message): nat {
    if m.content.InPieces? then |HeaderText(m.content.pieces.trailer)| + 2 else 0
  }

  /** The flags once all fields have been read. */
  function FlagsOf(m: Message): Flags {
    FlagsAfterAll(FlagsAfterAll(NO_FLAGS, m.r.headers).(trailing := m.content.InPieces?), Trailer(m))
  }

  lemma KeptAlive(q: Parser, m: Message)
    requires AreFields(m.r.headers) && AreFields(Trailer(m))
    requires q.kind == Kind.Request && q.major == m.r.major > 0 && q.minor == m.r.minor
    requires q.flags.close == FlagsOf(m).close && q.flags.keepAlive == FlagsOf(m).keepAlive
    ensures NewMessage(q) == if Persists(m) then StartReq else Dead
  {
    hide FlagsAfterAll, SaysChunked, SaysKeepAlive, SaysClose, AsksUpgrade, IsField, AreFields;
    var f := FlagsAfterAll(NO_FLAGS, m.r.headers);
    AllFieldFlags(NO_FLAGS, m.r.headers);
    AllFieldFlags(f.(trailing := m.content.InPieces?), Trailer(m));
  }

  /** What the parser has become after a message, and what it has told. */
  ghost predicate Done(answersOne: Parser -> bool, p: Parser, m: Message, rest: string, q: Parser) {
    && q.errno == OK && q.kind == Kind.Request && q.nread == Counted(m)
    && q.state == (if Persists(m) then StartReq else Dead)
    && Run(answersOne, p, Text(m) + rest) == Run(answersOne, q, rest).After(Told(m), |Text(m)|)
  }

  /** A request parser that waits for a request. */
  predicate Ready(p: Parser) { p.state.StartReq? && p.kind == Kind.Request && p.errno == OK }

  /** One message: what is told of it, and whether the parser is ready for another. */
  lemma MessageRead(answersOne: Parser -> bool, p: Parser, m: Message, rest: string) returns (q: Parser)
    requires Ready(p) && p.nread + |HeadText(m.r)| <= 81920
    requires IsMessage(m) && forall x :: !answersOne(x)
    ensures Done(answersOne, p, m, rest, q)
  {
    MessageFraming(m);
    hide *;
    if m.content.Bodyless? {
      q := BodylessRead(answersOne, p, m, rest);
    } else if m.content.InPieces? {
      q := InPiecesRead(answersOne, p, m, rest);
    } else {
      q := WholeRead(answersOne, p, m, rest);
    }
  }

  /** What the fields of a message make of the flags and the length. */
  ghost predicate Framed(m: Message) {
    && IsRequest(m.r) && Plain(m.r) && AreFields(m.r.headers) && AreFields(Trailer(m))
    && FlagsAfterAll(NO_FLAGS, m.r.headers).chunked == m.content.InPieces?
    && match m.content
       case Bodyless => LengthAfterAll(U64_MAX, m.r.headers) in {0, U64_MAX}
       case InPieces(b) => ArePieces(b)
       case Whole(b) => LengthAfterAll(U64_MAX, m.r.headers) == |b| && 0 < |b| < U64_MAX
  }

  lemma MessageFraming(m: Message)
    requires IsMessage(m)
    ensures Framed(m)
  {
    hide FlagsAfterAll, LengthAfterAll, IsTarget, AreFields, AreHeaders, SaysChunked, SaysKeepAlive, SaysClose, AsksUpgrade,
         LengthGiven, GivesLength, IsChunk, IsField;
    var hs := m.r.headers;
    AllFieldsAreHeaders(hs);
    AllFieldsAreHeaders(Trailer(m));
    AllFieldFlags(NO_FLAGS, hs);
    LengthsAfterAll(U64_MAX, hs);
    NoFields();
  }

  lemma NoFields()
    ensures AreFields([])
  {
  }

  lemma BodylessRead(answersOne: Parser -> bool, p: Parser, m: Message, rest: string) returns (q: Parser)
    requires Ready(p) && p.nread + |HeadText(m.r)| <= 81920
    requires Framed(m) && m.content.Bodyless? && forall x :: !answersOne(x)
    ensures Done(answersOne, p, m, rest, q)
  {
    hide Run, HeadText, HeadAtoms, FlagsAfterAll, LengthAfterAll, IsTarget, FramingOf, NewMessage, HeadersSeen, Persists,
         AreFields;
    var r := m.r;
    var h, index := RequestRead(answersOne, p, r, rest);
    PlainSeen(answersOne, p, r, h, index);
    FlagsNeverTrailing(NO_FLAGS, r.headers);
    var e := HeadersSeen(answersOne, HeadRead(p, r, h, index));
    q := e.(state := NewMessage(e));
    NoMore(m);
    KeptAlive(e, m);
    assert HeadText(r) + "" == HeadText(r);
    assert HeadAtoms(r) + TOLD + [Signal(MessageComplete)] == HeadAtoms(r) + TOLD_ALL;
  }

  lemma NoMore(m: Message)
    requires !m.content.InPieces?
    ensures FlagsOf(m).close == FlagsAfterAll(NO_FLAGS, m.r.headers).close
    ensures FlagsOf(m).keepAlive == FlagsAfterAll(NO_FLAGS, m.r.headers).keepAlive
  {
    var f := FlagsAfterAll(NO_FLAGS, m.r.headers).(trailing := false);
    assert FlagsAfterAll(f, []) == f;
  }

  lemma InPiecesRead(answersOne: Parser -> bool, p: Parser, m: Message, rest: string) returns (q: Parser)
    requires Ready(p) && p.nread + |HeadText(m.r)| <= 81920
    requires Framed(m) && m.content.InPieces? && forall x :: !answersOne(x)
    ensures Done(answersOne, p, m, rest, q)
  {
    hide Run, HeadText, HeadAtoms, FlagsAfterAll, IsTarget, NewMessage, Persists, AreFields, PiecesText, PiecesAtoms,
         ArePieces;
    q := ChunkedRequestRead(answersOne, p, m.r, m.content.pieces, rest);
    KeptAlive(q, m);
  }

  lemma WholeRead(answersOne: Parser -> bool, p: Parser, m: Message, rest: string) returns (q: Parser)
    requires Ready(p) && p.nread + |HeadText(m.r)| <= 81920
    requires Framed(m) && m.content.Whole? && forall x :: !answersOne(x)
    ensures Done(answersOne, p, m, rest, q)
  {
    hide Run, HeadText, HeadAtoms, FlagsAfterAll, LengthAfterAll, IsTarget, NewMessage, Persists, AreFields;
    q := LengthRequestRead(answersOne, p, m.r, m.content.bytes, rest);
    NoMore(m);
    KeptAlive(q, m);
  }

  // ---------------------------------------------------------------- one after the other

  function TextOf(ms: seq<Message>): string { if ms == [] then "" else Text(ms[0]) + TextOf(ms[1..]) }

  function ToldOf(ms: seq<Message>): seq<Atom> { if ms == [] then [] else Told(ms[0]) + ToldOf(ms[1..]) }

  /** All but the last one keep the connection, and no header section is too long. */
  predicate AreMessages(counted: nat, ms: seq<Message>) {
    && (forall m :: m in ms ==> IsMessage(m))
    && (forall i :: 0 <= i < |ms| - 1 ==> Persists(ms[i]) && Counted(ms[i]) + |HeadText(ms[i + 1].r)| <= 81920)
    && (ms != [] ==> counted + |HeadText(ms[0].r)| <= 81920)
  }

  lemma Later(counted: nat, ms: seq<Message>)
    requires AreMessages(counted, ms) && ms != []
    ensures IsMessage(ms[0]) && counted + |HeadText(ms[0].r)| <= 81920 && AreMessages(Counted(ms[0]), ms[1..])
    ensures |ms| > 1 ==> Persists(ms[0])
  {
    hide IsMessage, Persists, HeadText, Counted;
    var later := ms[1..];
    assert ms[0] in ms && forall x :: x in later ==> x in ms;
    assert forall i :: 0 <= i < |later| ==> later[i] == ms[i + 1];
    if |ms| > 1 { assert Persists(ms[0]) && Counted(ms[0]) + |HeadText(ms[0 + 1].r)| <= 81920; }
  }

  /** Requests in a row: each is told of, in order, with its content. */
  lemma {:induction false} Pipelined(answersOne: Parser -> bool, p: Parser, ms: seq<Message>, rest: string) returns (q: Parser)
    requires Ready(p) && AreMessages(p.nread, ms) && forall x :: !answersOne(x)
    ensures q.errno == OK && q.kind == Kind.Request
    ensures q.nread == if ms == [] then p.nread else Counted(ms[|ms| - 1])
    ensures q.state == if ms == [] || Persists(ms[|ms| - 1]) then StartReq else Dead
    ensures Run(answersOne, p, TextOf(ms) + rest) == Run(answersOne, q, rest).After(ToldOf(ms), |TextOf(ms)|)
    decreases |ms|
  {
    hide Run, Text, Told, HeadText, IsMessage, Persists, AreMessages, Counted;
    if ms == [] {
      q := p;
      assert "" + rest == rest;
      Unchanged(Run(answersOne, p, rest));
    } else {
      var m, later := ms[0], ms[1..];
      Later(p.nread, ms);
      var first := MessageRead(answersOne, p, m, TextOf(later) + rest);
      assert Text(m) + (TextOf(later) + rest) == TextOf(ms) + rest;
      if later == [] {
        q := first;
        assert "" + rest == rest && Told(m) + [] == Told(m);
      } else {
        assert ms[|ms| - 1] == later[|later| - 1];
        q := Pipelined(answersOne, first, later, rest);
        AfterAfter(Run(answersOne, q, rest), Told(m), |Text(m)|, ToldOf(later), |TextOf(later)|);
      }
    }
  }

  /** Blank lines in front of a request, and behind the last one, do not matter. */
  lemma {:induction false} BlankLinesGo(answersOne: Parser -> bool, p: Parser, s: string)
    requires (p.state.StartReq? || p.state.Dead?) && p.errno == OK && p.nread + |s| <= 81920
    requires forall i :: 0 <= i < |s| ==> s[i] == CR || s[i] == LF
    ensures Goes(answersOne, p, s, Read(p, |s|), [])
    decreases |s|
  {
    hide Goes, Switch;
    if s == "" {
      GoesNowhere(answersOne, p);
    } else {
      var init, ch := s[..|s| - 1], s[|s| - 1];
      assert s == init + [ch];
      BlankLinesGo(answersOne, p, init);
      BlankStays(answersOne, Read(p, |s|), ch);
      GoesQuietly(answersOne, Read(p, |init|), ch, Read(p, |s|));
      GoesOnQuietly(answersOne, p, init, Read(p, |init|), [ch], Read(p, |s|));
    }
  }

  lemma BlankStays(answersOne: Parser -> bool, p: Parser, ch: char)
    requires (p.state.StartReq? || p.state.Dead?) && (ch == CR || ch == LF)
    ensures Switch(answersOne, p, ch) == Go(p)
  {
  }

  /** What follows a request that does not keep the connection is refused, at its first byte but for line ends. */
  lemma NothingAfterClose(answersOne: Parser -> bool, p: Parser, ms: seq<Message>, ch: char, rest: string) returns (q: Parser)
    requires Ready(p) && AreMessages(p.nread, ms) && (forall x :: !answersOne(x)) && ms != [] && !Persists(ms[|ms| - 1])
    requires Counted(ms[|ms| - 1]) < 81920 && ch != CR && ch != LF
    ensures q.errno == ClosedConnection
    ensures Run(answersOne, p, TextOf(ms) + ([ch] + rest)) == HttpRun.Result(q, ToldOf(ms), |TextOf(ms)|, Failed)
  {
    hide Run, TextOf, ToldOf, Persists, AreMessages, Switch, Counted;
    var dead := Pipelined(answersOne, p, ms, [ch] + rest);
    q := Read(dead, 1).(errno := ClosedConnection);
    RunCons(answersOne, dead, [ch] + rest);
    SettleCons(answersOne, Read(dead, 1), ch);
    DeadFails(answersOne, Read(dead, 1), ch);
    assert Run(answersOne, dead, [ch] + rest) == HttpRun.Result(q, [], 0, Failed);
    assert ToldOf(ms) + [] == ToldOf(ms);
  }

  lemma DeadFails(answersOne: Parser -> bool, p: Parser, ch: char)
    requires p.state.Dead? && ch != CR && ch != LF
    ensures Switch(answersOne, p, ch) == Fail(p, ClosedConnection)
  {
  }

  /** A request to upgrade, and CONNECT, end the parser's work behind the head. */
  lemma Upgrades(answersOne: Parser -> bool, p: Parser, r: Request, rest: string) returns (q: Parser)
    requires p.state.StartReq? && p.kind == Kind.Request && p.errno == OK && p.nread + |HeadText(r)| <= 81920
    requires IsTarget(r.verb, r.target) && 0 < r.major <= 999 && r.minor <= 999 && AreFields(r.headers)
    requires r.verb == CONNECT || Says(r.headers, AsksUpgrade)
    ensures q.errno == OK && q.upgrade
    ensures Run(answersOne, p, HeadText(r) + rest) == HttpRun.Result(q, HeadAtoms(r) + TOLD_ALL, |HeadText(r)|, Upgraded)
  {
    AllFieldsAreHeaders(r.headers);
    AllFieldFlags(NO_FLAGS, r.headers);
    hide Run, HeadText, HeadAtoms, FlagsAfterAll, LengthAfterAll, IsTarget, AreFields, AreHeaders, NewMessage;
    var h, index := RequestRead(answersOne, p, r, rest);
    var e := HeadersSeen(answersOne, HeadRead(p, r, h, index));
    q := e.(state := NewMessage(e));
  }

  // ---------------------------------------------------------------- at one text

  const EXAMPLE: string := "GET / HTTP/1.1\r\n" + "Host: a\r\n" + "CONNECTION: Close\r\n" + "\r\n"

  const EXAMPLE_FIELDS := [("Host", "a"), ("CONNECTION", "Close")]

  const EXAMPLE_REQUEST := Request.Request(GET, "/", 1, 1, EXAMPLE_FIELDS)

  lemma ExampleIsMessage()
    ensures IsMessage(Message(EXAMPLE_REQUEST, Bodyless)) && !Persists(Message(EXAMPLE_REQUEST, Bodyless))
  {
    assert UrlEnd(ReqSpacesBeforeUrl, "/") == ReqPath by { assert "/"[..0] == ""; }
    ExampleFields();
    hide UrlEnd, IsField, SaysChunked, AsksUpgrade, GivesLength, SaysClose;
    assert EXAMPLE_FIELDS[1] in EXAMPLE_FIELDS;
  }

  lemma ExampleFields()
    ensures forall h :: h in EXAMPLE_FIELDS ==> IsField(h.0, h.1) && !SaysChunked(h) && !AsksUpgrade(h) && !GivesLength(h)
    ensures SaysClose(EXAMPLE_FIELDS[1])
  {
    assert IsField("Host", "a") && IsField("CONNECTION", "Close");
    hide IsField;
  }

  lemma ExampleLines()
    ensures LineText(EXAMPLE_REQUEST) == "GET / HTTP/1.1\r\n"
    ensures HeaderLine("Host", "a") == "Host: a\r\n" && HeaderLine("CONNECTION", "Close") == "CONNECTION: Close\r\n"
  {
    assert VersionText(1, 1) == " HTTP/1.1\r\n";
    hide VersionText;
  }

  lemma ExampleText()
    ensures HeadText(EXAMPLE_REQUEST) == EXAMPLE
  {
    hide LineText, HeaderLine;
    ExampleLines();
    var a, b := HeaderLine("Host", "a"), HeaderLine("CONNECTION", "Close");
    assert HeaderText(EXAMPLE_FIELDS[1..]) == b + "";
    assert HeaderText(EXAMPLE_FIELDS) == a + b;
  }

  lemma ExampleAtoms()
    ensures HeadAtoms(EXAMPLE_REQUEST) ==
      [Signal(MessageBegin)] + BytesOf(Url, "/") + (BytesOf(Field, "Host") + BytesOf(Value, "a")
      + (BytesOf(Field, "CONNECTION") + BytesOf(Value, "Close")))
  {
    hide BytesOf;
    assert HeaderAtoms(EXAMPLE_FIELDS[1..]) == BytesOf(Field, "CONNECTION") + BytesOf(Value, "Close") + [];
  }

  /** A request as a browser sends it: what is told of it, and that the connection is not kept. */
  lemma ExampleRead(answersOne: Parser -> bool) returns (q: Parser)
    requires forall x :: !answersOne(x)
    ensures q.state.Dead? && q.errno == OK
    ensures Run(answersOne, Init(Kind.Request), EXAMPLE) == HttpRun.Result(q,
      [Signal(MessageBegin)] + BytesOf(Url, "/") + (BytesOf(Field, "Host") + BytesOf(Value, "a")
      + (BytesOf(Field, "CONNECTION") + BytesOf(Value, "Close"))) + [Signal(HeadersComplete), Signal(MessageComplete)],
      |EXAMPLE|, Running)
  {
    hide Run, HeadText, HeadAtoms, IsMessage, BytesOf, Persists;
    var m := Message(EXAMPLE_REQUEST, Bodyless);
    ExampleIsMessage();
    ExampleText();
    ExampleAtoms();
    assert Text(m) + "" == EXAMPLE;
    q := MessageRead(answersOne, Init(Kind.Request), m, "");
    HttpSplit.RunNothing(answersOne, q);
    assert Told(m) + [] == HeadAtoms(EXAMPLE_REQUEST) + [Signal(HeadersComplete), Signal(MessageComplete)];
  }
}
