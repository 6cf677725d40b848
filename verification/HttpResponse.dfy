/** Responses: what the parser makes of a status line, and of what follows it. */
module HttpResponse {
  import opened Options
  import opened HttpTypes
  import opened HttpSwitch
  import opened HttpRun
  import opened HttpParser
  import HttpSplit
  import opened HttpGoes
  import opened HttpMessage
  import opened HttpBody
  import opened HttpRequest
  import opened HttpNames
  import opened Decimal

  datatype Response = Response(major: nat, minor: nat, code: nat, reason: Option<string>, headers: seq<(string, string)>)

  predicate IsResponse(r: Response) {
    && r.major <= 999 && r.minor <= 999 && r.code <= 999 && AreFields(r.headers)
    && (r.reason.Some? ==> CR !in r.reason.value && LF !in r.reason.value)
  }

  function ReasonText(r: Response): string { if r.reason == None then "" else " " + r.reason.value }

  function StatusText(r: Response): string {
    "HTTP/" + Dec(r.major) + "." + Dec(r.minor) + " " + Dec(r.code) + ReasonText(r) + CRLF
  }

  function HeadText(r: Response): string { StatusText(r) + HeaderText(r.headers) + CRLF }

  // ---------------------------------------------------------------- bytes of the status line

  lemma DispatchStatus(answersOne: Parser -> bool, p: Parser, ch: char)
    ensures ArmOf(p.state) == StartArm ==> Switch(answersOne, p, ch) == StartByte(p, ch)
    ensures ArmOf(p.state) == ResVersionArm ==> Switch(answersOne, p, ch) == ResVersionByte(p, ch)
    ensures ArmOf(p.state) == StatusArm ==> Switch(answersOne, p, ch) == StatusByte(p, ch)
  {
    hide ArmOf, StartByte, ResVersionByte, StatusByte;
  }

  predicate InVersion(s: State) {
    s.ResH? || s.ResHT? || s.ResHTT? || s.ResHTTP? || s.ResFirstHttpMajor? || s.ResHttpMajor? || s.ResFirstHttpMinor?
    || s.ResHttpMinor?
  }

  predicate InStatus(s: State) { s.ResFirstStatusCode? || s.ResStatusCode? || s.ResStatus? || s.ResLineAlmostDone? }

  lemma StatusStates(s: State)
    ensures InVersion(s) ==> ArmOf(s) == ResVersionArm && ParsingHeader(s) && MarkOf(s) == None
    ensures InStatus(s) ==> ArmOf(s) == StatusArm && ParsingHeader(s) && MarkOf(s) == None
    ensures s.StartRes? || s.StartReqOrRes? || s.ResOrRespH? ==> ArmOf(s) == StartArm && ParsingHeader(s)
    ensures s.HeaderFieldStart? || s.ResOrRespH? ==> MarkOf(s) == None
  {
  }

  lemma VersionByteGoes(answersOne: Parser -> bool, p: Parser, ch: char, q: Parser)
    requires InVersion(p.state) && Room(p, 1) && ResVersionByte(Read(p, 1), ch) == Go(q)
    requires q.errno == OK && (InVersion(q.state) || InStatus(q.state))
    ensures Goes(answersOne, p, [ch], q, [])
  {
    hide Goes, Switch, ResVersionByte, ArmOf, MarkOf, ParsingHeader;
    StatusStates(p.state);
    StatusStates(q.state);
    DispatchStatus(answersOne, Read(p, 1), ch);
    GoesQuietly(answersOne, p, ch, q);
  }

  lemma StatusByteGoes(answersOne: Parser -> bool, p: Parser, ch: char, q: Parser)
    requires InStatus(p.state) && Room(p, 1) && StatusByte(Read(p, 1), ch) == Go(q)
    requires q.errno == OK && InStatus(q.state)
    ensures Goes(answersOne, p, [ch], q, [])
  {
    hide Goes, Switch, StatusByte, ArmOf, MarkOf, ParsingHeader;
    StatusStates(p.state);
    StatusStates(q.state);
    DispatchStatus(answersOne, Read(p, 1), ch);
    GoesQuietly(answersOne, p, ch, q);
  }

  /** A parser for responses, or for messages of either kind, waits for one. */
  predicate Waits(p: Parser) { p.errno == OK && ((p.state.StartRes? && p.kind == Kind.Response) || p.state.StartReqOrRes?) }

  /** The first letter; and after "HT" even a parser for either kind knows that it is a response. */
  lemma FirstLetterGoes(answersOne: Parser -> bool, p: Parser)
    requires Waits(p) && Room(p, 1)
    ensures Goes(answersOne, p, "H", Fresh(Read(p, 1)).(state := if p.state.StartRes? then ResH else ResOrRespH),
                 [Signal(MessageBegin)])
  {
    hide Goes, Switch, ArmOf, MarkOf, ParsingHeader;
    var q := Fresh(Read(p, 1)).(state := if p.state.StartRes? then ResH else ResOrRespH);
    StatusStates(p.state);
    StatusStates(q.state);
    DispatchStatus(answersOne, Read(p, 1), 'H');
    GoesByte(answersOne, p, 'H');
    assert Signals(Some(MessageBegin)) + Tail(q.state, 'H') == [Signal(MessageBegin)];
    assert ['H'] == "H";
  }

  lemma SecondLetterGoes(answersOne: Parser -> bool, p: Parser)
    requires ((p.state.ResH? && p.kind == Kind.Response) || p.state.ResOrRespH?) && Room(p, 1)
    ensures Goes(answersOne, p, "T", Read(p, 1).(state := ResHT, kind := Kind.Response), [])
  {
    hide Goes, Switch, ArmOf, MarkOf, ParsingHeader;
    var q := Read(p, 1).(state := ResHT, kind := Kind.Response);
    StatusStates(p.state);
    StatusStates(q.state);
    DispatchStatus(answersOne, Read(p, 1), 'T');
    GoesQuietly(answersOne, p, 'T', q);
    assert ['T'] == "T";
  }

  /** "HTTP/". */
  lemma WordGoes(answersOne: Parser -> bool, p: Parser)
    requires Waits(p) && Room(p, 5)
    ensures Goes(answersOne, p, "HTTP/", Fresh(Read(p, 5)).(state := ResFirstHttpMajor, kind := Kind.Response),
                 [Signal(MessageBegin)])
  {
    hide Goes, Switch;
    FirstLetterGoes(answersOne, p);
    var q1 := Fresh(Read(p, 1)).(state := if p.state.StartRes? then ResH else ResOrRespH);
    SecondLetterGoes(answersOne, q1);
    var q2 := Fresh(Read(p, 2)).(state := ResHT, kind := Kind.Response);
    var q3, q4, q5 := Read(q2, 1).(state := ResHTT), Read(q2, 2).(state := ResHTTP), Read(q2, 3).(state := ResFirstHttpMajor);
    GoesOn(answersOne, p, "H", q1, [Signal(MessageBegin)], "T", q2, []);
    VersionByteGoes(answersOne, q2, 'T', q3);
    VersionByteGoes(answersOne, q3, 'P', q4);
    VersionByteGoes(answersOne, q4, '/', q5);
    GoesOnQuietly(answersOne, q2, ['T'], q3, ['P'], q4);
    GoesOnQuietly(answersOne, q2, ['T'] + ['P'], q4, ['/'], q5);
    GoesOn(answersOne, p, "H" + "T", q2, [Signal(MessageBegin)] + [], ['T'] + ['P'] + ['/'], q5, []);
    assert "H" + "T" + (['T'] + ['P'] + ['/']) == "HTTP/";
    assert [Signal(MessageBegin)] + [] + [] == [Signal(MessageBegin)];
  }

  // ---------------------------------------------------------------- its numbers

  /** One digit of a number of the status line. */
  lemma DigitMeans(p: Parser, n: nat, d: nat)
    requires d < 10 && n * 10 + d <= 999
    ensures p.state.ResFirstHttpMajor? ==> ResVersionByte(p, DigitChar(d)) == Go(p.(major := d, state := ResHttpMajor))
    ensures p.state.ResHttpMajor? && p.major == n ==> ResVersionByte(p, DigitChar(d)) == Go(p.(major := n * 10 + d))
    ensures p.state.ResFirstHttpMinor? ==> ResVersionByte(p, DigitChar(d)) == Go(p.(minor := d, state := ResHttpMinor))
    ensures p.state.ResHttpMinor? && p.minor == n ==> ResVersionByte(p, DigitChar(d)) == Go(p.(minor := n * 10 + d))
    ensures p.state.ResFirstStatusCode? ==> StatusByte(p, DigitChar(d)) == Go(p.(statusCode := d, state := ResStatusCode))
    ensures p.state.ResStatusCode? && p.statusCode == n ==> StatusByte(p, DigitChar(d)) == Go(p.(statusCode := n * 10 + d))
  {
  }

  /** What the digits of `n` do, from the start of one of the three numbers. */
  function NumberRead(p: Parser, n: nat, k: nat): Parser {
    if p.state.ResFirstHttpMajor? then Read(p, k).(major := n, state := ResHttpMajor)
    else if p.state.ResFirstHttpMinor? then Read(p, k).(minor := n, state := ResHttpMinor)
    else Read(p, k).(statusCode := n, state := ResStatusCode)
  }

  lemma {:induction false} NumberGoes(answersOne: Parser -> bool, p: Parser, n: nat)
    requires (p.state.ResFirstHttpMajor? || p.state.ResFirstHttpMinor? || p.state.ResFirstStatusCode?) && n <= 999
    requires Room(p, |Dec(n)|)
    ensures Goes(answersOne, p, Dec(n), NumberRead(p, n, |Dec(n)|), [])
    decreases n
  {
    hide Goes, Dec, ResVersionByte, StatusByte;
    if n < 10 {
      OneDigit(n);
      DigitMeans(Read(p, 1), 0, n);
      OneMoreGoes(answersOne, p, DigitChar(n), NumberRead(p, n, 1));
    } else {
      DecSnoc(n);
      NumberGoes(answersOne, p, n / 10);
      var q := NumberRead(p, n / 10, |Dec(n / 10)|);
      DigitMeans(Read(q, 1), n / 10, n % 10);
      OneMoreGoes(answersOne, q, DigitChar(n % 10), NumberRead(p, n, |Dec(n)|));
      GoesOnQuietly(answersOne, p, Dec(n / 10), q, [DigitChar(n % 10)], NumberRead(p, n, |Dec(n)|));
    }
  }

  lemma OneMoreGoes(answersOne: Parser -> bool, p: Parser, ch: char, q: Parser)
    requires (InVersion(p.state) && ResVersionByte(Read(p, 1), ch) == Go(q)) || (InStatus(p.state) && StatusByte(Read(p, 1), ch) == Go(q))
    requires Room(p, 1) && q.errno == OK && (InVersion(p.state) ==> InVersion(q.state) || InStatus(q.state))
    requires InStatus(p.state) ==> InStatus(q.state)
    ensures Goes(answersOne, p, [ch], q, [])
  {
    hide Goes, ResVersionByte, StatusByte;
    if InVersion(p.state) { VersionByteGoes(answersOne, p, ch, q); } else { StatusByteGoes(answersOne, p, ch, q); }
  }

  /** The version and the code, with the marks behind each number. */
  lemma NumbersGo(answersOne: Parser -> bool, p: Parser, major: nat, minor: nat, code: nat)
    requires p.state.ResFirstHttpMajor? && major <= 999 && minor <= 999 && code <= 999
    requires Room(p, |Dec(major)| + |Dec(minor)| + |Dec(code)| + 2)
    ensures Goes(answersOne, p, Dec(major) + "." + Dec(minor) + " " + Dec(code),
                 Read(p, |Dec(major)| + |Dec(minor)| + |Dec(code)| + 2).(
                   major := major, minor := minor, statusCode := code, state := ResStatusCode), [])
  {
    hide Goes, Dec;
    var a, b, c := |Dec(major)|, |Dec(minor)|, |Dec(code)|;
    NumberGoes(answersOne, p, major);
    var q1 := Read(p, a).(major := major, state := ResHttpMajor);
    var q2 := Read(p, a + 1).(major := major, state := ResFirstHttpMinor);
    OneMoreGoes(answersOne, q1, '.', q2);
    GoesOnQuietly(answersOne, p, Dec(major), q1, ['.'], q2);
    NumberGoes(answersOne, q2, minor);
    var q3 := Read(q2, b).(minor := minor, state := ResHttpMinor);
    GoesOnQuietly(answersOne, p, Dec(major) + ['.'], q2, Dec(minor), q3);
    var q4 := Read(q2, b + 1).(minor := minor, state := ResFirstStatusCode);
    OneMoreGoes(answersOne, q3, ' ', q4);
    GoesOnQuietly(answersOne, p, Dec(major) + ['.'] + Dec(minor), q3, [' '], q4);
    NumberGoes(answersOne, q4, code);
    var q5 := Read(q4, c).(statusCode := code, state := ResStatusCode);
    GoesOnQuietly(answersOne, p, Dec(major) + ['.'] + Dec(minor) + [' '], q4, Dec(code), q5);
    assert ['.'] == "." && [' '] == " ";
  }

  // ---------------------------------------------------------------- the reason and the end of the line

  lemma {:induction false} ReasonGoes(answersOne: Parser -> bool, p: Parser, s: string)
    requires p.state.ResStatus? && CR !in s && LF !in s && Room(p, |s|)
    ensures Goes(answersOne, p, s, Read(p, |s|), [])
    decreases |s|
  {
    hide Goes;
    if s == "" {
      GoesNowhere(answersOne, p);
    } else {
      var init, ch := s[..|s| - 1], s[|s| - 1];
      assert s == init + [ch] && ch in s && (CR !in init && LF !in init);
      ReasonGoes(answersOne, p, init);
      StatusByteGoes(answersOne, Read(p, |init|), ch, Read(p, |s|));
      GoesOnQuietly(answersOne, p, init, Read(p, |init|), [ch], Read(p, |s|));
    }
  }

  lemma StatusEndGoes(answersOne: Parser -> bool, p: Parser)
    requires (p.state.ResStatusCode? || p.state.ResStatus?) && Room(p, 2)
    ensures Goes(answersOne, p, CRLF, Read(p, 2).(state := HeaderFieldStart), [Signal(StatusComplete)])
  {
    hide Goes, Switch, ArmOf, MarkOf, ParsingHeader;
    var q, r := Read(p, 1).(state := ResLineAlmostDone), Read(p, 2).(state := HeaderFieldStart);
    StatusByteGoes(answersOne, p, CR, q);
    StatusStates(q.state);
    StatusStates(r.state);
    DispatchStatus(answersOne, Read(q, 1), LF);
    GoesByte(answersOne, q, LF);
    assert Signals(Some(StatusComplete)) + Tail(r.state, LF) == [Signal(StatusComplete)];
    GoesOn(answersOne, p, [CR], q, [], [LF], r, [Signal(StatusComplete)]);
    assert [CR] + [LF] == CRLF && NO_ATOMS + [Signal(StatusComplete)] == [Signal(StatusComplete)];
  }

  /** The fields behind the status line. */
  function StatusRead(p: Parser, r: Response): Parser {
    Fresh(Read(p, |StatusText(r)|)).(kind := Kind.Response, major := r.major, minor := r.minor, statusCode := r.code,
                                     state := HeaderFieldStart)
  }

  const STARTED: seq<Atom> := [Signal(MessageBegin), Signal(StatusComplete)]

  lemma StatusLineGoes(answersOne: Parser -> bool, p: Parser, r: Response)
    requires Waits(p) && IsResponse(r) && Room(p, |StatusText(r)|)
    ensures Goes(answersOne, p, StatusText(r), StatusRead(p, r), STARTED)
  {
    hide Goes, Dec, Room, AreFields;
    var numbers := Dec(r.major) + "." + Dec(r.minor) + " " + Dec(r.code);
    var k := |numbers|;
    RoomFor(p, |StatusText(r)|);
    WordGoes(answersOne, p);
    var q1 := Fresh(Read(p, 5)).(state := ResFirstHttpMajor, kind := Kind.Response);
    NumbersGo(answersOne, q1, r.major, r.minor, r.code);
    var q2 := Read(q1, k).(major := r.major, minor := r.minor, statusCode := r.code, state := ResStatusCode);
    GoesOn(answersOne, p, "HTTP/", q1, [Signal(MessageBegin)], numbers, q2, []);
    var q3 := ReasonPartGoes(answersOne, q2, r);
    GoesOn(answersOne, p, "HTTP/" + numbers, q2, [Signal(MessageBegin)] + [], ReasonText(r), q3, []);
    StatusEndGoes(answersOne, q3);
    GoesOn(answersOne, p, "HTTP/" + numbers + ReasonText(r), q3, [Signal(MessageBegin)] + [] + [], CRLF, StatusRead(p, r),
           [Signal(StatusComplete)]);
    assert "HTTP/" + numbers + ReasonText(r) + CRLF == StatusText(r);
    assert [Signal(MessageBegin)] + [] + [] + [Signal(StatusComplete)] == STARTED;
  }

  lemma RoomFor(p: Parser, n: nat)
    requires Room(p, n)
    ensures forall q: Parser, k: nat :: q.errno == OK && q.nread + k <= p.nread + n ==> Room(q, k)
  {
  }

  lemma ReasonPartGoes(answersOne: Parser -> bool, p: Parser, r: Response) returns (q: Parser)
    requires p.state.ResStatusCode? && IsResponse(r) && Room(p, |ReasonText(r)|)
    ensures q == Read(p, |ReasonText(r)|).(state := if r.reason == None then ResStatusCode else ResStatus)
    ensures Goes(answersOne, p, ReasonText(r), q, [])
  {
    hide Goes, AreFields;
    if r.reason == None {
      q := p;
      GoesNowhere(answersOne, p);
    } else {
      var s := r.reason.value;
      var t := Read(p, 1).(state := ResStatus);
      StatusByteGoes(answersOne, p, ' ', t);
      ReasonGoes(answersOne, t, s);
      q := Read(t, |s|);
      GoesOnQuietly(answersOne, p, [' '], t, s, q);
      assert [' '] == " ";
    }
  }

  /** The bytes that a status line may have in each of its places. */
  predicate MayStand(p: Parser, ch: char) {
    var s, digit := p.state, '0' <= ch <= '9';
    if s.StartRes? then ch in {'H', CR, LF}
    else if s.ResOrRespH? then ch in {'T', 'E'}
    else if s.ResH? || s.ResHT? then ch == 'T'
    else if s.ResHTT? then ch == 'P'
    else if s.ResHTTP? then ch == '/'
    else if s.ResFirstHttpMajor? || s.ResFirstHttpMinor? then digit
    else if s.ResHttpMajor? then ch == '.' || (digit && p.major * 10 + Digit(ch) <= 999)
    else if s.ResHttpMinor? then ch == ' ' || (digit && p.minor * 10 + Digit(ch) <= 999)
    else if s.ResFirstStatusCode? then ch == ' ' || digit
    else if s.ResStatusCode? then ch in {' ', CR, LF} || (digit && p.statusCode * 10 + Digit(ch) <= 999)
    else s.ResLineAlmostDone? ==> ch == LF
  }

  /** Any other byte ends the message with an error. */
  lemma StatusRefuses(answersOne: Parser -> bool, p: Parser, ch: char)
    requires p.state.StartRes? || p.state.ResOrRespH? || InVersion(p.state) || InStatus(p.state)
    ensures Switch(answersOne, p, ch).flow == Stop <==> !MayStand(p, ch)
  {
    hide Switch, ArmOf, MarkOf, ParsingHeader, StartReqByte;
    StatusStates(p.state);
    DispatchStatus(answersOne, p, ch);
  }

  // ---------------------------------------------------------------- what follows the head

  /** The fields once the head has been read. */
  function HeadRead(p: Parser, r: Response, h: HeaderState, index: nat): Parser
    requires AreHeaders(r.headers)
  {
    StatusRead(p, r).(state := HeadersAlmostDone, flags := FlagsAfterAll(NO_FLAGS, r.headers),
                      contentLength := LengthAfterAll(U64_MAX, r.headers), headerState := h, index := index,
                      nread := p.nread + |HeadText(r)|)
  }

  function HeadAtoms(r: Response): seq<Atom> { STARTED + HeaderAtoms(r.headers) }

  lemma HeadGoes(answersOne: Parser -> bool, p: Parser, r: Response) returns (h: HeaderState, index: nat)
    requires Waits(p) && IsResponse(r) && AreHeaders(r.headers) && Room(p, |HeadText(r)|)
    ensures Goes(answersOne, p, StatusText(r) + HeaderText(r.headers) + [CR],
                 HeadRead(p, r, h, index).(nread := p.nread + |HeadText(r)| - 1), HeadAtoms(r))
  {
    hide Goes, StatusText, HeaderText, HeaderAtoms, FlagsAfterAll, LengthAfterAll, AreFields, AreHeaders;
    StatusLineGoes(answersOne, p, r);
    var q := StatusRead(p, r);
    h, index := HeadersGo(answersOne, q, r.headers);
    var t := AfterHeaders(q, r.headers, h, index);
    EmptyHeaders(r.headers);
    GoesOn(answersOne, p, StatusText(r), q, STARTED, HeaderText(r.headers), t, HeaderAtoms(r.headers));
    BlankGoes(answersOne, t);
    h, index := t.headerState, t.index;
    var u := Read(t, 1).(state := HeadersAlmostDone);
    assert u == HeadRead(p, r, h, index).(nread := p.nread + |HeadText(r)| - 1);
    GoesOn(answersOne, p, StatusText(r) + HeaderText(r.headers), t, HeadAtoms(r), [CR], u, []);
    assert HeadAtoms(r) + [] == HeadAtoms(r);
  }

  /** Section 3.3.3 of RFC 7230, as far as the parser follows it: how a response goes on. */
  datatype Rest = NewProtocol | Chunks | Exactly(n: nat) | Nothing | AllThereIs

  predicate Says(hs: seq<(string, string)>, what: ((string, string)) -> bool) { exists h :: h in hs && what(h) }

  function RestOf(r: Response): Rest
    requires AreFields(r.headers)
  {
    if Says(r.headers, AsksUpgrade) then NewProtocol
    else if Says(r.headers, SaysChunked) then Chunks
    else if LengthGiven(r.headers).Some? then
      if LengthGiven(r.headers).value == 0 then Nothing else Exactly(LengthGiven(r.headers).value)
    else if 100 <= r.code <= 199 || r.code == 204 || r.code == 304 then Nothing
    else AllThereIs
  }

  /** Whether another response may follow on the connection. */
  predicate Persists(r: Response)
    requires AreFields(r.headers)
  {
    && RestOf(r) != AllThereIs && (RestOf(r) == NewProtocol ==> Delimited(r))
    && if r.major > 0 && r.minor > 0 then !Says(r.headers, SaysClose) else Says(r.headers, SaysKeepAlive)
  }

  /** The message has an end of its own. */
  predicate Delimited(r: Response)
    requires AreFields(r.headers)
  {
    || Says(r.headers, SaysChunked) || LengthGiven(r.headers).Some?
    || 100 <= r.code <= 199 || r.code == 204 || r.code == 304
  }

  /** The fields when the headers are complete. */
  predicate Seen(e: Parser, r: Response)
    requires AreHeaders(r.headers)
  {
    && e.kind == Kind.Response && e.major == r.major && e.minor == r.minor && e.statusCode == r.code
    && e.errno == OK && e.nread == 0
    && e.flags == FlagsAfterAll(NO_FLAGS, r.headers) && e.contentLength == LengthAfterAll(U64_MAX, r.headers)
    && e.upgrade == e.flags.upgrade
  }

  lemma SeenFraming(e: Parser, r: Response)
    requires IsResponse(r) && AreHeaders(r.headers) && Seen(e, r)
    ensures FramingOf(e) ==
      match RestOf(r)
      case NewProtocol => Handover
      case Chunks => InChunks
      case Exactly(n) => OfLength(n)
      case Nothing => NoBody
      case AllThereIs => UntilEof
    ensures NewMessage(e) == if Persists(r) then StartRes else Dead
  {
    hide FlagsAfterAll, LengthAfterAll, SaysChunked, SaysKeepAlive, SaysClose, AsksUpgrade, IsField, AreFields, LengthGiven,
         AreHeaders, Dec;
    AllFieldFlags(NO_FLAGS, r.headers);
    LengthsAfterAll(U64_MAX, r.headers);
    LengthBelow(r.headers);
    CodeClass(r.code);
  }

  lemma CodeClass(code: nat)
    ensures code / 100 == 1 <==> 100 <= code <= 199
  {
  }

  lemma LengthBelow(hs: seq<(string, string)>)
    requires AreFields(hs)
    ensures LengthGiven(hs).Some? ==> LengthGiven(hs).value < U64_MAX
  {
    hide IsField, GivesLength;
  }

  /** A response read from its text: what is told of its head, and how the rest of the input is taken. */
  lemma ResponseRead(answersOne: Parser -> bool, p: Parser, r: Response, rest: string) returns (e: Parser)
    requires Waits(p) && p.verb != CONNECT && IsResponse(r) && p.nread + |HeadText(r)| <= 81920 && forall x :: !answersOne(x)
    ensures e.errno == OK && e.kind == Kind.Response && e.nread == 0 && e.statusCode == r.code
    ensures var n := |HeadText(r)|;
            var next := e.(state := if Persists(r) then StartRes else Dead);
            Run(answersOne, p, HeadText(r) + rest) ==
              match RestOf(r)
              case NewProtocol => HttpRun.Result(next, HeadAtoms(r) + TOLD_ALL, n, Upgraded)
              case Nothing => Run(answersOne, next, rest).After(HeadAtoms(r) + TOLD_ALL, n)
              case Chunks => Run(answersOne, e.(state := ChunkSizeStart), rest).After(HeadAtoms(r) + TOLD, n)
              case Exactly(_) => Run(answersOne, e.(state := BodyIdentity), rest).After(HeadAtoms(r) + TOLD, n)
              case AllThereIs => Run(answersOne, e.(state := BodyIdentityEof), rest).After(HeadAtoms(r) + TOLD, n)
    ensures RestOf(r).Exactly? ==> e.contentLength == RestOf(r).n
  {
    hide Run, HeadAtoms, FlagsAfterAll, LengthAfterAll, Goes, FramingOf, NewMessage, AreFields, AreHeaders, StatusText, HeaderText,
         RestOf, Persists;
    AllFieldsAreHeaders(r.headers);
    var h, index := HeadGoes(answersOne, p, r);
    var n := |HeadText(r)|;
    var head := StatusText(r) + HeaderText(r.headers) + [CR];
    var q := HeadRead(p, r, h, index).(nread := p.nread + n - 1);
    GoesThen(answersOne, p, head, q, HeadAtoms(r), [LF] + rest);
    assert head + ([LF] + rest) == HeadText(r) + rest;
    FlagsNeverTrailing(NO_FLAGS, r.headers);
    HeadersEnd(answersOne, q, rest);
    e := HeadersSeen(answersOne, Read(q, 1));
    SeenFraming(e, r);
    LengthSeen(e, r);
    var next := e.(state := NewMessage(e));
    AfterAfter(Run(answersOne, next, rest), HeadAtoms(r), n - 1, TOLD_ALL, 1);
    AfterAfter(Run(answersOne, e.(state := ChunkSizeStart), rest), HeadAtoms(r), n - 1, TOLD, 1);
    AfterAfter(Run(answersOne, e.(state := BodyIdentity), rest), HeadAtoms(r), n - 1, TOLD, 1);
    AfterAfter(Run(answersOne, e.(state := BodyIdentityEof), rest), HeadAtoms(r), n - 1, TOLD, 1);
  }

  lemma LengthSeen(e: Parser, r: Response)
    requires IsResponse(r) && AreHeaders(r.headers) && Seen(e, r)
    ensures RestOf(r).Exactly? ==> e.contentLength == RestOf(r).n
  {
    hide LengthAfterAll, FlagsAfterAll, AreFields, AreHeaders, LengthGiven, SaysChunked, AsksUpgrade, Dec;
    LengthsAfterAll(U64_MAX, r.headers);
  }

  // ---------------------------------------------------------------- bodies up to the end of the input

  lemma EofByte(answersOne: Parser -> bool, p: Parser, ch: char)
    requires p.state.BodyIdentityEof?
    ensures Switch(answersOne, p, ch) == Go(p)
  {
  }

  /** All that comes is the body. */
  lemma {:induction false} ToTheEndGoes(answersOne: Parser -> bool, p: Parser, s: string)
    requires p.errno == OK && p.state.BodyIdentityEof?
    ensures Goes(answersOne, p, s, p, BytesOf(Body, s))
    decreases |s|
  {
    hide Run, Settle, Switch, BytesOf;
    if s == "" {
      HttpSplit.RunNothing(answersOne, p);
      assert BytesOf(Body, s) == [] by { ByteCount(Body, s); }
    } else {
      EofByte(answersOne, p, s[0]);
      SettleCons(answersOne, p, s[0]);
      RunCons(answersOne, p, s);
      ToTheEndGoes(answersOne, p, s[1..]);
      assert Own(p, Go(p), s[0]) + Tail(p.state, s[0]) == [HttpTypes.Byte(Body, s[0])];
      HttpSplit.BytesOfConcat(Body, [s[0]], s[1..]);
      ByteAlone(Body, s[0]);
      assert s == [s[0]] + s[1..];
    }
  }
}
