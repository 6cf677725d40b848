/** The parser taken one byte at a time: the reference that the buffered loop of
    `http_parser_execute` is proved against, and the invariant of its states. */
module HttpRun {
  import opened Options
  import opened HttpTypes
  import opened HttpSwitch

  // ---------------------------------------------------------------- the reference

  datatype Exit = Running | Failed | Upgraded

  /** Fields at the end, what the callbacks were told, bytes consumed, and why it ended. */
  datatype Result = Result(p: Parser, atoms: seq<Atom>, used: nat, exit: Exit)
  {
    function After(atoms0: seq<Atom>, used0: nat): Result {
      Result(p, atoms0 + atoms, used0 + used, exit)
    }
  }

  /** The states in which the current byte belongs to a callback's data. */
  function MarkOf(s: State): (k: Option<DataKind>)
    ensures k != Some(Body)
    ensures InBody(s) || s.ChunkDataAlmostDone? || s.MessageDone? || s.HeadersDone? ==> k == None
  {
    match s
    case HeaderField => Some(Field)
    case HeaderValue => Some(Value)
    case ReqSchema | ReqSchemaSlash | ReqSchemaSlashSlash | ReqServerStart | ReqServer | ReqServerWithAt
      | ReqPath | ReqQueryStringStart | ReqQueryString | ReqFragmentStart | ReqFragment => Some(Url)
    case _ => None
  }

  function Tail(s: State, ch: char): seq<Atom> {
    match MarkOf(s) case None => [] case Some(k) => [Byte(k, ch)]
  }

  /** Re-execution of a byte goes down in this order. */
  function Rank(s: State): nat {
    if s.HeaderValueLws? then 3
    else if s.HeaderFieldStart? then 2
    else if s.StartReqOrRes? || s.HeaderValue? || s.HeadersAlmostDone? || s.BodyIdentity? then 1
    else 0
  }

  lemma ReexecutionDescends(answersOne: Parser -> bool, p: Parser, ch: char)
    ensures var o := Switch(answersOne, p, ch);
            o.flow == Reexecute ==> Rank(o.p.state) < Rank(p.state)
  {
    hide HttpTypes.Word.Spelling, HttpTypes.Method.Name, FieldToken, Token, Lower, ParseUrlChar;
    match ArmOf(p.state)
    case StartArm =>
    case FieldStartArm =>
    case ValueArm =>
    case HeaderEndArm =>
    case HeadersAlmostDoneArm =>
    case BodyArm =>
    case _ =>
  }

  function Own(p: Parser, o: Outcome, ch: char): seq<Atom> {
    (if InBody(p.state) then [Byte(Body, ch)] else []) + Signals(o.notify)
  }

  /** The switch, and again while it asks for the byte to be executed again. */
  function Settle(answersOne: Parser -> bool, p: Parser, ch: char): Result
    decreases Rank(p.state)
  {
    ReexecutionDescends(answersOne, p, ch);
    var o := Switch(answersOne, p, ch);
    var own := Own(p, o, ch);
    match o.flow
    case Advance => Result(o.p, own + Tail(o.p.state, ch), 1, Running)
    case Leave => Result(o.p, own, 1, Upgraded)
    case Stop => Result(o.p, own, 0, Failed)
    case Reexecute => Settle(answersOne, o.p, ch).After(own, 0)
  }

  /** `nread` counts header bytes, and is checked, before the switch. */
  function Counted(p: Parser): Parser {
    if ParsingHeader(p.state) then p.(nread := p.nread + 1) else p
  }

  predicate Overflows(p: Parser) { ParsingHeader(p.state) && p.nread + 1 > MAX_HEADER_SIZE }

  function Step(answersOne: Parser -> bool, p: Parser, ch: char): Result {
    if Overflows(p) then Result(Counted(p).(errno := HeaderOverflow), [], 0, Failed)
    else Settle(answersOne, Counted(p), ch)
  }

  function Run(answersOne: Parser -> bool, p: Parser, data: string): Result
    decreases |data|
  {
    if p.errno != OK then Result(p, [], 0, Failed)
    else if data == [] then Result(p, [], 0, Running)
    else
      var r := Step(answersOne, p, data[0]);
      if r.exit == Running then Run(answersOne, r.p, data[1..]).After(r.atoms, 1) else r
  }

  // ---------------------------------------------------------------- invariant

  predicate Unfinished(index: nat, word: Word) { index + 1 < word.Length() }

  /** What a header-name matcher may look like while the name is being read. */
  predicate FieldSound(h: HeaderState, index: nat) {
    if h.General? || h.Connection? || h.ContentLength? || h.TransferEncoding? || h.Upgrade? then true
    else if h.C? then index == 0
    else if h.CO? then index == 1
    else if h.CON? then index == 2
    else if h.MatchingConnection? then Unfinished(index, CONNECTION)
    else if h.MatchingProxyConnection? then Unfinished(index, PROXY_CONNECTION)
    else if h.MatchingContentLength? then Unfinished(index, CONTENT_LENGTH)
    else if h.MatchingTransferEncoding? then Unfinished(index, TRANSFER_ENCODING)
    else h.MatchingUpgrade? && Unfinished(index, UPGRADE)
  }

  predicate ValueSound(h: HeaderState, index: nat) {
    if h.General? || h.ContentLength? || h.Chunked? || h.KeepAlive? || h.Close? then true
    else if h.MatchingChunked? then Unfinished(index, CHUNKED)
    else if h.MatchingKeepAlive? then Unfinished(index, KEEP_ALIVE)
    else h.MatchingClose? && Unfinished(index, CLOSE)
  }

  predicate Sound(p: Parser) {
    && p.errno == OK
    && p.index < 256 && p.contentLength <= U64_MAX && p.nread <= MAX_HEADER_SIZE
    && p.major <= 999 && p.minor <= 999 && p.statusCode <= 999
    && (p.state.ReqMethod? ==> p.index <= NameLength(p.verb))
    && (p.state.HeaderField? ==> FieldSound(p.headerState, p.index))
    && (p.state.HeaderValue? ==> ValueSound(p.headerState, p.index))
    && (p.state.ChunkSizeStart? || p.state.ChunkDataDone? ==> p.flags.chunked)
    && (p.state.ChunkSize? || p.state.ChunkParameters? || p.state.ChunkSizeAlmostDone? ==>
          p.flags.chunked && p.contentLength < U64_MAX)
    && (p.state.ChunkData? ==> p.flags.chunked && 0 < p.contentLength < U64_MAX)
    && (p.state.ChunkDataAlmostDone? ==> p.flags.chunked && p.contentLength == 0)
    && (p.state.BodyIdentity? ==> 0 < p.contentLength < U64_MAX)
  }

  /** Between two bytes. */
  predicate Inv(p: Parser) {
    Sound(p) && !p.state.HeadersDone? && !p.state.MessageDone? && (p.state.ChunkSizeStart? ==> p.nread == 0)
  }

  /** On entry to the switch: what the source asserts there, and that its table
      and literal look-ups stay within their arrays. */
  predicate Entry(p: Parser) {
    Sound(p) && (p.state.ChunkSizeStart? ==> p.nread == 1)
  }

  /** http_parser_init. */
  function Init(k: Kind): Parser {
    Parser(k, NO_FLAGS, match k case Request => StartReq case Response => StartRes case Both => StartReqOrRes,
           General, 0, 0, 0, 0, 0, 0, DELETE, OK, false)
  }

  /** What the switch owes to whoever executes the next byte. */
  predicate Kept(o: Outcome) {
    match o.flow
    case Advance => Inv(o.p)
    case Leave => Inv(o.p)
    case Reexecute => Entry(o.p)
    case Stop => o.p.errno != OK
  }

  lemma StartKeeps(p: Parser, ch: char)
    requires Entry(p) && ArmOf(p.state) == StartArm
    ensures Kept(StartByte(p, ch))
  {
    hide FieldSound, ValueSound;
  }

  lemma MethodKeeps(p: Parser, ch: char)
    requires Entry(p) && p.state.ReqMethod?
    ensures Kept(MethodByte(p, ch))
  {
    hide FieldSound, ValueSound, HttpTypes.Method.Name;
    NameLengths(p.verb);
  }

  /** States about which the invariant has nothing to add. */
  predicate Free(s: State) {
    s.ReqHttpStart? || s.ReqHttpH? || s.ReqHttpHT? || s.ReqHttpHTT? || s.ReqHttpHTTP? || s.ReqFirstHttpMajor?
    || s.ReqHttpMajor? || s.ReqFirstHttpMinor? || s.ReqHttpMinor? || s.ReqLineAlmostDone? || s.HeaderFieldStart?
    || s.ResH? || s.ResHT? || s.ResHTT? || s.ResHTTP? || s.ResFirstHttpMajor? || s.ResHttpMajor?
    || s.ResFirstHttpMinor? || s.ResHttpMinor? || s.ResFirstStatusCode? || s.StartRes?
    || s.ReqSpacesBeforeUrl? || MarkOf(s) == Some(Url)
  }

  /** A byte of the first line, read or refused. */
  predicate Versioned(p: Parser, o: Outcome) {
    if o.flow == Stop then o.p.errno != OK
    else
      && o.flow == Advance && Free(o.p.state)
      && o.p == p.(state := o.p.state, major := o.p.major, minor := o.p.minor)
      && o.p.major <= 999 && o.p.minor <= 999
  }

  lemma VersionKeeps(p: Parser, o: Outcome)
    requires Sound(p) && Versioned(p, o)
    ensures Kept(o)
  {
    hide FieldSound, ValueSound, NameLength;
  }

  lemma UrlKeeps(p: Parser, ch: char)
    requires Entry(p) && ArmOf(p.state) == UrlArm
    ensures Kept(UrlByte(p, ch))
  {
    hide Kept, UrlByte;
    UrlVersioned(p, ch);
    VersionKeeps(p, UrlByte(p, ch));
  }

  lemma UrlVersioned(p: Parser, ch: char)
    requires p.major <= 999 && p.minor <= 999 && ArmOf(p.state) == UrlArm
    ensures Versioned(p, UrlByte(p, ch))
  {
    hide ParseUrlChar;
    ParseUrlCharStates(p.state, ch);
    ParseUrlCharStates(ReqServerStart, ch);
  }

  lemma ReqVersionKeeps(p: Parser, ch: char)
    requires Entry(p) && ArmOf(p.state) == ReqVersionArm
    ensures Kept(ReqVersionByte(p, ch))
  {
    hide Kept, ReqVersionByte;
    ReqVersioned(p, ch);
    VersionKeeps(p, ReqVersionByte(p, ch));
  }

  lemma ResVersionKeeps(p: Parser, ch: char)
    requires Entry(p) && ArmOf(p.state) == ResVersionArm
    ensures Kept(ResVersionByte(p, ch))
  {
    hide Kept, ResVersionByte;
    ResVersioned(p, ch);
    VersionKeeps(p, ResVersionByte(p, ch));
  }

  lemma ReqVersioned(p: Parser, ch: char)
    requires p.major <= 999 && p.minor <= 999 && ArmOf(p.state) == ReqVersionArm
    ensures Versioned(p, ReqVersionByte(p, ch))
  {
    hide MarkOf;
  }

  lemma ResVersioned(p: Parser, ch: char)
    requires p.major <= 999 && p.minor <= 999 && ArmOf(p.state) == ResVersionArm
    ensures Versioned(p, ResVersionByte(p, ch))
  {
    hide MarkOf;
  }

  lemma StatusKeeps(p: Parser, ch: char)
    requires Entry(p) && ArmOf(p.state) == StatusArm
    ensures Kept(StatusByte(p, ch))
  {
    hide FieldSound, ValueSound, NameLength;
  }

  lemma FieldStartKeeps(p: Parser, ch: char)
    requires Entry(p)
    ensures Kept(FieldStartByte(p, ch))
  {
    hide ValueSound, NameLength, Token;
  }

  lemma FieldKeeps(p: Parser, ch: char)
    requires Entry(p) && p.state.HeaderField?
    ensures Kept(FieldByte(p, ch))
  {
    hide HttpTypes.Word.Spelling, FieldSound, ValueSound, NameLength, Token;
    FieldTokenKeeps(p, ch, Token(ch));
  }

  lemma MatchKeeps(p: Parser, word: Word, c: char, done: HeaderState)
    requires Unfinished(p.index, word)
    ensures var q := Match(p, word, c, done);
            && q.(index := p.index, headerState := p.headerState) == p && q.index < 256
            && (q.headerState == General || q.headerState == done
                || (q.headerState == p.headerState && Unfinished(q.index, word)))
  {
    hide HttpTypes.Word.Spelling;
  }

  lemma FieldTokenKeeps(p: Parser, ch: char, c: char)
    requires FieldSound(p.headerState, p.index) && p.index < 256
    ensures var q := FieldToken(p, ch, c);
            FieldSound(q.headerState, q.index) && q.index < 256
            && q.(index := p.index, headerState := p.headerState) == p
  {
    hide Match;
    match p.headerState
    case MatchingConnection => MatchKeeps(p, CONNECTION, c, Connection);
    case MatchingProxyConnection => MatchKeeps(p, PROXY_CONNECTION, c, Connection);
    case MatchingContentLength => MatchKeeps(p, CONTENT_LENGTH, c, ContentLength);
    case MatchingTransferEncoding => MatchKeeps(p, TRANSFER_ENCODING, c, TransferEncoding);
    case MatchingUpgrade => MatchKeeps(p, UPGRADE, c, Upgrade);
    case _ =>
  }

  lemma ValueStartKeeps(p: Parser, ch: char)
    requires Entry(p) && p.state.HeaderValueStart?
    ensures Kept(ValueStartByte(p, ch))
  {
    hide FieldSound, NameLength;
  }

  lemma ValueKeeps(p: Parser, ch: char)
    requires Entry(p) && p.state.HeaderValue?
    ensures Kept(ValueByte(p, ch))
  {
    hide Match, FieldSound, NameLength, Lower;
    if p.headerState.MatchingChunked? {
      MatchKeeps(p, CHUNKED, Lower(ch), Chunked);
    } else if p.headerState.MatchingKeepAlive? {
      MatchKeeps(p, KEEP_ALIVE, Lower(ch), KeepAlive);
    } else if p.headerState.MatchingClose? {
      MatchKeeps(p, CLOSE, Lower(ch), Close);
    }
  }

  lemma HeaderEndKeeps(p: Parser, ch: char)
    requires Entry(p)
    ensures Kept(HeaderEndByte(p, ch))
  {
    hide FieldSound, ValueSound, NameLength;
  }

  lemma HeadersAlmostDoneKeeps(answersOne: Parser -> bool, p: Parser, ch: char)
    requires Entry(p)
    ensures Kept(HeadersAlmostDoneByte(answersOne, p, ch))
  {
    hide FieldSound, ValueSound, NameLength;
  }

  lemma HeadersDoneKeeps(p: Parser, ch: char)
    requires Entry(p)
    ensures Kept(HeadersDoneByte(p, ch))
  {
    hide FieldSound, ValueSound, NameLength;
  }

  lemma BodyKeeps(p: Parser)
    requires Entry(p) && InBody(p.state)
    ensures Kept(BodyByte(p))
  {
    hide FieldSound, ValueSound, NameLength;
  }

  lemma ChunkKeeps(p: Parser, ch: char)
    requires Entry(p) && ArmOf(p.state) == ChunkArm
    ensures Kept(ChunkByte(p, ch))
  {
    hide FieldSound, ValueSound, NameLength;
  }

  lemma SwitchKeeps(answersOne: Parser -> bool, p: Parser, ch: char)
    requires Entry(p)
    ensures Kept(Switch(answersOne, p, ch))
  {
    hide Kept, StartByte, MethodByte, UrlByte, ReqVersionByte, ResVersionByte, StatusByte, FieldStartByte, FieldByte,
         ValueStartByte, ValueByte, HeaderEndByte, HeadersAlmostDoneByte, HeadersDoneByte, BodyByte, ChunkByte;
    match ArmOf(p.state)
    case StartArm => StartKeeps(p, ch);
    case ResVersionArm => ResVersionKeeps(p, ch);
    case StatusArm => StatusKeeps(p, ch);
    case MethodArm => MethodKeeps(p, ch);
    case UrlArm => UrlKeeps(p, ch);
    case ReqVersionArm => ReqVersionKeeps(p, ch);
    case FieldStartArm => FieldStartKeeps(p, ch);
    case FieldArm => FieldKeeps(p, ch);
    case ValueStartArm => ValueStartKeeps(p, ch);
    case ValueArm => ValueKeeps(p, ch);
    case HeaderEndArm => HeaderEndKeeps(p, ch);
    case HeadersAlmostDoneArm => HeadersAlmostDoneKeeps(answersOne, p, ch);
    case HeadersDoneArm => HeadersDoneKeeps(p, ch);
    case BodyArm => BodyKeeps(p);
    case MessageDoneArm => MessageDoneKeeps(answersOne, p, ch);
    case ChunkArm => ChunkKeeps(p, ch);
  }

  lemma MessageDoneKeeps(answersOne: Parser -> bool, p: Parser, ch: char)
    requires Entry(p) && p.state.MessageDone?
    ensures Kept(Switch(answersOne, p, ch))
  {
    hide FieldSound, ValueSound, NameLength;
  }

  /** A URL byte leads to a URL state, or nowhere. */
  lemma ParseUrlCharStates(s: State, ch: char)
    ensures ParseUrlChar(s, ch).Dead? || MarkOf(ParseUrlChar(s, ch)) == Some(Url)
  {
  }

  lemma SettleKeeps(answersOne: Parser -> bool, p: Parser, ch: char)
    requires Entry(p)
    ensures var r := Settle(answersOne, p, ch);
            if r.exit == Failed then r.p.errno != OK else Inv(r.p)
    decreases Rank(p.state)
  {
    hide Switch, Entry, Inv;
    SwitchKeeps(answersOne, p, ch);
    ReexecutionDescends(answersOne, p, ch);
    var o := Switch(answersOne, p, ch);
    if o.flow == Reexecute {
      SettleKeeps(answersOne, o.p, ch);
    }
  }

  lemma CountedEnters(p: Parser)
    requires Inv(p) && !Overflows(p)
    ensures Entry(Counted(p)) && Counted(p).state == p.state
  {
    hide FieldSound, ValueSound, NameLength;
  }
}
