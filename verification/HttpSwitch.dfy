/** The switch in the middle of `http_parser_execute` (base/http_parser.cc:684-2066),
    strict mode: what one byte does in one state. */
module HttpSwitch {
  import opened Options
  import opened HttpTypes

  // ---------------------------------------------------------------- characters

  function Lower(c: char): (r: char) {
    var i := c as int;
    if i < 256 && (i / 32) % 2 == 0 then (i + 32) as char else c
  }

  predicate IsAlpha(c: char) { 'a' <= Lower(c) <= 'z' }

  predicate IsNum(c: char) { '0' <= c <= '9' }

  predicate IsAlphaNum(c: char) { IsAlpha(c) || IsNum(c) }

  predicate IsMark(c: char) {
    c == '-' || c == '_' || c == '.' || c == '!' || c == '~' || c == '*' || c == '\'' || c == '(' || c == ')'
  }

  predicate IsUserinfoChar(c: char) {
    IsAlphaNum(c) || IsMark(c) || c == '%' || c == ';' || c == ':' || c == '&' || c == '='
    || c == '+' || c == '$' || c == ','
  }

  /** `normal_url_char` in strict mode: the printable characters but for '#' and '?'. */
  predicate IsUrlChar(c: char) { '!' <= c <= '~' && c != '#' && c != '?' }

  /** The table `tokens`: RFC 2616 tokens, lower-cased; NUL for the rest. */
  function Token(c: char): char {
    if 'A' <= c <= 'Z' then Lower(c)
    else if 'a' <= c <= 'z' || IsNum(c) || IsTokenMark(c) then c
    else '\0'
  }

  predicate IsTokenMark(c: char) {
    c == '!' || ('#' <= c <= '\'') || c == '*' || c == '+' || c == '-' || c == '.' || c == '^' || c == '_'
    || c == '`' || c == '|' || c == '~'
  }

  function Digit(c: char): int { c as int - '0' as int }

  /** The table `unhex`. Its upper half is not written out in the source, so
      the bytes from 128 on read as zero and not as -1. */
  function Unhex(c: char): int {
    if IsNum(c) then Digit(c)
    else if 'A' <= c <= 'F' then c as int - 'A' as int + 10
    else if 'a' <= c <= 'f' then c as int - 'a' as int + 10
    else if c as int >= 128 then 0
    else -1
  }

  /** C string indexing: the terminator is there to be read. */
  function CharAt(s: string, i: nat): char { if i < |s| then s[i] else '\0' }

  // ---------------------------------------------------------------- queries

  predicate NeedsEof(p: Parser) {
    p.kind != Request
    && !(p.statusCode / 100 == 1 || p.statusCode == 204 || p.statusCode == 304 || p.flags.skipBody)
    && !(p.flags.chunked || p.contentLength != U64_MAX)
  }

  predicate ShouldKeepAlive(p: Parser) {
    (if p.major > 0 && p.minor > 0 then !p.flags.close else p.flags.keepAlive)
    && !NeedsEof(p)
  }

  function NewMessage(p: Parser): State {
    if ShouldKeepAlive(p) then (if p.kind == Request then StartReq else StartRes) else Dead
  }

  predicate ParsingHeader(s: State) {
    !(s.ChunkData? || s.ChunkDataAlmostDone? || s.ChunkDataDone? || s.BodyIdentity? || s.BodyIdentityEof?
      || s.MessageDone?)
  }

  // ---------------------------------------------------------------- URLs

  function ParseUrlChar(s: State, ch: char): State {
    if ch == ' ' || ch == CR || ch == LF || ch == '\t' || ch as int == 12 then Dead
    else
      match s
      case ReqSpacesBeforeUrl =>
        if ch == '/' || ch == '*' then ReqPath else if IsAlpha(ch) then ReqSchema else Dead
      case ReqSchema =>
        if IsAlpha(ch) then ReqSchema else if ch == ':' then ReqSchemaSlash else Dead
      case ReqSchemaSlash => if ch == '/' then ReqSchemaSlashSlash else Dead
      case ReqSchemaSlashSlash => if ch == '/' then ReqServerStart else Dead
      case ReqServerWithAt => if ch == '@' then Dead else ServerChar(ch)
      case ReqServerStart | ReqServer => ServerChar(ch)
      case ReqPath =>
        if IsUrlChar(ch) then ReqPath
        else if ch == '?' then ReqQueryStringStart else if ch == '#' then ReqFragmentStart else Dead
      case ReqQueryStringStart | ReqQueryString =>
        if IsUrlChar(ch) || ch == '?' then ReqQueryString else if ch == '#' then ReqFragmentStart else Dead
      case ReqFragmentStart =>
        if IsUrlChar(ch) || ch == '?' then ReqFragment else if ch == '#' then ReqFragmentStart else Dead
      case ReqFragment => if IsUrlChar(ch) || ch == '?' || ch == '#' then ReqFragment else Dead
      case _ => Dead
  }

  function ServerChar(ch: char): State {
    if ch == '/' then ReqPath
    else if ch == '?' then ReqQueryStringStart
    else if ch == '@' then ReqServerWithAt
    else if IsUserinfoChar(ch) || ch == '[' || ch == ']' then ReqServer
    else Dead
  }

  // ---------------------------------------------------------------- outcomes

  datatype Flow = Advance | Reexecute | Leave | Stop

  /** New fields; then the mark set, the mark flushed to its data callback and the
      notification sent, in this order; then where control goes. */
  datatype Outcome = Outcome(p: Parser, mark: Option<DataKind>, flush: Option<DataKind>,
                             notify: Option<Notice>, flow: Flow)

  function Go(p: Parser): Outcome { Outcome(p, None, None, None, Advance) }

  function Fail(p: Parser, e: Errno): Outcome { Outcome(p.(errno := e), None, None, None, Stop) }

  function Flush(p: Parser, k: DataKind): Outcome { Outcome(p, None, Some(k), None, Advance) }

  function Tell(p: Parser, n: Notice): Outcome { Outcome(p, None, None, Some(n), Advance) }

  function Again(p: Parser): Outcome { Outcome(p, None, None, None, Reexecute) }

  /** STRICT_CHECK on one expected byte. */
  function Expect(p: Parser, ch: char, want: char, s: State): Outcome {
    if ch != want then Fail(p, StrictViolation) else Go(p.(state := s))
  }

  // ---------------------------------------------------------------- start of a message

  function Fresh(p: Parser): Parser { p.(flags := NO_FLAGS, contentLength := U64_MAX) }

  function StartByte(p: Parser, ch: char): Outcome {
    if p.state.Dead? then if ch == CR || ch == LF then Go(p) else Fail(p, ClosedConnection)
    else if p.state.StartReqOrRes? then
      if ch == CR || ch == LF then Go(p)
      else if ch == 'H' then Tell(Fresh(p).(state := ResOrRespH), MessageBegin)
      else Again(Fresh(p).(kind := Request, state := StartReq))
    else if p.state.ResOrRespH? then
      if ch == 'T' then Go(p.(kind := Response, state := ResHT))
      else if ch != 'E' then Fail(p, InvalidConstant)
      else Go(p.(kind := Request, verb := HEAD, index := 2, state := ReqMethod))
    else if p.state.StartRes? then
      if ch == 'H' then Tell(Fresh(p).(state := ResH), MessageBegin)
      else if ch == CR || ch == LF then Tell(Fresh(p), MessageBegin)
      else Fail(Fresh(p), InvalidConstant)
    else StartReqByte(p, ch)
  }

  function FirstLetter(ch: char): Option<Method> {
    match ch
    case 'C' => Some(CONNECT)
    case 'D' => Some(DELETE)
    case 'G' => Some(GET)
    case 'H' => Some(HEAD)
    case 'L' => Some(LOCK)
    case 'M' => Some(MKCOL)
    case 'N' => Some(NOTIFY)
    case 'O' => Some(OPTIONS)
    case 'P' => Some(POST)
    case 'R' => Some(REPORT)
    case 'S' => Some(SUBSCRIBE)
    case 'T' => Some(TRACE)
    case 'U' => Some(UNLOCK)
    case _ => None
  }

  function StartReqByte(p: Parser, ch: char): Outcome {
    if ch == CR || ch == LF then Go(p)
    else if !IsAlpha(ch) then Fail(Fresh(p), InvalidMethod)
    else
      match FirstLetter(ch)
      case None => Fail(Fresh(p).(verb := DELETE, index := 1), InvalidMethod)
      case Some(m) => Tell(Fresh(p).(verb := m, index := 1, state := ReqMethod), MessageBegin)
  }

  /** The method the parser changes its mind to when `ch` is not the next letter. */
  function Switched(m: Method, index: nat, ch: char): Option<Method> {
    if m == CONNECT then
      if index == 1 && ch == 'H' then Some(CHECKOUT)
      else if index == 2 && ch == 'P' then Some(COPY)
      else None
    else if m == MKCOL then
      if index == 1 && ch == 'O' then Some(MOVE)
      else if index == 1 && ch == 'E' then Some(MERGE)
      else if index == 1 && ch == '-' then Some(MSEARCH)
      else if index == 2 && ch == 'A' then Some(MKACTIVITY)
      else None
    else if m == SUBSCRIBE then
      if index == 1 && ch == 'E' then Some(SEARCH) else None
    else if index == 1 && m == POST then
      if ch == 'R' then Some(PROPFIND)
      else if ch == 'U' then Some(PUT)
      else if ch == 'A' then Some(PATCH)
      else None
    else if index == 2 then
      if m == PUT then (if ch == 'R' then Some(PURGE) else None)
      else if m == UNLOCK then (if ch == 'S' then Some(UNSUBSCRIBE) else None)
      else None
    else if index == 4 && m == PROPFIND && ch == 'P' then Some(PROPPATCH)
    else None
  }

  /** `parser->index` is an unsigned char. */
  function Bump(p: Parser): Parser { p.(index := (p.index + 1) % 256) }

  function MethodByte(p: Parser, ch: char): Outcome {
    var want := CharAt(p.verb.Name(), p.index);
    if ch == '\0' then Fail(p, InvalidMethod)
    else if ch == ' ' && want == '\0' then Go(Bump(p.(state := ReqSpacesBeforeUrl)))
    else if ch == want then Go(Bump(p))
    else
      match Switched(p.verb, p.index, ch)
      case None => Fail(p, InvalidMethod)
      case Some(m) => Go(Bump(p.(verb := m)))
  }

  // ---------------------------------------------------------------- request line

  function UrlByte(p: Parser, ch: char): Outcome {
    if p.state.ReqSpacesBeforeUrl? then
      if ch == ' ' then Go(p)
      else
        var s := ParseUrlChar(if p.verb == CONNECT then ReqServerStart else p.state, ch);
        if s == Dead then Fail(p.(state := Dead), InvalidUrl)
        else Outcome(p.(state := s), Some(Url), None, None, Advance)
    else if p.state.ReqSchema? || p.state.ReqSchemaSlash? || p.state.ReqSchemaSlashSlash? || p.state.ReqServerStart? then
      if ch == ' ' || ch == CR || ch == LF then Fail(p, InvalidUrl) else UrlMore(p, ch)
    else
      if ch == ' ' then Flush(p.(state := ReqHttpStart), Url)
      else if ch == CR || ch == LF then
        Flush(p.(major := 0, minor := 9, state := if ch == CR then ReqLineAlmostDone else HeaderFieldStart), Url)
      else UrlMore(p, ch)
  }

  function UrlMore(p: Parser, ch: char): Outcome {
    var s := ParseUrlChar(p.state, ch);
    if s == Dead then Fail(p.(state := Dead), InvalidUrl) else Go(p.(state := s))
  }

  function ReqVersionByte(p: Parser, ch: char): Outcome {
    if p.state.ReqHttpStart? then
      if ch == 'H' then Go(p.(state := ReqHttpH)) else if ch == ' ' then Go(p) else Fail(p, InvalidConstant)
    else if p.state.ReqHttpH? then Expect(p, ch, 'T', ReqHttpHT)
    else if p.state.ReqHttpHT? then Expect(p, ch, 'T', ReqHttpHTT)
    else if p.state.ReqHttpHTT? then Expect(p, ch, 'P', ReqHttpHTTP)
    else if p.state.ReqHttpHTTP? then Expect(p, ch, '/', ReqFirstHttpMajor)
    else if p.state.ReqFirstHttpMajor? then
      if ch < '1' || ch > '9' then Fail(p, InvalidVersion)
      else Go(p.(major := Digit(ch), state := ReqHttpMajor))
    else if p.state.ReqHttpMajor? then MajorByte(p, ch, ReqFirstHttpMinor)
    else if p.state.ReqFirstHttpMinor? then
      if !IsNum(ch) then Fail(p, InvalidVersion) else Go(p.(minor := Digit(ch), state := ReqHttpMinor))
    else if p.state.ReqHttpMinor? then
      if ch == CR then Go(p.(state := ReqLineAlmostDone))
      else if ch == LF then Go(p.(state := HeaderFieldStart))
      else MinorByte(p, ch)
    else
      if ch != LF then Fail(p, LfExpected) else Go(p.(state := HeaderFieldStart))
  }

  function MajorByte(p: Parser, ch: char, dot: State): Outcome {
    if ch == '.' then Go(p.(state := dot))
    else if !IsNum(ch) then Fail(p, InvalidVersion)
    else
      var q := p.(major := p.major * 10 + Digit(ch));
      if q.major > 999 then Fail(q, InvalidVersion) else Go(q)
  }

  function MinorByte(p: Parser, ch: char): Outcome {
    if !IsNum(ch) then Fail(p, InvalidVersion)
    else
      var q := p.(minor := p.minor * 10 + Digit(ch));
      if q.minor > 999 then Fail(q, InvalidVersion) else Go(q)
  }

  // ---------------------------------------------------------------- status line

  function ResVersionByte(p: Parser, ch: char): Outcome {
    if p.state.ResH? then Expect(p, ch, 'T', ResHT)
    else if p.state.ResHT? then Expect(p, ch, 'T', ResHTT)
    else if p.state.ResHTT? then Expect(p, ch, 'P', ResHTTP)
    else if p.state.ResHTTP? then Expect(p, ch, '/', ResFirstHttpMajor)
    else if p.state.ResFirstHttpMajor? then
      if !IsNum(ch) then Fail(p, InvalidVersion) else Go(p.(major := Digit(ch), state := ResHttpMajor))
    else if p.state.ResHttpMajor? then MajorByte(p, ch, ResFirstHttpMinor)
    else if p.state.ResFirstHttpMinor? then
      if !IsNum(ch) then Fail(p, InvalidVersion) else Go(p.(minor := Digit(ch), state := ResHttpMinor))
    else
      if ch == ' ' then Go(p.(state := ResFirstStatusCode)) else MinorByte(p, ch)
  }

  function StatusByte(p: Parser, ch: char): Outcome {
    if p.state.ResFirstStatusCode? then
      if IsNum(ch) then Go(p.(statusCode := Digit(ch), state := ResStatusCode))
      else if ch == ' ' then Go(p) else Fail(p, InvalidStatus)
    else if p.state.ResStatusCode? then
      if IsNum(ch) then
        var q := p.(statusCode := p.statusCode * 10 + Digit(ch));
        if q.statusCode > 999 then Fail(q, InvalidStatus) else Go(q)
      else if ch == ' ' then Go(p.(state := ResStatus))
      else if ch == CR then Go(p.(state := ResLineAlmostDone))
      else if ch == LF then Go(p.(state := HeaderFieldStart))
      else Fail(p, InvalidStatus)
    else if p.state.ResStatus? then
      if ch == CR then Go(p.(state := ResLineAlmostDone))
      else if ch == LF then Go(p.(state := HeaderFieldStart))
      else Go(p)
    else
      if ch != LF then Fail(p, StrictViolation) else Tell(p.(state := HeaderFieldStart), StatusComplete)
  }

  // ---------------------------------------------------------------- header fields

  /** One step of a word matcher: on to the next letter of `word`, done, or given up. */
  function Match(p: Parser, word: Word, c: char, done: HeaderState): Parser {
    var q := Bump(p);
    if q.index > word.Length() || c != CharAt(word.Spelling(), q.index) then q.(headerState := General)
    else if q.index == word.Length() - 1 then q.(headerState := done)
    else q
  }

  function FieldStartByte(p: Parser, ch: char): Outcome {
    if ch == CR then Go(p.(state := HeadersAlmostDone))
    else if ch == LF then Again(p.(state := HeadersAlmostDone))
    else
      var c := Token(ch);
      if c == '\0' then Fail(p, InvalidHeaderToken)
      else
        var h :=
          if c == 'c' then C
          else if c == 'p' then MatchingProxyConnection
          else if c == 't' then MatchingTransferEncoding
          else if c == 'u' then MatchingUpgrade
          else General;
        Outcome(p.(index := 0, state := HeaderField, headerState := h), Some(Field), None, None, Advance)
  }

  function FieldToken(p: Parser, ch: char, c: char): Parser {
    var h := p.headerState;
    if h.C? then Bump(p).(headerState := if c == 'o' then CO else General)
    else if h.CO? then Bump(p).(headerState := if c == 'n' then CON else General)
    else if h.CON? then
      Bump(p).(headerState := if c == 'n' then MatchingConnection
                              else if c == 't' then MatchingContentLength else General)
    else if h.MatchingConnection? then Match(p, CONNECTION, c, Connection)
    else if h.MatchingProxyConnection? then Match(p, PROXY_CONNECTION, c, Connection)
    else if h.MatchingContentLength? then Match(p, CONTENT_LENGTH, c, ContentLength)
    else if h.MatchingTransferEncoding? then Match(p, TRANSFER_ENCODING, c, TransferEncoding)
    else if h.MatchingUpgrade? then Match(p, UPGRADE, c, Upgrade)
    else if h.Connection? || h.ContentLength? || h.TransferEncoding? || h.Upgrade? then
      if ch != ' ' then p.(headerState := General) else p
    else p
  }

  function FieldByte(p: Parser, ch: char): Outcome {
    var c := Token(ch);
    if c != '\0' then Go(FieldToken(p, ch, c))
    else if ch == ':' then Flush(p.(state := HeaderValueStart), Field)
    else if ch == CR then Flush(p.(state := HeaderAlmostDone), Field)
    else if ch == LF then Flush(p.(state := HeaderFieldStart), Field)
    else Fail(p, InvalidHeaderToken)
  }

  function ValueStartByte(p: Parser, ch: char): Outcome {
    if ch == ' ' || ch == '\t' then Go(p)
    else
      var q := p.(state := HeaderValue, index := 0);
      if ch == CR then
        Outcome(q.(headerState := General, state := HeaderAlmostDone), Some(Value), Some(Value), None, Advance)
      else if ch == LF then
        Outcome(q.(state := HeaderFieldStart), Some(Value), Some(Value), None, Advance)
      else
        var c := Lower(ch);
        var h := p.headerState;
        if h.Upgrade? then Marked(q.(flags := q.flags.(upgrade := true), headerState := General))
        else if h.TransferEncoding? then Marked(q.(headerState := if c == 'c' then MatchingChunked else General))
        else if h.ContentLength? then
          if !IsNum(ch) then Fail(q, InvalidContentLength) else Marked(q.(contentLength := Digit(ch)))
        else if h.Connection? then
          Marked(q.(headerState := if c == 'k' then MatchingKeepAlive
                                   else if c == 'c' then MatchingClose else General))
        else Marked(q.(headerState := General))
  }

  function Marked(p: Parser): Outcome { Outcome(p, Some(Value), None, None, Advance) }

  /** t = t * base + d on 64 bits, with the source's overflow test; None when it objects. */
  function Accumulate(n: nat, base: nat, d: nat): Option<nat> {
    var t := (((n * base) % U64) + d) % U64;
    if t < n || t == U64_MAX then None else Some(t)
  }

  function ValueByte(p: Parser, ch: char): Outcome {
    if ch == CR then Flush(p.(state := HeaderAlmostDone), Value)
    else if ch == LF then Outcome(p.(state := HeaderAlmostDone), None, Some(Value), None, Reexecute)
    else
      var c := Lower(ch);
      var h := p.headerState;
      if h.General? then Go(p)
      else if h.ContentLength? then
        if ch == ' ' then Go(p)
        else if !IsNum(ch) then Fail(p, InvalidContentLength)
        else (match Accumulate(p.contentLength, 10, Digit(ch))
              case None => Fail(p, InvalidContentLength)
              case Some(t) => Go(p.(contentLength := t)))
      else if h.MatchingChunked? then Go(Match(p, CHUNKED, c, Chunked))
      else if h.MatchingKeepAlive? then Go(Match(p, KEEP_ALIVE, c, KeepAlive))
      else if h.MatchingClose? then Go(Match(p, CLOSE, c, Close))
      else if h.Chunked? || h.KeepAlive? || h.Close? then Go(if ch != ' ' then p.(headerState := General) else p)
      else Go(p.(headerState := General))
  }

  function HeaderEndByte(p: Parser, ch: char): Outcome {
    if p.state.HeaderAlmostDone? then
      if ch != LF then Fail(p, StrictViolation)
      else
        var f :=
          if p.headerState.KeepAlive? then p.flags.(keepAlive := true)
          else if p.headerState.Close? then p.flags.(close := true)
          else if p.headerState.Chunked? then p.flags.(chunked := true)
          else p.flags;
        Go(p.(state := HeaderValueLws, flags := f))
    else
      if ch == ' ' || ch == '\t' then Go(p.(state := HeaderValueStart))
      else Again(p.(state := HeaderFieldStart))
  }

  // ---------------------------------------------------------------- end of the headers

  /** `answersOne` is what on_headers_complete answers: 1 ("no body follows") or 0. */
  function HeadersAlmostDoneByte(answersOne: Parser -> bool, p: Parser, ch: char): Outcome {
    if ch != LF then Fail(p, StrictViolation)
    else if p.flags.trailing then Tell(p.(state := NewMessage(p)), MessageComplete)
    else
      var q := p.(state := HeadersDone, upgrade := p.flags.upgrade || p.verb == CONNECT);
      var r := if answersOne(q) then q.(flags := q.flags.(skipBody := true)) else q;
      Outcome(r, None, None, Some(HeadersComplete), Reexecute)
  }

  function HeadersDoneByte(p: Parser, ch: char): Outcome {
    if ch != LF then Fail(p, StrictViolation)
    else
      var q := p.(nread := 0);
      var over := q.(state := NewMessage(q));
      if q.upgrade then Outcome(over, None, None, Some(MessageComplete), Leave)
      else if q.flags.skipBody then Tell(over, MessageComplete)
      else if q.flags.chunked then Go(q.(state := ChunkSizeStart))
      else if q.contentLength == 0 then Tell(over, MessageComplete)
      else if q.contentLength != U64_MAX then Go(q.(state := BodyIdentity))
      else if q.kind == Request || !NeedsEof(q) then Tell(over, MessageComplete)
      else Go(q.(state := BodyIdentityEof))
  }

  // ---------------------------------------------------------------- bodies

  /** The bytes of a body, one at a time. The source takes as many of them at once
      as the buffer holds; see HttpParser.Execute. */
  function BodyByte(p: Parser): Outcome {
    if p.state.BodyIdentity? then
      var q := p.(contentLength := if p.contentLength > 0 then p.contentLength - 1 else 0);
      if q.contentLength == 0 then Again(q.(state := MessageDone)) else Go(q)
    else if p.state.ChunkData? then
      var q := p.(contentLength := if p.contentLength > 0 then p.contentLength - 1 else 0);
      Go(if q.contentLength == 0 then q.(state := ChunkDataAlmostDone) else q)
    else Go(p)
  }

  function ChunkByte(p: Parser, ch: char): Outcome {
    if p.state.ChunkSizeStart? then
      if Unhex(ch) == -1 then Fail(p, InvalidChunkSize)
      else Go(p.(contentLength := Unhex(ch), state := ChunkSize))
    else if p.state.ChunkSize? then
      if ch == CR then Go(p.(state := ChunkSizeAlmostDone))
      else if Unhex(ch) == -1 then
        if ch == ';' || ch == ' ' then Go(p.(state := ChunkParameters)) else Fail(p, InvalidChunkSize)
      else (match Accumulate(p.contentLength, 16, Unhex(ch))
            case None => Fail(p, InvalidContentLength)
            case Some(t) => Go(p.(contentLength := t)))
    else if p.state.ChunkParameters? then Go(if ch == CR then p.(state := ChunkSizeAlmostDone) else p)
    else if p.state.ChunkSizeAlmostDone? then
      if ch != LF then Fail(p, StrictViolation)
      else if p.contentLength == 0 then
        Go(p.(nread := 0, flags := p.flags.(trailing := true), state := HeaderFieldStart))
      else Go(p.(nread := 0, state := ChunkData))
    else if p.state.ChunkDataAlmostDone? then
      if ch != CR then Fail(p, StrictViolation) else Flush(p.(state := ChunkDataDone), Body)
    else
      if ch != LF then Fail(p, StrictViolation) else Go(p.(nread := 0, state := ChunkSizeStart))
  }

  // ---------------------------------------------------------------- the switch

  predicate InBody(s: State) { s.ChunkData? || s.BodyIdentity? || s.BodyIdentityEof? }

  /** The arms of the switch, by what handles them here. */
  datatype Arm =
    | StartArm | ResVersionArm | StatusArm | MethodArm | UrlArm | ReqVersionArm
    | FieldStartArm | FieldArm | ValueStartArm | ValueArm | HeaderEndArm
    | HeadersAlmostDoneArm | HeadersDoneArm | BodyArm | MessageDoneArm | ChunkArm

  function ArmOf(s: State): Arm {
    match s
    case Dead | StartReqOrRes | ResOrRespH | StartRes | StartReq => StartArm
    case ResH | ResHT | ResHTT | ResHTTP | ResFirstHttpMajor | ResHttpMajor | ResFirstHttpMinor
      | ResHttpMinor => ResVersionArm
    case ResFirstStatusCode | ResStatusCode | ResStatus | ResLineAlmostDone => StatusArm
    case ReqMethod => MethodArm
    case ReqSpacesBeforeUrl | ReqSchema | ReqSchemaSlash | ReqSchemaSlashSlash | ReqServerStart | ReqServer
      | ReqServerWithAt | ReqPath | ReqQueryStringStart | ReqQueryString | ReqFragmentStart
      | ReqFragment => UrlArm
    case ReqHttpStart | ReqHttpH | ReqHttpHT | ReqHttpHTT | ReqHttpHTTP | ReqFirstHttpMajor | ReqHttpMajor
      | ReqFirstHttpMinor | ReqHttpMinor | ReqLineAlmostDone => ReqVersionArm
    case HeaderFieldStart => FieldStartArm
    case HeaderField => FieldArm
    case HeaderValueStart => ValueStartArm
    case HeaderValue => ValueArm
    case HeaderAlmostDone | HeaderValueLws => HeaderEndArm
    case HeadersAlmostDone => HeadersAlmostDoneArm
    case HeadersDone => HeadersDoneArm
    case ChunkData | BodyIdentity | BodyIdentityEof => BodyArm
    case MessageDone => MessageDoneArm
    case ChunkSizeStart | ChunkSize | ChunkParameters | ChunkSizeAlmostDone | ChunkDataAlmostDone
      | ChunkDataDone => ChunkArm
  }

  function Switch(answersOne: Parser -> bool, p: Parser, ch: char): Outcome {
    match ArmOf(p.state)
    case StartArm => StartByte(p, ch)
    case ResVersionArm => ResVersionByte(p, ch)
    case StatusArm => StatusByte(p, ch)
    case MethodArm => MethodByte(p, ch)
    case UrlArm => UrlByte(p, ch)
    case ReqVersionArm => ReqVersionByte(p, ch)
    case FieldStartArm => FieldStartByte(p, ch)
    case FieldArm => FieldByte(p, ch)
    case ValueStartArm => ValueStartByte(p, ch)
    case ValueArm => ValueByte(p, ch)
    case HeaderEndArm => HeaderEndByte(p, ch)
    case HeadersAlmostDoneArm => HeadersAlmostDoneByte(answersOne, p, ch)
    case HeadersDoneArm => HeadersDoneByte(p, ch)
    case BodyArm => BodyByte(p)
    case MessageDoneArm => Tell(p.(state := NewMessage(p)), MessageComplete)
    case ChunkArm => ChunkByte(p, ch)
  }
}
