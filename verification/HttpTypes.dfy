/** The data of the push parser in base/http_parser.h and base/http_parser.cc:
    its states, its fields, and what it reports to its callbacks. */
module HttpTypes {
  import opened Options

  const U64_MAX: nat := 0xFFFF_FFFF_FFFF_FFFF
  const U64: nat := U64_MAX + 1
  const MAX_HEADER_SIZE: nat := 80 * 1024

  const CR: char := '\r'
  const LF: char := '\n'

  datatype Method =
    | DELETE | GET | HEAD | POST | PUT
    | CONNECT | OPTIONS | TRACE
    | COPY | LOCK | MKCOL | MOVE | PROPFIND | PROPPATCH | SEARCH | UNLOCK
    | REPORT | MKACTIVITY | CHECKOUT | MERGE
    | MSEARCH | NOTIFY | SUBSCRIBE | UNSUBSCRIBE
    | PATCH | PURGE
  {
    /** The table `method_strings`. The entry for MSEARCH is what the
        preprocessor makes of the tokens `M - SEARCH`: it has spaces. */
    function Name(): string {
      match this
      case DELETE => "DELETE"
      case GET => "GET"
      case HEAD => "HEAD"
      case POST => "POST"
      case PUT => "PUT"
      case CONNECT => "CONNECT"
      case OPTIONS => "OPTIONS"
      case TRACE => "TRACE"
      case COPY => "COPY"
      case LOCK => "LOCK"
      case MKCOL => "MKCOL"
      case MOVE => "MOVE"
      case PROPFIND => "PROPFIND"
      case PROPPATCH => "PROPPATCH"
      case SEARCH => "SEARCH"
      case UNLOCK => "UNLOCK"
      case REPORT => "REPORT"
      case MKACTIVITY => "MKACTIVITY"
      case CHECKOUT => "CHECKOUT"
      case MERGE => "MERGE"
      case MSEARCH => "M - SEARCH"
      case NOTIFY => "NOTIFY"
      case SUBSCRIBE => "SUBSCRIBE"
      case UNSUBSCRIBE => "UNSUBSCRIBE"
      case PATCH => "PATCH"
      case PURGE => "PURGE"
    }
  }

  /** The length of a method's name, without spelling it. */
  function NameLength(m: Method): nat {
    match m
    case GET | PUT => 3
    case HEAD | POST | COPY | LOCK | MOVE => 4
    case TRACE | MKCOL | MERGE | PATCH | PURGE => 5
    case DELETE | SEARCH | UNLOCK | REPORT | NOTIFY => 6
    case CONNECT | OPTIONS => 7
    case PROPFIND | CHECKOUT => 8
    case PROPPATCH | SUBSCRIBE => 9
    case MKACTIVITY | MSEARCH => 10
    case UNSUBSCRIBE => 11
  }

  lemma NameLengths(m: Method)
    ensures |m.Name()| == NameLength(m)
  {
  }

  /** The words that header recognition compares with. */
  datatype Word =
    | CONNECTION | PROXY_CONNECTION | CONTENT_LENGTH | TRANSFER_ENCODING | UPGRADE
    | CHUNKED | KEEP_ALIVE | CLOSE
  {
    function Spelling(): string {
      match this
      case CONNECTION => "connection"
      case PROXY_CONNECTION => "proxy-connection"
      case CONTENT_LENGTH => "content-length"
      case TRANSFER_ENCODING => "transfer-encoding"
      case UPGRADE => "upgrade"
      case CHUNKED => "chunked"
      case KEEP_ALIVE => "keep-alive"
      case CLOSE => "close"
    }

    function Length(): nat {
      match this
      case CONNECTION => 10
      case PROXY_CONNECTION => 16
      case CONTENT_LENGTH => 14
      case TRANSFER_ENCODING => 17
      case UPGRADE => 7
      case CHUNKED => 7
      case KEEP_ALIVE => 10
      case CLOSE => 5
    }
  }

  lemma WordLengths(w: Word)
    ensures |w.Spelling()| == w.Length()
  {
  }

  datatype Kind = Request | Response | Both

  datatype Errno =
    | OK
    | InvalidEofState | HeaderOverflow | ClosedConnection
    | InvalidVersion | InvalidStatus | InvalidMethod | InvalidUrl
    | LfExpected | InvalidHeaderToken | InvalidContentLength
    | InvalidChunkSize | InvalidConstant | StrictViolation

  datatype State =
    | Dead
    | StartReqOrRes | ResOrRespH
    | StartRes | ResH | ResHT | ResHTT | ResHTTP
    | ResFirstHttpMajor | ResHttpMajor | ResFirstHttpMinor | ResHttpMinor
    | ResFirstStatusCode | ResStatusCode | ResStatus | ResLineAlmostDone
    | StartReq | ReqMethod | ReqSpacesBeforeUrl
    | ReqSchema | ReqSchemaSlash | ReqSchemaSlashSlash
    | ReqServerStart | ReqServer | ReqServerWithAt
    | ReqPath | ReqQueryStringStart | ReqQueryString
    | ReqFragmentStart | ReqFragment
    | ReqHttpStart | ReqHttpH | ReqHttpHT | ReqHttpHTT | ReqHttpHTTP
    | ReqFirstHttpMajor | ReqHttpMajor | ReqFirstHttpMinor | ReqHttpMinor
    | ReqLineAlmostDone
    | HeaderFieldStart | HeaderField | HeaderValueStart | HeaderValue
    | HeaderValueLws | HeaderAlmostDone
    | ChunkSizeStart | ChunkSize | ChunkParameters | ChunkSizeAlmostDone
    | HeadersAlmostDone | HeadersDone
    | ChunkData | ChunkDataAlmostDone | ChunkDataDone
    | BodyIdentity | BodyIdentityEof
    | MessageDone

  datatype HeaderState =
    | General | C | CO | CON
    | MatchingConnection | MatchingProxyConnection | MatchingContentLength
    | MatchingTransferEncoding | MatchingUpgrade
    | Connection | ContentLength | TransferEncoding | Upgrade
    | MatchingChunked | MatchingKeepAlive | MatchingClose
    | Chunked | KeepAlive | Close

  datatype Flags = Flags(chunked: bool, keepAlive: bool, close: bool,
                         trailing: bool, upgrade: bool, skipBody: bool)

  const NO_FLAGS := Flags(false, false, false, false, false, false)

  /** The fields of `struct http_parser`. */
  datatype Parser = Parser(
    kind: Kind, flags: Flags, state: State, headerState: HeaderState, index: nat,
    nread: nat, contentLength: nat,
    major: nat, minor: nat, statusCode: nat, verb: Method,
    errno: Errno, upgrade: bool)

  /** Data callbacks, and notifications without data. */
  datatype DataKind = Url | Field | Value | Body
  datatype Notice = MessageBegin | StatusComplete | HeadersComplete | MessageComplete

  /** One call of one callback. */
  datatype Event = Data(kind: DataKind, bytes: string) | Notify(notice: Notice)

  /** What a sequence of calls says once data is looked at byte by byte. */
  datatype Atom = Byte(kind: DataKind, ch: char) | Signal(notice: Notice)

  function BytesOf(k: DataKind, s: string): (r: seq<Atom>)
    ensures |r| == |s|
    ensures forall i :: 0 <= i < |s| ==> r[i] == Byte(k, s[i])
  {
    seq(|s|, i requires 0 <= i < |s| => Byte(k, s[i]))
  }

  function Atoms(e: Event): seq<Atom> {
    match e
    case Data(k, s) => BytesOf(k, s)
    case Notify(n) => [Signal(n)]
  }

  function Flatten(events: seq<Event>): seq<Atom> {
    if events == [] then []
    else Flatten(events[..|events| - 1]) + Atoms(events[|events| - 1])
  }

  function Signals(o: Option<Notice>): seq<Atom> {
    match o case None => [] case Some(n) => [Signal(n)]
  }
}
