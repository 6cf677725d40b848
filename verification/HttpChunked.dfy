/** Chunked bodies, as section 4.1 of RFC 7230 has them: sizes in hexadecimal, extensions, and trailers. */
module HttpChunked {
  import opened Hexadecimal
  import opened Options
  import opened HttpTypes
  import opened HttpSwitch
  import opened HttpRun
  import opened HttpParser
  import opened HttpSplit
  import opened HttpGoes
  import opened HttpMessage
  import opened HttpBody
  import opened HttpRequest

  // ---------------------------------------------------------------- sizes

  lemma UnhexIsValue(c: char)
    requires IsHexdig(c)
    ensures Unhex(c) == HexdigValue(c) && c != CR
  {
  }

  /** A digit of a size, which is not objected to below 2^64 - 1. */
  lemma SizeByte(p: Parser, c: char)
    requires IsHexdig(c)
    ensures p.state.ChunkSizeStart? ==> ChunkByte(p, c) == Go(p.(contentLength := HexdigValue(c), state := ChunkSize))
    ensures var n := p.contentLength * 16 + HexdigValue(c);
            p.state.ChunkSize? && n < U64_MAX ==> ChunkByte(p, c) == Go(p.(contentLength := n))
  {
    UnhexIsValue(c);
    hide Unhex, HexdigValue, IsHexdig;
    if p.contentLength * 16 + HexdigValue(c) < U64_MAX { SizeDigit(p.contentLength, HexdigValue(c)); }
  }

  predicate InSizeLine(s: State) { s.ChunkSizeStart? || s.ChunkSize? || s.ChunkParameters? || s.ChunkSizeAlmostDone? }

  lemma SizeLineStates(s: State)
    ensures InSizeLine(s) ==> ArmOf(s) == ChunkArm && ParsingHeader(s)
    ensures InSizeLine(s) || s.HeaderFieldStart? || s.ChunkData? ==> MarkOf(s) == None
  {
  }

  /** One quiet byte of a size line. */
  lemma ChunkByteGoes(answersOne: Parser -> bool, p: Parser, ch: char, q: Parser)
    requires InSizeLine(p.state) && Room(p, 1) && ChunkByte(Read(p, 1), ch) == Go(q)
    requires q.errno == OK && (InSizeLine(q.state) || q.state.HeaderFieldStart? || q.state.ChunkData?)
    ensures Goes(answersOne, p, [ch], q, [])
  {
    hide Goes, Switch, ChunkByte, ArmOf, MarkOf, ParsingHeader;
    SizeLineStates(p.state);
    SizeLineStates(q.state);
    DispatchLine(answersOne, Read(p, 1), ch);
    GoesQuietly(answersOne, p, ch, q);
  }

  lemma ChunkIsQuiet(p: Parser, ch: char)
    ensures ChunkByte(p, ch).notify == None
  {
  }

  /** Sizes below 2^64 - 1 are never objected to. */
  lemma SizeDigit(n: nat, d: nat)
    requires d < 16 && n * 16 + d < U64_MAX
    ensures Accumulate(n, 16, d) == Some(n * 16 + d)
  {
  }

  lemma {:induction false} SizeGoes(answersOne: Parser -> bool, p: Parser, s: string)
    requires p.state.ChunkSizeStart? && s != "" && AllHex(s) && HexNumber(s) < U64_MAX && Room(p, |s|)
    ensures Goes(answersOne, p, s, Read(p, |s|).(state := ChunkSize, contentLength := HexNumber(s)), [])
    decreases |s|
  {
    hide Goes, HexNumber, HexdigValue, AllHex, IsHexdig, ChunkByte;
    HexSnoc(s);
    var init, ch := s[..|s| - 1], s[|s| - 1];
    assert s == init + [ch];
    if init == "" {
      SizeByte(Read(p, 1), ch);
      ChunkByteGoes(answersOne, p, ch, Read(p, 1).(state := ChunkSize, contentLength := HexNumber(s)));
    } else {
      SizeGoes(answersOne, p, init);
      var q := Read(p, |init|).(state := ChunkSize, contentLength := HexNumber(init));
      SizeByte(Read(q, 1), ch);
      var r := Read(p, |s|).(state := ChunkSize, contentLength := HexNumber(s));
      ChunkByteGoes(answersOne, q, ch, r);
      GoesOnQuietly(answersOne, p, init, q, [ch], r);
    }
  }

  // ---------------------------------------------------------------- extensions

  predicate IsExtension(s: string) { s != "" ==> (s[0] == ';' || s[0] == ' ') && CR !in s }

  lemma ExtensionByte(p: Parser, c: char)
    ensures p.state.ChunkSize? && (c == ';' || c == ' ') ==> ChunkByte(p, c) == Go(p.(state := ChunkParameters))
    ensures p.state.ChunkParameters? && c != CR ==> ChunkByte(p, c) == Go(p)
  {
  }

  lemma {:induction false} ExtensionGoes(answersOne: Parser -> bool, p: Parser, s: string)
    requires p.state.ChunkSize? && IsExtension(s) && Room(p, |s|)
    ensures Goes(answersOne, p, s, Read(p, |s|).(state := if s == "" then ChunkSize else ChunkParameters), [])
    decreases |s|
  {
    hide Goes, ChunkByte;
    if s == "" {
      GoesNowhere(answersOne, p);
    } else {
      var init, ch := s[..|s| - 1], s[|s| - 1];
      assert s == init + [ch];
      ExtensionGoes(answersOne, p, init);
      var q := Read(p, |init|).(state := if init == "" then ChunkSize else ChunkParameters);
      assert ch in s;
      ExtensionByte(Read(q, 1), ch);
      var r := Read(p, |s|).(state := ChunkParameters);
      ChunkByteGoes(answersOne, q, ch, r);
      GoesOnQuietly(answersOne, p, init, q, [ch], r);
    }
  }

  // ---------------------------------------------------------------- chunks

  datatype Chunk = Chunk(size: string, extension: string, data: string)

  predicate IsChunk(c: Chunk) {
    && c.size != "" && AllHex(c.size) && HexNumber(c.size) == |c.data| < U64_MAX && IsExtension(c.extension)
    && |c.size| + |c.extension| + 2 <= MAX_HEADER_SIZE
  }

  function SizeLine(c: Chunk): string { c.size + c.extension + CRLF }

  function ChunkText(c: Chunk): string { SizeLine(c) + c.data + CRLF }

  lemma SizeEndMeans(p: Parser)
    requires p.state.ChunkSize? || p.state.ChunkParameters?
    ensures var r := Read(p, 1).(state := ChunkSizeAlmostDone);
            ChunkByte(Read(p, 1), CR) == Go(r) &&
            ChunkByte(Read(r, 1), LF) ==
              Go(if p.contentLength == 0
                 then p.(nread := 0, flags := p.flags.(trailing := true), state := HeaderFieldStart)
                 else p.(nread := 0, state := ChunkData))
  {
  }

  lemma SizeEndGoes(answersOne: Parser -> bool, p: Parser)
    requires (p.state.ChunkSize? || p.state.ChunkParameters?) && Room(p, 2)
    ensures Goes(answersOne, p, CRLF,
                 if p.contentLength == 0 then p.(nread := 0, flags := p.flags.(trailing := true),
                                                 state := HeaderFieldStart)
                 else p.(nread := 0, state := ChunkData), [])
  {
    hide Goes, ChunkByte;
    SizeEndMeans(p);
    var r := Read(p, 1).(state := ChunkSizeAlmostDone);
    ChunkByteGoes(answersOne, p, CR, r);
    var t := ChunkByte(Read(r, 1), LF).p;
    ChunkByteGoes(answersOne, r, LF, t);
    GoesOnQuietly(answersOne, p, [CR], r, [LF], t);
    assert [CR] + [LF] == CRLF;
  }

  /** Bytes that are not counted as header bytes. */
  lemma FrameByteGoes(answersOne: Parser -> bool, p: Parser, ch: char, q: Parser)
    requires p.errno == OK && (p.state.ChunkDataAlmostDone? || p.state.ChunkDataDone?)
    requires var o := ChunkByte(p, ch); o.flow == Advance && o.p == q
    requires q.errno == OK && MarkOf(q.state) == None
    ensures Goes(answersOne, p, [ch], q, [])
  {
    hide Switch, Settle, ChunkByte, MarkOf;
    DispatchLine(answersOne, p, ch);
    ChunkIsQuiet(p, ch);
    SettleCons(answersOne, p, ch);
    RunCons(answersOne, p, [ch]);
    assert [ch][1..] == "";
    RunNothing(answersOne, q);
    assert Signals(None) + Tail(q.state, ch) == [];
    assert NO_ATOMS + NO_ATOMS == NO_ATOMS;
  }

  /** The whole size line. */
  lemma SizeLineGoes(answersOne: Parser -> bool, p: Parser, c: Chunk)
    requires p.state.ChunkSizeStart? && p.nread == 0 && p.errno == OK && IsChunk(c)
    ensures Goes(answersOne, p, SizeLine(c),
                 if c.data == "" then p.(contentLength := 0, flags := p.flags.(trailing := true), state := HeaderFieldStart)
                 else p.(contentLength := |c.data|, state := ChunkData), [])
  {
    hide Goes, HexNumber, AllHex, IsExtension;
    var k, n := |c.size|, |c.extension|;
    SizeGoes(answersOne, p, c.size);
    var q := Read(p, k).(state := ChunkSize, contentLength := |c.data|);
    ExtensionGoes(answersOne, q, c.extension);
    var r := Read(q, n).(state := if c.extension == "" then ChunkSize else ChunkParameters);
    GoesOnQuietly(answersOne, p, c.size, q, c.extension, r);
    SizeEndGoes(answersOne, r);
    var t := if c.data == "" then p.(contentLength := 0, flags := p.flags.(trailing := true), state := HeaderFieldStart)
             else p.(contentLength := |c.data|, state := ChunkData);
    GoesOnQuietly(answersOne, p, c.size + c.extension, r, CRLF, t);
  }

  lemma ChunkDataGoes(answersOne: Parser -> bool, p: Parser, c: string)
    requires p.errno == OK && p.state.ChunkData? && 0 < p.contentLength == |c|
    ensures Goes(answersOne, p, c, p.(contentLength := 0, state := ChunkDataAlmostDone), BytesOf(Body, c))
  {
    hide Run, BytesOf;
    ChunkEnd(answersOne, p, c);
    assert c[..|c|] == c && c[|c|..] == "";
    RunNothing(answersOne, p.(contentLength := 0, state := ChunkDataAlmostDone));
    assert BytesOf(Body, c) + NO_ATOMS == BytesOf(Body, c);
  }

  /** A chunk: its data is delivered, and the next size is awaited. */
  lemma ChunkGoes(answersOne: Parser -> bool, p: Parser, c: Chunk)
    requires p.state.ChunkSizeStart? && p.nread == 0 && p.errno == OK && IsChunk(c) && c.data != ""
    ensures Goes(answersOne, p, ChunkText(c), p.(contentLength := 0), BytesOf(Body, c.data))
  {
    hide Goes, BytesOf, SizeLine;
    SizeLineGoes(answersOne, p, c);
    var q := p.(contentLength := |c.data|, state := ChunkData);
    var r := q.(contentLength := 0, state := ChunkDataAlmostDone);
    ChunkDataGoes(answersOne, q, c.data);
    GoesOn(answersOne, p, SizeLine(c), q, [], c.data, r, BytesOf(Body, c.data));
    var s := r.(state := ChunkDataDone);
    FrameByteGoes(answersOne, r, CR, s);
    var t := s.(state := ChunkSizeStart);
    FrameByteGoes(answersOne, s, LF, t);
    GoesOnQuietly(answersOne, r, [CR], s, [LF], t);
    GoesOn(answersOne, p, SizeLine(c) + c.data, r, [] + BytesOf(Body, c.data), [CR] + [LF], t, []);
    assert [CR] + [LF] == CRLF;
    assert [] + BytesOf(Body, c.data) + [] == BytesOf(Body, c.data);
  }

  // ---------------------------------------------------------------- what is refused

  /** The bytes that the frame of a chunk may have in each of its places. From 0x80 on they read as the digit 0. */
  predicate MayStand(p: Parser, ch: char) {
    var digit := IsHexdig(ch) || ch as int >= 0x80;
    if p.state.ChunkSizeStart? then digit
    else if p.state.ChunkSize? then if digit then !TooLarge(p.contentLength, ch) else ch in {CR, ';', ' '}
    else if p.state.ChunkSizeAlmostDone? || p.state.ChunkDataDone? then ch == LF
    else p.state.ChunkDataAlmostDone? ==> ch == CR
  }

  /** On 64 bits the size has become smaller, or the largest number. */
  predicate TooLarge(n: nat, ch: char) {
    var m := (n * 16 + if IsHexdig(ch) then HexdigValue(ch) else 0) % 0x1_0000_0000_0000_0000;
    m < n || m == 0xFFFF_FFFF_FFFF_FFFF
  }

  function FrameError(s: State, ch: char): Errno {
    if s.ChunkSizeStart? then InvalidChunkSize
    else if s.ChunkSize? then if IsHexdig(ch) || ch as int >= 0x80 then InvalidContentLength else InvalidChunkSize
    else StrictViolation
  }

  lemma WrapsBy16(n: nat, d: nat)
    requires d < 16
    ensures ((n * 16) % U64 + d) % U64 == (n * 16 + d) % U64
  {
    var k, r := (n * 16) / U64, (n * 16) % U64;
    assert n * 16 + d == k * U64 + (r + d);
    if r + d >= U64 {
      assert n * 16 + d == (k + 1) * U64 + (r + d - U64);
    }
  }

  lemma UnhexIs(ch: char)
    ensures Unhex(ch) == if IsHexdig(ch) then HexdigValue(ch) else if ch as int >= 0x80 then 0 else -1
  {
  }

  /** Any other byte ends the message with an error. */
  lemma FrameRefuses(answersOne: Parser -> bool, p: Parser, ch: char)
    requires ArmOf(p.state) == ChunkArm
    ensures var o := Switch(answersOne, p, ch);
      && (o.flow == Stop <==> !MayStand(p, ch))
      && (o.flow == Stop ==> o.p.errno == FrameError(p.state, ch))
  {
    DispatchLine(answersOne, p, ch);
    UnhexIs(ch);
    WrapsBy16(p.contentLength, if Unhex(ch) >= 0 then Unhex(ch) else 0);
    hide Unhex, IsHexdig, HexdigValue, Switch;
  }

  // ---------------------------------------------------------------- trailers

  lemma TrailerEnds(answersOne: Parser -> bool, p: Parser)
    requires p.state.HeadersAlmostDone? && p.flags.trailing && Room(p, 1)
    ensures var q := Read(p, 1);
            Goes(answersOne, p, [LF], q.(state := NewMessage(q)), [Signal(MessageComplete)])
  {
    hide Goes, Switch;
    Dispatch(answersOne, Read(p, 1), LF);
    GoesByte(answersOne, p, LF);
    assert Signals(Some(MessageComplete)) + Tail(NewMessage(Read(p, 1)), LF) == [Signal(MessageComplete)];
  }

  /** The last chunk and the trailer end the message. */
  lemma LastChunkGoes(answersOne: Parser -> bool, p: Parser, last: Chunk, ts: seq<(string, string)>) returns (q: Parser)
    requires p.state.ChunkSizeStart? && p.nread == 0 && p.errno == OK && IsChunk(last) && last.data == ""
    requires AreHeaders(ts) && |HeaderText(ts)| + 2 <= MAX_HEADER_SIZE
    ensures BodyDone(p, q, ts)
    ensures Goes(answersOne, p, SizeLine(last) + HeaderText(ts) + CRLF, q, HeaderAtoms(ts) + [Signal(MessageComplete)])
  {
    hide Goes, Switch, SizeLine, HeaderText, HeaderAtoms, FlagsAfterAll, LengthAfterAll, NewMessage, IsChunk, AreHeaders;
    SizeLineGoes(answersOne, p, last);
    var s := p.(contentLength := 0, flags := p.flags.(trailing := true), state := HeaderFieldStart);
    var h, index := HeadersGo(answersOne, s, ts);
    var t := AfterHeaders(s, ts, h, index);
    NoTrailers(s.flags, ts);
    FlagsNeverTrailing(s.flags, ts);
    GoesOn(answersOne, p, SizeLine(last), s, [], HeaderText(ts), t, HeaderAtoms(ts));
    BlankGoes(answersOne, t);
    var u := Read(t, 1).(state := HeadersAlmostDone);
    GoesOn(answersOne, p, SizeLine(last) + HeaderText(ts), t, [] + HeaderAtoms(ts), [CR], u, []);
    TrailerEnds(answersOne, u);
    q := Read(u, 1).(state := NewMessage(Read(u, 1)));
    SameNext(Read(u, 1), q);
    GoesOn(answersOne, p, SizeLine(last) + HeaderText(ts) + [CR], u, [] + HeaderAtoms(ts) + [], [LF], q,
           [Signal(MessageComplete)]);
    assert SizeLine(last) + HeaderText(ts) + [CR] + [LF] == SizeLine(last) + HeaderText(ts) + CRLF;
    assert [] + HeaderAtoms(ts) + [] + [Signal(MessageComplete)] == HeaderAtoms(ts) + [Signal(MessageComplete)];
  }

  lemma NoTrailers(f: Flags, ts: seq<(string, string)>)
    ensures ts == [] ==> HeaderText(ts) == "" && FlagsAfterAll(f, ts) == f
  {
  }

  /** After a chunked body: the trailer may have changed flags and length. */
  ghost predicate BodyDone(p: Parser, q: Parser, ts: seq<(string, string)>) {
    && q.errno == OK && q.verb == p.verb && q.major == p.major && q.minor == p.minor && q.kind == p.kind
    && q.statusCode == p.statusCode && q.upgrade == p.upgrade
    && q.flags == FlagsAfterAll(p.flags.(trailing := true), ts) && q.nread == |HeaderText(ts)| + 2
    && q.state == NewMessage(q)
  }

  // ---------------------------------------------------------------- bodies

  datatype Pieces = Pieces(chunks: seq<Chunk>, last: Chunk, trailer: seq<(string, string)>)

  predicate ArePieces(b: Pieces) {
    && (forall c :: c in b.chunks ==> IsChunk(c) && c.data != "") && IsChunk(b.last) && b.last.data == ""
    && AreHeaders(b.trailer) && |HeaderText(b.trailer)| + 2 <= MAX_HEADER_SIZE
  }

  function ChunkTexts(cs: seq<Chunk>): string { if cs == [] then "" else ChunkText(cs[0]) + ChunkTexts(cs[1..]) }

  function PiecesText(b: Pieces): string { ChunkTexts(b.chunks) + (SizeLine(b.last) + HeaderText(b.trailer) + CRLF) }

  function DataOf(cs: seq<Chunk>): string { if cs == [] then "" else cs[0].data + DataOf(cs[1..]) }

  /** What the callbacks are told of a chunked body: its data, its trailer, and that this was all. */
  function PiecesAtoms(b: Pieces): seq<Atom> {
    BytesOf(Body, DataOf(b.chunks)) + (HeaderAtoms(b.trailer) + [Signal(MessageComplete)])
  }

  lemma {:induction false} ChunksGo(answersOne: Parser -> bool, p: Parser, cs: seq<Chunk>)
    requires p.state.ChunkSizeStart? && p.nread == 0 && p.errno == OK && forall c :: c in cs ==> IsChunk(c) && c.data != ""
    ensures Goes(answersOne, p, ChunkTexts(cs), if cs == [] then p else p.(contentLength := 0), BytesOf(Body, DataOf(cs)))
    decreases |cs|
  {
    hide Goes, BytesOf, ChunkText, IsChunk;
    if cs == [] {
      GoesNowhere(answersOne, p);
      assert BytesOf(Body, "") == [] by { ByteCount(Body, ""); }
    } else {
      var c, rest := cs[0], cs[1..];
      assert c in cs;
      ChunkGoes(answersOne, p, c);
      var r := p.(contentLength := 0);
      ChunksGo(answersOne, r, rest);
      GoesOn(answersOne, p, ChunkText(c), r, BytesOf(Body, c.data), ChunkTexts(rest), r, BytesOf(Body, DataOf(rest)));
      BytesOfConcat(Body, c.data, DataOf(rest));
    }
  }

  /** A chunked body delivers the chunks' data, in order, the trailer, and one message_complete. */
  lemma ChunkedBodyGoes(answersOne: Parser -> bool, p: Parser, b: Pieces) returns (q: Parser)
    requires p.errno == OK && p.state.ChunkSizeStart? && p.nread == 0 && ArePieces(b)
    ensures BodyDone(p, q, b.trailer)
    ensures Goes(answersOne, p, PiecesText(b), q, PiecesAtoms(b))
  {
    hide Goes, BytesOf, ChunkTexts, SizeLine, HeaderText, HeaderAtoms, NewMessage, FlagsAfterAll, IsChunk, AreHeaders;
    ChunksGo(answersOne, p, b.chunks);
    var r := if b.chunks == [] then p else p.(contentLength := 0);
    q := LastChunkGoes(answersOne, r, b.last, b.trailer);
    GoesOn(answersOne, p, ChunkTexts(b.chunks), r, BytesOf(Body, DataOf(b.chunks)),
           SizeLine(b.last) + HeaderText(b.trailer) + CRLF, q, HeaderAtoms(b.trailer) + [Signal(MessageComplete)]);
  }

  /** A whole request with a chunked body, whatever the way the sizes are written, the extensions and the trailer. */
  lemma ChunkedRequestRead(answersOne: Parser -> bool, p: Parser, r: Request, b: Pieces, rest: string)
    returns (q: Parser)
    requires p.state.StartReq? && IsRequest(r) && Room(p, |HeadText(r)|)
    requires Plain(r) && (forall x :: !answersOne(x)) && FlagsAfterAll(NO_FLAGS, r.headers).chunked && ArePieces(b)
    ensures q.errno == OK && q.verb == r.verb && q.major == r.major && q.minor == r.minor && q.kind == p.kind
    ensures q.flags == FlagsAfterAll(FlagsAfterAll(NO_FLAGS, r.headers).(trailing := true), b.trailer)
    ensures q.nread == |HeaderText(b.trailer)| + 2 && q.state == NewMessage(q)
    ensures Run(answersOne, p, HeadText(r) + PiecesText(b) + rest)
         == Run(answersOne, q, rest).After(HeadAtoms(r) + TOLD + PiecesAtoms(b), |HeadText(r)| + |PiecesText(b)|)
  {
    hide Run, Goes, HeadText, HeadAtoms, FlagsAfterAll, LengthAfterAll, IsTarget, FramingOf, PiecesAtoms, NewMessage,
         PiecesText, HeadersSeen, ArePieces;
    var h, index := RequestRead(answersOne, p, r, PiecesText(b) + rest);
    assert HeadText(r) + (PiecesText(b) + rest) == HeadText(r) + PiecesText(b) + rest;
    PlainSeen(answersOne, p, r, h, index);
    var e := HeadRead(p, r, h, index).(state := ChunkSizeStart, upgrade := false, nread := 0);
    q := ChunkedBodyGoes(answersOne, e, b);
    GoesThen(answersOne, e, PiecesText(b), q, PiecesAtoms(b), rest);
    AfterAfter(Run(answersOne, q, rest), HeadAtoms(r) + TOLD, |HeadText(r)|, PiecesAtoms(b), |PiecesText(b)|);
  }
}
