/** Whole requests: what the parser makes of the text of a request, with its body. */
module HttpRequest {
  import opened Options
  import opened HttpTypes
  import opened HttpSwitch
  import opened HttpRun
  import opened HttpParser
  import opened HttpGoes
  import opened HttpHeader
  import opened HttpValue
  import opened HttpMessage
  import opened HttpMethod
  import opened HttpBody
  import opened Decimal

  // ---------------------------------------------------------------- targets

  /** `parse_url_char` over a string. */
  function UrlEnd(s: State, t: string): State {
    if t == "" then s else ParseUrlChar(UrlEnd(s, t[..|t| - 1]), t[|t| - 1])
  }

  function UrlStart(m: Method): State { if m == CONNECT then ReqServerStart else ReqSpacesBeforeUrl }

  /** States in which a URL may end. */
  predicate UrlMayEnd(s: State) {
    s.ReqServer? || s.ReqServerWithAt? || s.ReqPath? || s.ReqQueryStringStart? || s.ReqQueryString?
    || s.ReqFragmentStart? || s.ReqFragment?
  }

  predicate IsTarget(m: Method, t: string) { t != "" && UrlMayEnd(UrlEnd(UrlStart(m), t)) }

  lemma UrlCharIsNoSpace(s: State, ch: char)
    ensures !ParseUrlChar(s, ch).Dead? ==> ch != ' ' && ch != CR && ch != LF
    ensures ParseUrlChar(Dead, ch) == Dead
  {
  }

  function UrlRead(p: Parser, t: string): Parser {
    Read(p, |t|).(state := UrlEnd(UrlStart(p.verb), t))
  }

  lemma FirstUrlByte(answersOne: Parser -> bool, p: Parser, ch: char)
    requires p.state.ReqSpacesBeforeUrl? && Room(p, 1) && !ParseUrlChar(UrlStart(p.verb), ch).Dead?
    ensures Goes(answersOne, p, [ch], Read(p, 1).(state := ParseUrlChar(UrlStart(p.verb), ch)), [HttpTypes.Byte(Url, ch)])
  {
    hide Goes, Switch, ParseUrlChar;
    var s := UrlStart(p.verb);
    UrlCharIsNoSpace(s, ch);
    ParseUrlCharStates(s, ch);
    DispatchLine(answersOne, Read(p, 1), ch);
    GoesMarked(answersOne, p, ch, Read(p, 1).(state := ParseUrlChar(s, ch)), Url);
  }

  lemma NextUrlByte(answersOne: Parser -> bool, p: Parser, ch: char)
    requires MarkOf(p.state) == Some(Url) && Room(p, 1) && !ParseUrlChar(p.state, ch).Dead?
    ensures Goes(answersOne, p, [ch], Read(p, 1).(state := ParseUrlChar(p.state, ch)), [HttpTypes.Byte(Url, ch)])
  {
    hide Goes, Switch, ParseUrlChar;
    UrlCharIsNoSpace(p.state, ch);
    ParseUrlCharStates(p.state, ch);
    DispatchLine(answersOne, Read(p, 1), ch);
    GoesMarked(answersOne, p, ch, Read(p, 1).(state := ParseUrlChar(p.state, ch)), Url);
  }

  lemma {:induction false} TargetGoes(answersOne: Parser -> bool, p: Parser, t: string)
    requires p.state.ReqSpacesBeforeUrl? && t != "" && !UrlEnd(UrlStart(p.verb), t).Dead? && Room(p, |t|)
    ensures Goes(answersOne, p, t, UrlRead(p, t), BytesOf(Url, t)) && MarkOf(UrlRead(p, t).state) == Some(Url)
    decreases |t|
  {
    hide Goes, ParseUrlChar, BytesOf, MarkOf;
    var init, ch := t[..|t| - 1], t[|t| - 1];
    assert t == init + [ch];
    var s := UrlEnd(UrlStart(p.verb), init);
    UrlCharIsNoSpace(s, ch);
    ParseUrlCharStates(s, ch);
    if init == "" {
      FirstUrlByte(answersOne, p, ch);
      ByteAlone(Url, ch);
    } else {
      TargetGoes(answersOne, p, init);
      var q := UrlRead(p, init);
      NextUrlByte(answersOne, q, ch);
      GoesOn(answersOne, p, init, q, BytesOf(Url, init), [ch], UrlRead(p, t), [HttpTypes.Byte(Url, ch)]);
      OneByteMore(Url, init, ch);
    }
  }

  // ---------------------------------------------------------------- versions

  /** One quiet byte of the version. */
  lemma VersionByteGoes(answersOne: Parser -> bool, p: Parser, ch: char)
    requires ArmOf(p.state) == ReqVersionArm && Room(p, 1)
    ensures var o := ReqVersionByte(Read(p, 1), ch);
            o.flow == Advance && o.p.errno == OK ==> Goes(answersOne, p, [ch], o.p, [])
  {
    hide Goes, Switch;
    DispatchLine(answersOne, Read(p, 1), ch);
    var o := ReqVersionByte(Read(p, 1), ch);
    if o.flow == Advance && o.p.errno == OK {
      GoesQuietly(answersOne, p, ch, o.p);
    }
  }

  function HttpState(k: nat): State
    requires k <= 5
  {
    match k
    case 0 => ReqHttpStart
    case 1 => ReqHttpH
    case 2 => ReqHttpHT
    case 3 => ReqHttpHTT
    case 4 => ReqHttpHTTP
    case 5 => ReqFirstHttpMajor
  }

  lemma {:induction false} HttpLettersGo(answersOne: Parser -> bool, p: Parser, k: nat)
    requires p.state.ReqHttpStart? && k <= 5 && Room(p, k)
    ensures Goes(answersOne, p, "HTTP/"[..k], Read(p, k).(state := HttpState(k)), [])
  {
    hide Goes;
    if k == 0 {
      GoesNowhere(answersOne, p);
      assert Read(p, 0).(state := HttpState(0)) == p;
    } else {
      HttpLettersGo(answersOne, p, k - 1);
      var q := Read(p, k - 1).(state := HttpState(k - 1));
      VersionByteGoes(answersOne, q, "HTTP/"[k - 1]);
      GoesOnQuietly(answersOne, p, "HTTP/"[..k - 1], q, ["HTTP/"[k - 1]], Read(p, k).(state := HttpState(k)));
      assert "HTTP/"[..k - 1] + ["HTTP/"[k - 1]] == "HTTP/"[..k];
    }
  }

  lemma HttpWordGoes(answersOne: Parser -> bool, p: Parser)
    requires UrlMayEnd(p.state) && Room(p, 6)
    ensures Goes(answersOne, p, " HTTP/", Read(p, 6).(state := ReqFirstHttpMajor), [])
  {
    hide Goes, Switch;
    DispatchLine(answersOne, Read(p, 1), ' ');
    var q := Read(p, 1).(state := ReqHttpStart);
    GoesQuietly(answersOne, p, ' ', q);
    HttpLettersGo(answersOne, q, 5);
    GoesOnQuietly(answersOne, p, [' '], q, "HTTP/"[..5], Read(p, 6).(state := ReqFirstHttpMajor));
    assert [' '] + "HTTP/"[..5] == " HTTP/";
  }

  lemma DecSnoc(n: nat)
    requires n >= 10
    ensures Dec(n) == Dec(n / 10) + [DigitChar(n % 10)] && |Dec(n / 10)| == |Dec(n)| - 1
  {
  }

  lemma {:induction false} MajorGoes(answersOne: Parser -> bool, p: Parser, n: nat)
    requires p.state.ReqFirstHttpMajor? && 0 < n <= 999 && Room(p, |Dec(n)|)
    ensures Goes(answersOne, p, Dec(n), Read(p, |Dec(n)|).(state := ReqHttpMajor, major := n), [])
    decreases n
  {
    hide Goes, Dec;
    DecLeads(n);
    if n < 10 {
      OneDigit(n);
      VersionByteGoes(answersOne, p, DigitChar(n));
    } else {
      DecSnoc(n);
      MajorGoes(answersOne, p, n / 10);
      var q := Read(p, |Dec(n / 10)|).(state := ReqHttpMajor, major := n / 10);
      VersionByteGoes(answersOne, q, DigitChar(n % 10));
      var r := Read(p, |Dec(n)|).(state := ReqHttpMajor, major := n);
      GoesOnQuietly(answersOne, p, Dec(n / 10), q, [DigitChar(n % 10)], r);
    }
  }

  lemma OneDigit(n: nat)
    requires n < 10
    ensures Dec(n) == [DigitChar(n)]
  {
  }

  lemma {:induction false} MinorGoes(answersOne: Parser -> bool, p: Parser, n: nat)
    requires p.state.ReqFirstHttpMinor? && n <= 999 && Room(p, |Dec(n)|)
    ensures Goes(answersOne, p, Dec(n), Read(p, |Dec(n)|).(state := ReqHttpMinor, minor := n), [])
    decreases n
  {
    hide Goes, Dec;
    if n < 10 {
      OneDigit(n);
      VersionByteGoes(answersOne, p, DigitChar(n));
    } else {
      DecSnoc(n);
      MinorGoes(answersOne, p, n / 10);
      var q := Read(p, |Dec(n / 10)|).(state := ReqHttpMinor, minor := n / 10);
      VersionByteGoes(answersOne, q, DigitChar(n % 10));
      var r := Read(p, |Dec(n)|).(state := ReqHttpMinor, minor := n);
      GoesOnQuietly(answersOne, p, Dec(n / 10), q, [DigitChar(n % 10)], r);
    }
  }

  function VersionText(major: nat, minor: nat): string {
    " HTTP/" + Dec(major) + "." + Dec(minor) + CRLF
  }

  lemma VersionEndGoes(answersOne: Parser -> bool, p: Parser)
    requires p.state.ReqHttpMinor? && Room(p, 2)
    ensures Goes(answersOne, p, CRLF, Read(p, 2).(state := HeaderFieldStart), [])
  {
    hide Goes;
    var q := Read(p, 1).(state := ReqLineAlmostDone);
    VersionByteGoes(answersOne, p, CR);
    VersionByteGoes(answersOne, q, LF);
    GoesOnQuietly(answersOne, p, [CR], q, [LF], Read(p, 2).(state := HeaderFieldStart));
    assert [CR] + [LF] == CRLF;
  }

  lemma VersionGoes(answersOne: Parser -> bool, p: Parser, major: nat, minor: nat)
    requires UrlMayEnd(p.state) && 0 < major <= 999 && minor <= 999 && Room(p, |VersionText(major, minor)|)
    ensures Goes(answersOne, p, VersionText(major, minor),
                 Read(p, |VersionText(major, minor)|).(state := HeaderFieldStart, major := major, minor := minor), [])
  {
    hide Goes, Dec;
    var m, n := |Dec(major)|, |Dec(minor)|;
    HttpWordGoes(answersOne, p);
    var q1 := Read(p, 6).(state := ReqFirstHttpMajor);
    MajorGoes(answersOne, q1, major);
    var q2 := Read(p, 6 + m).(state := ReqHttpMajor, major := major);
    GoesOnQuietly(answersOne, p, " HTTP/", q1, Dec(major), q2);
    var q3 := Read(p, 7 + m).(state := ReqFirstHttpMinor, major := major);
    VersionByteGoes(answersOne, q2, '.');
    GoesOnQuietly(answersOne, p, " HTTP/" + Dec(major), q2, ['.'], q3);
    MinorGoes(answersOne, q3, minor);
    var q4 := Read(p, 7 + m + n).(state := ReqHttpMinor, major := major, minor := minor);
    GoesOnQuietly(answersOne, p, " HTTP/" + Dec(major) + ['.'], q3, Dec(minor), q4);
    VersionEndGoes(answersOne, q4);
    GoesOnQuietly(answersOne, p, " HTTP/" + Dec(major) + ['.'] + Dec(minor), q4, CRLF,
                  Read(p, 9 + m + n).(state := HeaderFieldStart, major := major, minor := minor));
    assert ['.'] == ".";
  }

  // ---------------------------------------------------------------- header blocks

  function HeaderText(hs: seq<(string, string)>): string {
    if hs == [] then "" else HeaderLine(hs[0].0, hs[0].1) + HeaderText(hs[1..])
  }

  function HeaderAtoms(hs: seq<(string, string)>): seq<Atom> {
    if hs == [] then [] else BytesOf(Field, hs[0].0) + BytesOf(Value, hs[0].1) + HeaderAtoms(hs[1..])
  }

  predicate AreHeaders(hs: seq<(string, string)>) { forall h :: h in hs ==> IsHeader(h.0, h.1) }

  function FlagsAfterAll(f: Flags, hs: seq<(string, string)>): Flags
    decreases |hs|
  {
    if hs == [] then f else FlagsAfterAll(FlagsAfter(f, hs[0].0, hs[0].1), hs[1..])
  }

  function LengthAfterAll(n: nat, hs: seq<(string, string)>): nat
    requires AreHeaders(hs)
    decreases |hs|
  {
    if hs == [] then n else LengthAfterAll(LengthAfter(n, hs[0].0, hs[0].1), hs[1..])
  }

  predicate LineStart(s: State) { s.HeaderFieldStart? || s.HeaderValueLws? }

  /** After a header line, the next line starts where a first one would. */
  lemma LineStarts(answersOne: Parser -> bool, p: Parser, s: string)
    requires LineStart(p.state) && Room(p, 1) && s != "" && s[0] != ' ' && s[0] != '\t'
    ensures Run(answersOne, p, s) == Run(answersOne, p.(state := HeaderFieldStart), s)
  {
    hide Run, Switch;
    if p.state.HeaderValueLws? {
      assert s == [s[0]] + s[1..];
      Dispatch(answersOne, Read(p, 1), s[0]);
      GoesAgain(answersOne, p, s[0], p.(state := HeaderFieldStart), s[1..]);
    }
  }

  lemma NameStarts(name: string, v: string)
    requires IsName(name)
    ensures HeaderLine(name, v) != "" && HeaderLine(name, v)[0] != ' ' && HeaderLine(name, v)[0] != '\t'
  {
    assert HeaderLine(name, v)[0] == name[0];
    assert Token(name[0]) != '\0';
  }

  function AfterHeaders(p: Parser, hs: seq<(string, string)>, h: HeaderState, index: nat): Parser
    requires AreHeaders(hs)
  {
    if hs == [] then p
    else Read(p, |HeaderText(hs)|).(state := HeaderValueLws, headerState := h, index := index,
           flags := FlagsAfterAll(p.flags, hs), contentLength := LengthAfterAll(p.contentLength, hs))
  }

  /** All header lines. */
  lemma {:induction false} HeadersGo(answersOne: Parser -> bool, p: Parser, hs: seq<(string, string)>)
    returns (h: HeaderState, index: nat)
    requires LineStart(p.state) && AreHeaders(hs) && Room(p, |HeaderText(hs)|)
    ensures Goes(answersOne, p, HeaderText(hs), AfterHeaders(p, hs, h, index), HeaderAtoms(hs))
    decreases |hs|
  {
    hide Goes, FlagsAfter, LengthAfter, BytesOf, HeaderLine, IsHeader;
    if hs == [] {
      h, index := General, 0;
      GoesNowhere(answersOne, p);
    } else {
      var name, v, rest := hs[0].0, hs[0].1, hs[1..];
      assert IsHeader(name, v) by { assert hs[0] in hs; }
      var atoms := BytesOf(Field, name) + BytesOf(Value, v);
      h, index := OneHeader(answersOne, p, name, v);
      var q := AfterHeader(p, name, v, h, index);
      var h', index' := HeadersGo(answersOne, q, rest);
      GoesOn(answersOne, p, HeaderLine(name, v), q, atoms, HeaderText(rest), AfterHeaders(q, rest, h', index'),
             HeaderAtoms(rest));
      assert HeaderText(hs) == HeaderLine(name, v) + HeaderText(rest);
      assert FlagsAfterAll(p.flags, hs) == FlagsAfterAll(q.flags, rest);
      assert LengthAfterAll(p.contentLength, hs) == LengthAfterAll(q.contentLength, rest);
      if rest != [] {
        h, index := h', index';
      } else {
        assert FlagsAfterAll(q.flags, rest) == q.flags && LengthAfterAll(q.contentLength, rest) == q.contentLength;
      }
      assert AfterHeaders(q, rest, h', index') == AfterHeaders(p, hs, h, index);
    }
  }

  lemma OneHeader(answersOne: Parser -> bool, p: Parser, name: string, v: string) returns (h: HeaderState, index: nat)
    requires LineStart(p.state) && IsHeader(name, v) && Room(p, |HeaderLine(name, v)|)
    ensures Goes(answersOne, p, HeaderLine(name, v), AfterHeader(p, name, v, h, index),
                 BytesOf(Field, name) + BytesOf(Value, v))
  {
    hide Run, FlagsAfter, LengthAfter, BytesOf, HeaderLine, IsValue, IsName, Meaning;
    NameStarts(name, v);
    LineStarts(answersOne, p, HeaderLine(name, v));
    h, index := HeaderGoes(answersOne, p.(state := HeaderFieldStart), name, v);
  }

  // ---------------------------------------------------------------- requests

  datatype Request = Request(verb: Method, target: string, major: nat, minor: nat, headers: seq<(string, string)>)

  predicate IsRequest(r: Request) {
    IsTarget(r.verb, r.target) && 0 < r.major <= 999 && r.minor <= 999 && AreHeaders(r.headers)
  }

  function LineText(r: Request): string {
    Taken(r.verb) + " " + r.target + VersionText(r.major, r.minor)
  }

  /** The text of a request, without a body. */
  function HeadText(r: Request): string { LineText(r) + HeaderText(r.headers) + CRLF }

  /** The fields once the request has been read: where the message ends is decided by them. */
  function HeadRead(p: Parser, r: Request, h: HeaderState, index: nat): Parser
    requires AreHeaders(r.headers)
  {
    p.(state := HeadersAlmostDone, flags := FlagsAfterAll(NO_FLAGS, r.headers),
       contentLength := LengthAfterAll(U64_MAX, r.headers),
       verb := r.verb, major := r.major, minor := r.minor, headerState := h, index := index,
       nread := p.nread + |HeadText(r)|)
  }

  function HeadAtoms(r: Request): seq<Atom> {
    [Signal(MessageBegin)] + BytesOf(Url, r.target) + HeaderAtoms(r.headers)
  }

  lemma LineGoes(answersOne: Parser -> bool, p: Parser, r: Request)
    requires p.state.StartReq? && IsRequest(r) && Room(p, |LineText(r)|)
    ensures Goes(answersOne, p, LineText(r),
                 Fresh(Read(p, |LineText(r)|)).(verb := r.verb, index := NameLength(r.verb) + 1, major := r.major,
                                               minor := r.minor, state := HeaderFieldStart),
                 [Signal(MessageBegin)] + BytesOf(Url, r.target))
  {
    hide Goes, Taken, BytesOf, UrlEnd, VersionText;
    TakenLength(r.verb);
    MethodGoes(answersOne, p, r.verb);
    var n := NameLength(r.verb) + 1;
    var q := Fresh(Read(p, n)).(verb := r.verb, index := n, state := ReqSpacesBeforeUrl);
    TargetGoes(answersOne, q, r.target);
    var t := UrlRead(q, r.target);
    GoesOn(answersOne, p, Taken(r.verb) + " ", q, [Signal(MessageBegin)], r.target, t, BytesOf(Url, r.target));
    VersionGoes(answersOne, t, r.major, r.minor);
    var u := Read(t, |VersionText(r.major, r.minor)|).(state := HeaderFieldStart, major := r.major, minor := r.minor);
    var x := [Signal(MessageBegin)] + BytesOf(Url, r.target);
    GoesOn(answersOne, p, Taken(r.verb) + " " + r.target, t, x, VersionText(r.major, r.minor), u, []);
    assert x + [] == x;
  }

  lemma BlankGoes(answersOne: Parser -> bool, p: Parser)
    requires LineStart(p.state) && Room(p, 1)
    ensures Goes(answersOne, p, [CR], Read(p, 1).(state := HeadersAlmostDone), [])
  {
    hide Run, Switch;
    LineStarts(answersOne, p, [CR]);
    var q := p.(state := HeaderFieldStart);
    Dispatch(answersOne, Read(q, 1), CR);
    GoesQuietly(answersOne, q, CR, Read(q, 1).(state := HeadersAlmostDone));
  }

  lemma FlagsNeverTrailing(f: Flags, hs: seq<(string, string)>)
    ensures FlagsAfterAll(f, hs).trailing == f.trailing
    decreases |hs|
  {
    hide Meaning, Says;
    if hs != [] { FlagsNeverTrailing(FlagsAfter(f, hs[0].0, hs[0].1), hs[1..]); }
  }

  /** The whole head but its last line feed. */
  lemma HeadGoes(answersOne: Parser -> bool, p: Parser, r: Request) returns (h: HeaderState, index: nat)
    requires p.state.StartReq? && IsRequest(r) && Room(p, |HeadText(r)|)
    ensures Goes(answersOne, p, LineText(r) + HeaderText(r.headers) + [CR],
                 HeadRead(p, r, h, index).(nread := p.nread + |HeadText(r)| - 1), HeadAtoms(r))
  {
    hide Goes, LineText, HeaderText, HeaderAtoms, BytesOf, FlagsAfterAll, LengthAfterAll, IsTarget;
    LineGoes(answersOne, p, r);
    var q := Fresh(Read(p, |LineText(r)|)).(verb := r.verb, index := NameLength(r.verb) + 1, major := r.major,
                                           minor := r.minor, state := HeaderFieldStart);
    h, index := HeadersGo(answersOne, q, r.headers);
    var t := AfterHeaders(q, r.headers, h, index);
    EmptyHeaders(r.headers);
    var x := [Signal(MessageBegin)] + BytesOf(Url, r.target);
    GoesOn(answersOne, p, LineText(r), q, x, HeaderText(r.headers), t, HeaderAtoms(r.headers));
    BlankGoes(answersOne, t);
    h, index := t.headerState, t.index;
    var u := Read(t, 1).(state := HeadersAlmostDone);
    assert u == HeadRead(p, r, h, index).(nread := p.nread + |HeadText(r)| - 1);
    GoesOn(answersOne, p, LineText(r) + HeaderText(r.headers), t, HeadAtoms(r), [CR], u, []);
    assert HeadAtoms(r) + [] == HeadAtoms(r);
  }

  lemma EmptyHeaders(hs: seq<(string, string)>)
    requires AreHeaders(hs)
    ensures hs == [] ==> HeaderText(hs) == "" && FlagsAfterAll(NO_FLAGS, hs) == NO_FLAGS
                         && LengthAfterAll(U64_MAX, hs) == U64_MAX
  {
  }

  /** A request read from its text: the callbacks are told the target and the headers, the
      fields are the request's, and what follows depends on them as `FramingOf` says. */
  lemma RequestRead(answersOne: Parser -> bool, p: Parser, r: Request, rest: string)
    returns (h: HeaderState, index: nat)
    requires p.state.StartReq? && IsRequest(r) && Room(p, |HeadText(r)|)
    ensures var e := HeadersSeen(answersOne, HeadRead(p, r, h, index));
            var n := |HeadText(r)|;
            Run(answersOne, p, HeadText(r) + rest) ==
              match FramingOf(e)
              case Handover => Result(e.(state := NewMessage(e)), HeadAtoms(r) + TOLD_ALL, n, Upgraded)
              case NoBody => Run(answersOne, e.(state := NewMessage(e)), rest).After(HeadAtoms(r) + TOLD_ALL, n)
              case InChunks => Run(answersOne, e.(state := ChunkSizeStart), rest).After(HeadAtoms(r) + TOLD, n)
              case OfLength(_) => Run(answersOne, e.(state := BodyIdentity), rest).After(HeadAtoms(r) + TOLD, n)
              case UntilEof => Run(answersOne, e.(state := BodyIdentityEof), rest).After(HeadAtoms(r) + TOLD, n)
  {
    hide Run, HeadAtoms, FlagsAfterAll, LengthAfterAll, IsTarget, Goes, HeadersSeen, FramingOf, NewMessage, LineText,
         HeaderText, AreHeaders;
    h, index := HeadGoes(answersOne, p, r);
    var n := |HeadText(r)|;
    var head := LineText(r) + HeaderText(r.headers) + [CR];
    var q := HeadRead(p, r, h, index).(nread := p.nread + n - 1);
    GoesThen(answersOne, p, head, q, HeadAtoms(r), [LF] + rest);
    assert head + ([LF] + rest) == HeadText(r) + rest;
    FlagsNeverTrailing(NO_FLAGS, r.headers);
    HeadersEnd(answersOne, q, rest);
    var e := HeadersSeen(answersOne, Read(q, 1));
    assert Read(q, 1) == HeadRead(p, r, h, index);
    AfterAfter(Run(answersOne, e.(state := NewMessage(e)), rest), HeadAtoms(r), n - 1, TOLD_ALL, 1);
    AfterAfter(Run(answersOne, e.(state := ChunkSizeStart), rest), HeadAtoms(r), n - 1, TOLD, 1);
    AfterAfter(Run(answersOne, e.(state := BodyIdentity), rest), HeadAtoms(r), n - 1, TOLD, 1);
    AfterAfter(Run(answersOne, e.(state := BodyIdentityEof), rest), HeadAtoms(r), n - 1, TOLD, 1);
  }

  // ---------------------------------------------------------------- requests with bodies

  predicate Plain(r: Request) { r.verb != CONNECT && !FlagsAfterAll(NO_FLAGS, r.headers).upgrade }

  lemma PlainSeen(answersOne: Parser -> bool, p: Parser, r: Request, h: HeaderState, index: nat)
    requires AreHeaders(r.headers) && Plain(r) && forall x :: !answersOne(x)
    ensures var e := HeadersSeen(answersOne, HeadRead(p, r, h, index));
      && e == HeadRead(p, r, h, index).(state := HeadersDone, upgrade := false, nread := 0)
      && (e.flags.chunked ==> FramingOf(e) == InChunks)
      && (!e.flags.chunked && 0 < e.contentLength < U64_MAX ==> FramingOf(e) == OfLength(e.contentLength))
      && (!e.flags.chunked && e.contentLength == 0 ==> FramingOf(e) == NoBody)
      && (!e.flags.chunked && e.contentLength == U64_MAX && p.kind == Kind.Request ==> FramingOf(e) == NoBody)
  {
    hide FlagsAfterAll, LengthAfterAll, Meaning, Says;
    SkipsNothing(NO_FLAGS, r.headers);
  }

  lemma {:induction false} SkipsNothing(f: Flags, hs: seq<(string, string)>)
    ensures FlagsAfterAll(f, hs).skipBody == f.skipBody
    decreases |hs|
  {
    hide Meaning, Says;
    if hs != [] { SkipsNothing(FlagsAfter(f, hs[0].0, hs[0].1), hs[1..]); }
  }

  /** What is left behind by a request that came with a body. */
  ghost predicate Finished(p: Parser, q: Parser, r: Request) {
    && q.errno == OK && q.verb == r.verb && q.major == r.major && q.minor == r.minor && q.kind == p.kind
    && q.flags == FlagsAfterAll(NO_FLAGS, r.headers)
    && q.contentLength == 0 && q.nread == 0 && q.state == NewMessage(q)
  }

  lemma SameNext(p: Parser, q: Parser)
    requires q == p.(state := q.state)
    ensures NewMessage(p) == NewMessage(q)
  {
  }

  /** A Content-Length below 2^64 - 1 is exact: so many bytes are delivered, and no more. */
  lemma LengthRequestRead(answersOne: Parser -> bool, p: Parser, r: Request, body: string, rest: string)
    returns (q: Parser)
    requires p.state.StartReq? && IsRequest(r) && Room(p, |HeadText(r)|)
    requires Plain(r) && (forall x :: !answersOne(x)) && !FlagsAfterAll(NO_FLAGS, r.headers).chunked
    requires LengthAfterAll(U64_MAX, r.headers) == |body| && 0 < |body| < U64_MAX
    ensures Finished(p, q, r)
    ensures Run(answersOne, p, HeadText(r) + body + rest)
         == Run(answersOne, q, rest).After(
              HeadAtoms(r) + TOLD + (BytesOf(Body, body) + [Signal(MessageComplete)]), |HeadText(r)| + |body|)
  {
    hide Run, Goes, HeadText, HeadAtoms, FlagsAfterAll, LengthAfterAll, IsTarget, FramingOf, BytesOf, NewMessage,
         HeadersSeen;
    var h, index := RequestRead(answersOne, p, r, body + rest);
    assert HeadText(r) + (body + rest) == HeadText(r) + body + rest;
    PlainSeen(answersOne, p, r, h, index);
    FlagsNeverTrailing(NO_FLAGS, r.headers);
    var e := HeadRead(p, r, h, index).(state := BodyIdentity, upgrade := false, nread := 0);
    LengthBodyGoes(answersOne, e, body);
    var last := e.(contentLength := 0);
    q := last.(state := NewMessage(last));
    SameNext(last, q);
    var atoms := BytesOf(Body, body) + [Signal(MessageComplete)];
    GoesThen(answersOne, e, body, q, atoms, rest);
    AfterAfter(Run(answersOne, q, rest), HeadAtoms(r) + TOLD, |HeadText(r)|, atoms, |body|);
  }
}
