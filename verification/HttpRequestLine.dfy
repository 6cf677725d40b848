/** Request lines: which of them are accepted, exactly, and what they say. */
module HttpRequestLine {
  import opened Options
  import opened HttpTypes
  import opened HttpSwitch
  import opened HttpRun
  import opened HttpParser
  import HttpSplit
  import opened HttpGoes
  import opened HttpMessage
  import opened HttpMethod
  import opened HttpRequest
  import HttpLines
  import opened Decimal

  // ---------------------------------------------------------------- what a request line is

  /** Digits of a version, which need not be short. */
  datatype Version = Version(gap: nat, major: string, minor: string)

  /** Without a version, the request is one of HTTP/0.9. */
  datatype Line = Line(verb: Method, spaces: nat, target: string, version: Option<Version>, cr: bool)

  function Spaces(n: nat): (s: string)
    ensures |s| == n && forall i :: 0 <= i < n ==> s[i] == ' '
  {
    if n == 0 then "" else Spaces(n - 1) + [' ']
  }

  predicate IsVersion(v: Version) {
    && v.gap > 0
    && v.major != "" && AllDigits(v.major) && v.major[0] != '0' && Decimal.Value(v.major) <= 999
    && v.minor != "" && AllDigits(v.minor) && Decimal.Value(v.minor) <= 999
  }

  predicate IsRequestLine(l: Line) {
    l.spaces > 0 && IsTarget(l.verb, l.target) && (l.version.Some? ==> IsVersion(l.version.value))
  }

  function VersionTextOf(v: Option<Version>): string {
    match v
    case None => ""
    case Some(x) => Spaces(x.gap) + "HTTP/" + x.major + "." + x.minor
  }

  function FrontText(verb: Method, spaces: nat, target: string): string { Taken(verb) + Spaces(spaces) + target }

  function LineTextOf(l: Line): string {
    FrontText(l.verb, l.spaces, l.target) + VersionTextOf(l.version) + HttpLines.Eol(l.cr)
  }

  /** The fields that a line leaves behind. */
  predicate Left(l: Line, p: Parser, q: Parser)
    requires l.version.Some? ==> AllDigits(l.version.value.major) && AllDigits(l.version.value.minor)
  {
    && q.errno == OK && q.kind == p.kind && q.state.HeaderFieldStart? && q.nread == p.nread + |LineTextOf(l)|
    && q.verb == l.verb && q.flags == NO_FLAGS && q.contentLength == U64_MAX
    && (if l.version == None then q.major == 0 && q.minor == 9
        else q.major == Decimal.Value(l.version.value.major) && q.minor == Decimal.Value(l.version.value.minor))
  }

  // ---------------------------------------------------------------- what has been read of one

  /** How far a version has been read. */
  datatype Half = Letters(n: nat) | Major(major: string) | Dot(major: string) | Minor(major: string, minor: string)

  /** How far a line has been read. */
  datatype Part =
    | InMethod
    | InSpaces(verb: Method, spaces: nat)
    | InTarget(verb: Method, spaces: nat, target: string)
    | InVersion(verb: Method, spaces: nat, target: string, gap: nat, half: Half)
    | AtCr(line: Line)

  predicate GoodMajor(a: string, n: nat) { a != "" && AllDigits(a) && a[0] != '0' && Decimal.Value(a) == n <= 999 }

  predicate GoodMinor(b: string, n: nat) { b != "" && AllDigits(b) && Decimal.Value(b) == n <= 999 }

  function HalfText(h: Half): string {
    match h
    case Letters(n) => if n <= 5 then "HTTP/"[..n] else ""
    case Major(a) => "HTTP/" + a
    case Dot(a) => "HTTP/" + a + "."
    case Minor(a, b) => "HTTP/" + a + "." + b
  }

  predicate HalfFits(h: Half, q: Parser) {
    match h
    case Letters(n) => n <= 5 && q.state == HttpState(n)
    case Major(a) => q.state.ReqHttpMajor? && GoodMajor(a, q.major)
    case Dot(a) => q.state.ReqFirstHttpMinor? && GoodMajor(a, q.major)
    case Minor(a, b) => q.state.ReqHttpMinor? && GoodMajor(a, q.major) && GoodMinor(b, q.minor)
  }

  predicate LineFits(l: Line, q: Parser) {
    && l.verb == q.verb && l.spaces > 0 && IsTarget(l.verb, l.target)
    && match l.version
       case None => q.major == 0 && q.minor == 9
       case Some(v) => v.gap > 0 && GoodMajor(v.major, q.major) && GoodMinor(v.minor, q.minor)
  }

  /** The bytes `s` have led to `q`. */
  predicate Fits(part: Part, s: string, q: Parser) {
    match part
    case InMethod => q.state.ReqMethod? && Believed(s) == Some((q.verb, q.index))
    case InSpaces(m, k) => q.state.ReqSpacesBeforeUrl? && q.verb == m && k > 0 && s == Taken(m) + Spaces(k)
    case InTarget(m, k, t) =>
      && q.verb == m && k > 0 && t != "" && q.state == UrlEnd(UrlStart(m), t) && MarkOf(q.state) == Some(Url)
      && s == FrontText(m, k, t)
    case InVersion(m, k, t, j, h) =>
      && q.verb == m && k > 0 && IsTarget(m, t) && j > 0 && HalfFits(h, q)
      && s == FrontText(m, k, t) + Spaces(j) + HalfText(h)
    case AtCr(l) =>
      && q.state.ReqLineAlmostDone? && LineFits(l, q)
      && s == FrontText(l.verb, l.spaces, l.target) + VersionTextOf(l.version) + [CR]
  }

  // ---------------------------------------------------------------- one more byte

  lemma MethodSame(p: Parser, ch: char)
    requires p.state.ReqMethod?
    ensures var o, r := MethodByte(p, ch), MethodByte(Reading(p.verb, p.index), ch);
      o.flow == r.flow && o.p.state == r.p.state && o.p.verb == r.p.verb && o.p.index == r.p.index
    ensures var o := MethodByte(p, ch); o.flow == Advance ==>
      o.p == p.(state := o.p.state, verb := o.p.verb, index := o.p.index)
      && (o.p.state.ReqMethod? || (o.p.state.ReqSpacesBeforeUrl? && ch == ' ' && o.p.verb == p.verb))
  {
    hide HttpTypes.Method.Name, Switched;
  }

  lemma MethodStep(s: string, q: Parser, ch: char) returns (part: Part)
    requires Fits(InMethod, s, q) && MethodByte(q, ch).flow == Advance
    ensures Fits(part, s + [ch], MethodByte(q, ch).p)
  {
    hide MethodByte, Believed;
    MethodSame(q, ch);
    BelievedNotEmpty(s);
    assert (s + [ch])[..|s + [ch]| - 1] == s;
    if MethodByte(q, ch).p.state.ReqMethod? {
      BelievedNext(s + [ch], q.verb, q.index);
      part := InMethod;
    } else {
      MethodExactly(s, q.verb);
      part := InSpaces(q.verb, 1);
      assert Spaces(1) == [' '] by { assert Spaces(0) + [' '] == [' ']; }
    }
  }

  lemma BelievedNotEmpty(s: string)
    requires Believed(s).Some?
    ensures s != ""
  {
  }

  lemma SpacesMore(k: nat, a: string)
    ensures a + Spaces(k) + [' '] == a + Spaces(k + 1)
  {
  }

  lemma UrlEndMore(m: Method, t: string, ch: char)
    ensures UrlEnd(UrlStart(m), t + [ch]) == ParseUrlChar(UrlEnd(UrlStart(m), t), ch)
  {
    hide ParseUrlChar;
    assert (t + [ch])[..|t|] == t;
  }

  lemma SpacesStep(m: Method, k: nat, s: string, q: Parser, ch: char) returns (part: Part)
    requires Fits(InSpaces(m, k), s, q) && UrlByte(q, ch).flow == Advance
    ensures Fits(part, s + [ch], UrlByte(q, ch).p)
  {
    hide ParseUrlChar, HttpMethod.Taken, Spaces, UrlEnd;
    if ch == ' ' {
      part := InSpaces(m, k + 1);
      SpacesMore(k, HttpMethod.Taken(m));
    } else {
      part := InTarget(m, k, [ch]);
      UrlEndMore(m, "", ch);
      assert "" + [ch] == [ch] && UrlEnd(UrlStart(m), "") == UrlStart(m) by { NoTarget(m); }
      ParseUrlCharStates(UrlStart(m), ch);
    }
  }

  lemma NoTarget(m: Method)
    ensures UrlEnd(UrlStart(m), "") == UrlStart(m)
  {
  }

  /** What a byte does inside of a target. */
  lemma UrlByteMeans(q: Parser, ch: char)
    requires MarkOf(q.state) == Some(Url) && UrlByte(q, ch).flow == Advance
    ensures var o := UrlByte(q, ch);
      || (o.p == q.(state := ParseUrlChar(q.state, ch)) && !ParseUrlChar(q.state, ch).Dead?)
      || (UrlMayEnd(q.state) && ch == ' ' && o.p == q.(state := ReqHttpStart))
      || (UrlMayEnd(q.state) && (ch == CR || ch == LF)
          && o.p == q.(major := 0, minor := 9, state := if ch == CR then ReqLineAlmostDone else HeaderFieldStart))
  {
    hide ParseUrlChar;
  }

  lemma TargetStep(m: Method, k: nat, t: string, s: string, q: Parser, ch: char) returns (part: Part)
    requires Fits(InTarget(m, k, t), s, q) && UrlByte(q, ch).flow == Advance && ch != LF
    ensures Fits(part, s + [ch], UrlByte(q, ch).p)
  {
    hide ParseUrlChar, HttpMethod.Taken, UrlEnd, UrlByte, MarkOf;
    UrlByteMeans(q, ch);
    var o := UrlByte(q, ch);
    var f := FrontText(m, k, t);
    if o.p == q.(state := ParseUrlChar(q.state, ch)) && !ParseUrlChar(q.state, ch).Dead? {
      UrlEndMore(m, t, ch);
      ParseUrlCharStates(q.state, ch);
      part := InTarget(m, k, t + [ch]);
      assert FrontText(m, k, t + [ch]) == f + [ch];
    } else if ch == ' ' {
      part := InVersion(m, k, t, 1, Letters(0));
      assert f + Spaces(1) == f + [' '] by { assert f + Spaces(0) == f; SpacesMore(0, f); }
      assert f + Spaces(1) + HalfText(Letters(0)) == f + Spaces(1);
    } else {
      part := AtCr(Line(m, k, t, None, true));
      assert f + "" == f;
    }
  }

  lemma DigitsGrow(a: string, ch: char)
    requires AllDigits(a) && IsDigit(ch)
    ensures AllDigits(a + [ch]) && Decimal.Value(a + [ch]) == Decimal.Value(a) * 10 + Digit(ch)
    ensures a != "" ==> (a + [ch])[0] == a[0]
  {
    HttpLines.DigitAdded(a, ch);
  }

  lemma OneDigitValue(ch: char)
    requires IsDigit(ch)
    ensures AllDigits([ch]) && Decimal.Value([ch]) == Digit(ch)
  {
    assert [ch][..0] == "";
  }

  /** One more byte of a version: what has been read of it grows, or the line ends. */
  lemma HalfStep(h: Half, q: Parser, ch: char) returns (g: Half)
    requires HalfFits(h, q) && ReqVersionByte(q, ch).flow == Advance && ReqVersionByte(q, ch).p.errno == OK
    requires ch != CR && ch != LF && !(h == Letters(0) && ch == ' ')
    ensures HalfFits(g, ReqVersionByte(q, ch).p) && HalfText(g) == HalfText(h) + [ch]
    ensures var o := ReqVersionByte(q, ch); o.p == q.(state := o.p.state, major := o.p.major, minor := o.p.minor)
  {
    hide Decimal.Value;
    match h
    case Letters(n) =>
      if n == 5 {
        g := Major([ch]);
        OneDigitValue(ch);
        assert "HTTP/"[..5] == "HTTP/";
      } else {
        g := Letters(n + 1);
        assert "HTTP/"[..n + 1] == "HTTP/"[..n] + ["HTTP/"[n]];
      }
    case Major(a) =>
      if ch == '.' {
        g := Dot(a);
        assert ['.'] == ".";
      } else {
        g := Major(a + [ch]);
        DigitsGrow(a, ch);
        assert "HTTP/" + (a + [ch]) == "HTTP/" + a + [ch];
      }
    case Dot(a) =>
      g := Minor(a, [ch]);
      OneDigitValue(ch);
    case Minor(a, b) =>
      g := Minor(a, b + [ch]);
      DigitsGrow(b, ch);
      assert "HTTP/" + a + "." + (b + [ch]) == "HTTP/" + a + "." + b + [ch];
  }

  /** The end of a version. */
  lemma HalfEnds(h: Half, q: Parser, ch: char)
    requires HalfFits(h, q) && ReqVersionByte(q, ch).flow == Advance && ReqVersionByte(q, ch).p.errno == OK && (ch == CR || ch == LF)
    ensures h.Minor?
    ensures ReqVersionByte(q, ch).p == q.(state := if ch == CR then ReqLineAlmostDone else HeaderFieldStart)
  {
  }

  lemma VersionStep(part: Part, s: string, q: Parser, ch: char) returns (next: Part)
    requires part.InVersion? && Fits(part, s, q)
    requires ReqVersionByte(q, ch).flow == Advance && ReqVersionByte(q, ch).p.errno == OK && ch != LF
    ensures Fits(next, s + [ch], ReqVersionByte(q, ch).p)
  {
    hide ReqVersionByte, FrontText, HalfText, HalfFits, IsTarget, Spaces;
    var h, j := part.half, part.gap;
    var f := FrontText(part.verb, part.spaces, part.target);
    if h == Letters(0) && ch == ' ' {
      GapMeans(q, h);
      next := part.(gap := j + 1);
      SpacesMore(j, f);
      assert HalfText(h) == "" by { NoLetters(); }
      assert f + Spaces(j) + "" + [' '] == f + Spaces(j + 1) + "";
    } else if ch == CR {
      HalfEnds(h, q, ch);
      next := AtCr(Line(part.verb, part.spaces, part.target, Some(Version(j, h.major, h.minor)), true));
      MinorMeans(h, q);
      assert f + VersionTextOf(next.line.version) == f + Spaces(j) + HalfText(h) by { MinorText(f, j, h); }
    } else {
      var g := HalfStep(h, q, ch);
      next := part.(half := g);
      assert f + Spaces(j) + HalfText(h) + [ch] == f + Spaces(j) + (HalfText(h) + [ch]);
    }
  }

  lemma GapMeans(q: Parser, h: Half)
    requires HalfFits(h, q) && h == Letters(0)
    ensures ReqVersionByte(q, ' ').p == q
  {
  }

  lemma NoLetters()
    ensures HalfText(Letters(0)) == ""
  {
  }

  lemma MinorMeans(h: Half, q: Parser)
    requires HalfFits(h, q) && h.Minor?
    ensures GoodMajor(h.major, q.major) && GoodMinor(h.minor, q.minor)
  {
  }

  lemma MinorText(f: string, j: nat, h: Half)
    requires h.Minor?
    ensures f + VersionTextOf(Some(Version(j, h.major, h.minor))) == f + Spaces(j) + HalfText(h)
  {
    hide Spaces;
    assert HalfText(h) == "HTTP/" + h.major + "." + h.minor;
    assert f + (Spaces(j) + "HTTP/" + h.major + "." + h.minor) == f + Spaces(j) + ("HTTP/" + h.major + "." + h.minor);
  }

  // ---------------------------------------------------------------- whatever is accepted

  ghost predicate Accepted(answersOne: Parser -> bool, p: Parser, s: string) {
    Run(answersOne, p, s).exit == Running && Run(answersOne, p, s).p.errno == OK
  }

  function After(answersOne: Parser -> bool, p: Parser, s: string): Parser { Run(answersOne, p, s).p }

  /** What is accepted has been accepted byte by byte. */
  lemma LastByte(answersOne: Parser -> bool, p: Parser, s: string, ch: char)
    requires Accepted(answersOne, p, s + [ch])
    ensures Accepted(answersOne, p, s) && Accepted(answersOne, After(answersOne, p, s), [ch])
    ensures After(answersOne, p, s + [ch]) == After(answersOne, After(answersOne, p, s), [ch])
  {
    HttpSplit.RunConcat(answersOne, p, s, [ch]);
    NotInError(answersOne, After(answersOne, p, s), [ch]);
    hide Run;
  }

  lemma NotInError(answersOne: Parser -> bool, p: Parser, s: string)
    ensures Run(answersOne, p, s).exit == Running ==> p.errno == OK
  {
  }

  predicate InVersionPart(s: State) {
    s.ReqHttpStart? || s.ReqHttpH? || s.ReqHttpHT? || s.ReqHttpHTT? || s.ReqHttpHTTP? || s.ReqFirstHttpMajor?
    || s.ReqHttpMajor? || s.ReqFirstHttpMinor? || s.ReqHttpMinor? || s.ReqLineAlmostDone?
  }

  predicate InUrlPart(s: State) { s.ReqSpacesBeforeUrl? || MarkOf(s) == Some(Url) }

  predicate OnLine(s: State) { s.ReqMethod? || InUrlPart(s) || InVersionPart(s) }

  lemma LineStates(s: State)
    ensures s.StartReq? || s.ReqMethod? ==> ParsingHeader(s)
    ensures s.StartReq? ==> ArmOf(s) == StartArm
    ensures s.ReqMethod? ==> ArmOf(s) == MethodArm
  {
  }

  lemma UrlStates(s: State)
    ensures InUrlPart(s) ==> ParsingHeader(s) && ArmOf(s) == UrlArm
  {
  }

  lemma VersionStates(s: State)
    ensures InVersionPart(s) ==> ParsingHeader(s) && ArmOf(s) == ReqVersionArm
  {
  }

  lemma NeverAgain(p: Parser, ch: char)
    ensures StartReqByte(p, ch).flow in {Advance, Stop} && MethodByte(p, ch).flow in {Advance, Stop}
    ensures UrlByte(p, ch).flow in {Advance, Stop} && ReqVersionByte(p, ch).flow in {Advance, Stop}
  {
    hide FirstLetter, Switched, HttpTypes.Method.Name, ParseUrlChar;
  }

  /** What handles a byte of a request line. */
  function LineByte(p: Parser, ch: char): Outcome {
    if p.state.StartReq? then StartReqByte(p, ch)
    else if p.state.ReqMethod? then MethodByte(p, ch)
    else if InUrlPart(p.state) then UrlByte(p, ch)
    else ReqVersionByte(p, ch)
  }

  lemma LineByteIs(answersOne: Parser -> bool, p: Parser, ch: char)
    requires OnLine(p.state) || p.state.StartReq?
    ensures Switch(answersOne, p, ch) == LineByte(p, ch)
  {
    hide StartReqByte, MethodByte, UrlByte, ReqVersionByte, ArmOf, ParsingHeader, MarkOf, InVersionPart;
    LineStates(p.state);
    UrlStates(p.state);
    VersionStates(p.state);
    Dispatch(answersOne, p, ch);
    DispatchLine(answersOne, p, ch);
  }

  lemma AcceptedByte(answersOne: Parser -> bool, p: Parser, ch: char)
    requires Accepted(answersOne, p, [ch]) && p.nread < MAX_HEADER_SIZE && (OnLine(p.state) || p.state.StartReq?)
    ensures LineByte(Read(p, 1), ch).flow == Advance && LineByte(Read(p, 1), ch).p == After(answersOne, p, [ch])
    ensures LineByte(Read(p, 1), ch).p.errno == OK
  {
    NotInError(answersOne, p, [ch]);
    LineStates(p.state);
    UrlStates(p.state);
    VersionStates(p.state);
    LineByteIs(answersOne, Read(p, 1), ch);
    NeverAgain(Read(p, 1), ch);
    RunCons(answersOne, p, [ch]);
    SettleCons(answersOne, Read(p, 1), ch);
    assert [ch][1..] == "";
    HttpSplit.RunNothing(answersOne, LineByte(Read(p, 1), ch).p.(errno := OK));
    hide StartReqByte, MethodByte, UrlByte, ReqVersionByte, Switch, OnLine, MarkOf, ParsingHeader, ArmOf;
  }

  /** A parser that waits for a request, and has room for `n` more bytes. */
  predicate Awaits(p: Parser, n: nat) { p.state.StartReq? && p.errno == OK && p.nread + n <= 81920 }

  /** What does not change on the way. */
  predicate Along(p: Parser, n: nat, q: Parser) {
    q.kind == p.kind && q.flags == NO_FLAGS && q.contentLength == U64_MAX && q.nread == p.nread + n
  }

  lemma FirstByte(p: Parser, ch: char)
    requires p.state.StartReq? && ch != CR && ch != LF && StartReqByte(p, ch).flow == Advance
    ensures Fits(InMethod, [ch], StartReqByte(p, ch).p) && Along(p, 0, StartReqByte(p, ch).p)
  {
    hide FirstLetter, Believed;
    BelievedFirst(ch);
  }

  lemma FitsOnLine(part: Part, s: string, q: Parser)
    requires Fits(part, s, q)
    ensures OnLine(q.state) && !q.state.StartReq?
    ensures q.state.ReqMethod? <==> part.InMethod?
    ensures InUrlPart(q.state) <==> part.InSpaces? || part.InTarget?
    ensures part.AtCr? <==> q.state.ReqLineAlmostDone?
  {
    hide Believed, HttpMethod.Taken, UrlEnd, IsTarget, GoodMajor, GoodMinor, LineFits, Spaces;
    if part.InTarget? { TargetStates(part, s, q); }
  }

  lemma TargetStates(part: Part, s: string, q: Parser)
    requires Fits(part, s, q) && part.InTarget?
    ensures !q.state.ReqMethod? && !q.state.ReqLineAlmostDone? && !q.state.StartReq?
  {
    hide HttpMethod.Taken, UrlEnd, Spaces;
  }

  lemma KeepsAlong(p: Parser, ch: char)
    requires !p.state.StartReq? && LineByte(p, ch).flow == Advance
    ensures var q := LineByte(p, ch).p; q.kind == p.kind && q.flags == p.flags && q.contentLength == p.contentLength && q.nread == p.nread
  {
    hide ParseUrlChar, Switched, HttpTypes.Method.Name, MarkOf;
  }

  /** One byte more, if it is accepted and does not end the line. */
  lemma PartStep(part: Part, s: string, q: Parser, ch: char) returns (next: Part)
    requires Fits(part, s, q) && ch != LF && LineByte(q, ch).flow == Advance && LineByte(q, ch).p.errno == OK
    ensures Fits(next, s + [ch], LineByte(q, ch).p)
  {
    FitsOnLine(part, s, q);
    hide Fits, OnLine, InUrlPart, MethodByte, UrlByte, ReqVersionByte, StartReqByte;
    next := part;
    match part
    case InMethod => next := MethodStep(s, q, ch);
    case InSpaces(m, k) => next := SpacesStep(m, k, s, q, ch);
    case InTarget(m, k, t) => next := TargetStep(m, k, t, s, q, ch);
    case InVersion(_, _, _, _, _) => next := VersionStep(part, s, q, ch);
    case AtCr(_) => CrNeedsLf(q, ch);
  }

  /** Behind a carriage return, only a line feed is accepted. */
  lemma CrNeedsLf(q: Parser, ch: char)
    requires q.state.ReqLineAlmostDone? && ReqVersionByte(q, ch).flow == Advance
    ensures ch == LF && ReqVersionByte(q, ch).p == q.(state := HeaderFieldStart)
  {
  }

  lemma {:induction false} PartOf(answersOne: Parser -> bool, p: Parser, s: string) returns (part: Part)
    requires Awaits(p, |s|) && s != "" && s[0] != CR && s[0] != LF && LF !in s && Accepted(answersOne, p, s)
    ensures Fits(part, s, After(answersOne, p, s)) && Along(p, |s|, After(answersOne, p, s))
    decreases |s|
  {
    hide Accepted, After, Fits, OnLine, LineByte;
    var init, ch := s[..|s| - 1], s[|s| - 1];
    assert s == init + [ch] && ch in s;
    LastByte(answersOne, p, init, ch);
    if init == "" {
      AfterNothing(answersOne, p);
      assert [ch] == s;
      AcceptedByte(answersOne, p, ch);
      StartOfLine(p, ch);
      part := InMethod;
    } else {
      forall c | c in init ensures c in s {}
      var before := PartOf(answersOne, p, init);
      var q := After(answersOne, p, init);
      part := PartMore(answersOne, p, before, init, q, ch);
    }
  }

  lemma AfterNothing(answersOne: Parser -> bool, p: Parser)
    requires p.errno == OK
    ensures After(answersOne, p, "") == p
  {
    HttpSplit.RunNothing(answersOne, p);
    hide Run;
  }

  lemma StartOfLine(p: Parser, ch: char)
    requires p.state.StartReq? && ch != CR && ch != LF && LineByte(Read(p, 1), ch).flow == Advance
    ensures Fits(InMethod, [ch], LineByte(Read(p, 1), ch).p) && Along(p, 1, LineByte(Read(p, 1), ch).p)
  {
    hide StartReqByte, Fits;
    FirstByte(Read(p, 1), ch);
  }

  lemma PartMore(answersOne: Parser -> bool, p: Parser, part: Part, s: string, q: Parser, ch: char) returns (next: Part)
    requires Fits(part, s, q) && Along(p, |s|, q) && q.nread < MAX_HEADER_SIZE && ch != LF && Accepted(answersOne, q, [ch])
    ensures Fits(next, s + [ch], After(answersOne, q, [ch])) && Along(p, |s| + 1, After(answersOne, q, [ch]))
  {
    hide Accepted, After, LineByte, OnLine;
    FitsOnLine(part, s, q);
    hide Fits;
    AcceptedByte(answersOne, q, ch);
    FitsAnyway(part, s, q);
    KeepsAlong(Read(q, 1), ch);
    next := PartStep(part, s, Read(q, 1), ch);
  }

  /** The count of the bytes does not matter. */
  lemma FitsAnyway(part: Part, s: string, q: Parser)
    requires Fits(part, s, q)
    ensures Fits(part, s, Read(q, 1))
  {
    hide Believed, HttpMethod.Taken, UrlEnd, IsTarget, Spaces, GoodMajor, GoodMinor, MarkOf;
  }

  lemma NoLfInMethod(p: Parser)
    ensures MethodByte(p, LF).flow == Stop
  {
    NameHasNoLf(p.verb, p.index);
    hide HttpTypes.Method.Name;
    assert Switched(p.verb, p.index, LF) == None;
  }

  lemma NameHasNoLf(m: Method, i: nat)
    ensures CharAt(m.Name(), i) != LF
  {
  }

  lemma LfInTarget(q: Parser)
    requires MarkOf(q.state) == Some(Url) && UrlByte(q, LF).flow == Advance
    ensures UrlMayEnd(q.state) && UrlByte(q, LF).p == q.(major := 0, minor := 9, state := HeaderFieldStart)
  {
    UrlByteMeans(q, LF);
    UrlCharIsNoSpace(q.state, LF);
    hide UrlByte, ParseUrlChar;
  }

  lemma LfInSpaces(q: Parser)
    requires q.state.ReqSpacesBeforeUrl?
    ensures UrlByte(q, LF).flow == Stop
  {
  }

  /** A line feed, if it is accepted, ends the line. */
  lemma LastStep(part: Part, s: string, q: Parser) returns (l: Line)
    requires Fits(part, s, q) && LineByte(q, LF).flow == Advance && LineByte(q, LF).p.errno == OK
    ensures LineFits(l, LineByte(q, LF).p) && LineByte(q, LF).p.state.HeaderFieldStart? && s + [LF] == LineTextOf(l)
  {
    FitsOnLine(part, s, q);
    hide OnLine, InUrlPart, MethodByte, UrlByte, ReqVersionByte, StartReqByte, FrontText, GoodMajor, GoodMinor, Spaces, HalfText,
         HalfFits, UrlEnd, Believed, UrlMayEnd;
    l := Line(GET, 0, "", None, false);
    match part
    case InMethod => NoLfInMethod(q);
    case InSpaces(_, _) => LfInSpaces(q);
    case InTarget(m, k, t) =>
      LfInTarget(q);
      l := Line(m, k, t, None, false);
      assert FrontText(m, k, t) + "" == FrontText(m, k, t);
    case InVersion(m, k, t, j, h) =>
      HalfEnds(h, q, LF);
      MinorMeans(h, q);
      l := Line(m, k, t, Some(Version(j, h.major, h.minor)), false);
      MinorText(FrontText(m, k, t), j, h);
    case AtCr(x) =>
      CrNeedsLf(q, LF);
      l := x.(cr := true);
      assert [CR] + [LF] == CRLF;
      assert s + [LF] == FrontText(l.verb, l.spaces, l.target) + VersionTextOf(l.version) + ([CR] + [LF]);
  }

  /** Whatever is accepted up to a line feed is a request line. */
  lemma LineIs(answersOne: Parser -> bool, p: Parser, s: string) returns (l: Line)
    requires Awaits(p, |s| + 1) && s != "" && s[0] != CR && s[0] != LF && LF !in s && Accepted(answersOne, p, s + [LF])
    ensures IsRequestLine(l) && s + [LF] == LineTextOf(l) && Left(l, p, After(answersOne, p, s + [LF]))
  {
    LastByte(answersOne, p, s, LF);
    var q := After(answersOne, p, s);
    var part := PartOf(answersOne, p, s);
    FitsOnLine(part, s, q);
    hide Accepted, After, LineByte, OnLine, Fits;
    AcceptedByte(answersOne, q, LF);
    FitsAnyway(part, s, q);
    KeepsAlong(Read(q, 1), LF);
    l := LastStep(part, s, Read(q, 1));
    LeftIs(l, p, After(answersOne, p, s + [LF]));
  }

  lemma LeftIs(l: Line, p: Parser, q: Parser)
    requires LineFits(l, q) && q.state.HeaderFieldStart? && q.errno == OK && Along(p, |LineTextOf(l)|, q)
    ensures IsRequestLine(l) && Left(l, p, q)
  {
    hide LineTextOf, Decimal.Value, IsTarget;
  }

  // ---------------------------------------------------------------- request lines are accepted

  lemma {:induction false} SpacesGo(answersOne: Parser -> bool, p: Parser, k: nat)
    requires (p.state.ReqSpacesBeforeUrl? || p.state.ReqHttpStart?) && Room(p, k)
    ensures Goes(answersOne, p, Spaces(k), Read(p, k), [])
  {
    hide Goes, Switch, Spaces;
    if k == 0 {
      assert Spaces(0) == "" by { NoSpaces(); }
      GoesNowhere(answersOne, p);
    } else {
      SpacesGo(answersOne, p, k - 1);
      var q := Read(p, k - 1);
      DispatchLine(answersOne, Read(q, 1), ' ');
      UrlStates(p.state);
      VersionStates(p.state);
      SpaceStays(Read(q, 1));
      hide ArmOf, ParsingHeader, UrlByte, ReqVersionByte;
      GoesQuietly(answersOne, q, ' ', Read(p, k));
      GoesOnQuietly(answersOne, p, Spaces(k - 1), q, [' '], Read(p, k));
      assert Spaces(k) == Spaces(k - 1) + [' '] by { MoreSpaces(k); }
    }
  }

  lemma NoSpaces()
    ensures Spaces(0) == ""
  {
  }

  lemma MoreSpaces(k: nat)
    requires k > 0
    ensures Spaces(k) == Spaces(k - 1) + [' ']
  {
  }

  lemma SpaceStays(p: Parser)
    ensures p.state.ReqSpacesBeforeUrl? ==> UrlByte(p, ' ') == Go(p)
    ensures p.state.ReqHttpStart? ==> ReqVersionByte(p, ' ') == Go(p)
  {
  }

  /** The method, the spaces, and the target. */
  lemma FrontGoes(answersOne: Parser -> bool, p: Parser, m: Method, k: nat, t: string) returns (q: Parser)
    requires Awaits(p, |FrontText(m, k, t)|) && k > 0 && IsTarget(m, t)
    ensures q.verb == m && q.errno == OK && Along(p, |FrontText(m, k, t)|, q) && UrlMayEnd(q.state)
    ensures Goes(answersOne, p, FrontText(m, k, t), q, [Signal(MessageBegin)] + BytesOf(Url, t))
  {
    hide Goes, HttpMethod.Taken, Spaces, UrlEnd, BytesOf;
    TakenLength(m);
    MethodGoes(answersOne, p, m);
    var n := NameLength(m);
    var a := Fresh(Read(p, n + 1)).(verb := m, index := n + 1, state := ReqSpacesBeforeUrl);
    SpacesGo(answersOne, a, k - 1);
    var b := Read(a, k - 1);
    GoesOn(answersOne, p, HttpMethod.Taken(m) + " ", a, [Signal(MessageBegin)], Spaces(k - 1), b, []);
    SpaceFirst(k);
    assert HttpMethod.Taken(m) + " " + Spaces(k - 1) == HttpMethod.Taken(m) + Spaces(k);
    TargetGoes(answersOne, b, t);
    q := UrlRead(b, t);
    GoesOn(answersOne, p, HttpMethod.Taken(m) + Spaces(k), b, [Signal(MessageBegin)] + [], t, q, BytesOf(Url, t));
    assert [Signal(MessageBegin)] + [] == [Signal(MessageBegin)];
  }

  lemma SpaceFirst(k: nat)
    requires k > 0
    ensures " " + Spaces(k - 1) == Spaces(k)
  {
  }

  lemma OneVersionByte(answersOne: Parser -> bool, p: Parser, ch: char, q: Parser)
    requires InVersionPart(p.state) && Room(p, 1) && ReqVersionByte(Read(p, 1), ch) == Go(q) && q.errno == OK
    ensures Goes(answersOne, p, [ch], q, [])
  {
    hide Goes, ReqVersionByte, ArmOf;
    VersionStates(p.state);
    VersionByteGoes(answersOne, p, ch);
  }

  /** The digits of a number of the version. */
  lemma DigitIsTaken(p: Parser, n: nat, c: char)
    requires IsDigit(c) && n * 10 + Digit(c) <= 999
    ensures p.state.ReqFirstHttpMajor? && c != '0' ==> ReqVersionByte(p, c) == Go(p.(major := Digit(c), state := ReqHttpMajor))
    ensures p.state.ReqHttpMajor? && p.major == n ==> ReqVersionByte(p, c) == Go(p.(major := n * 10 + Digit(c)))
    ensures p.state.ReqFirstHttpMinor? ==> ReqVersionByte(p, c) == Go(p.(minor := Digit(c), state := ReqHttpMinor))
    ensures p.state.ReqHttpMinor? && p.minor == n ==> ReqVersionByte(p, c) == Go(p.(minor := n * 10 + Digit(c)))
  {
  }

  function NumberRead(p: Parser, a: string): Parser
    requires AllDigits(a)
  {
    if p.state.ReqFirstHttpMajor? then Read(p, |a|).(major := Decimal.Value(a), state := ReqHttpMajor)
    else Read(p, |a|).(minor := Decimal.Value(a), state := ReqHttpMinor)
  }

  lemma {:induction false} NumberGoes(answersOne: Parser -> bool, p: Parser, a: string)
    requires (p.state.ReqFirstHttpMajor? && a != "" && a[0] != '0') || (p.state.ReqFirstHttpMinor? && a != "")
    requires AllDigits(a) && Decimal.Value(a) <= 999 && Room(p, |a|)
    ensures Goes(answersOne, p, a, NumberRead(p, a), [])
    decreases |a|
  {
    hide Goes, ReqVersionByte, Decimal.Value;
    var init, c := a[..|a| - 1], a[|a| - 1];
    assert a == init + [c] && AllDigits(init);
    DigitsGrow(init, c);
    if init == "" {
      assert Decimal.Value(init) == 0 by { EmptyValue(); }
      DigitIsTaken(Read(p, 1), 0, c);
      OneVersionByte(answersOne, p, c, NumberRead(p, a));
    } else {
      NumberGoes(answersOne, p, init);
      var q := NumberRead(p, init);
      DigitIsTaken(Read(q, 1), Decimal.Value(init), c);
      OneVersionByte(answersOne, q, c, NumberRead(p, a));
      GoesOnQuietly(answersOne, p, init, q, [c], NumberRead(p, a));
    }
  }

  lemma EmptyValue()
    ensures Decimal.Value("") == 0
  {
  }

  /** The space behind a target. */
  lemma GapStarts(answersOne: Parser -> bool, p: Parser)
    requires UrlMayEnd(p.state) && Room(p, 1)
    ensures Goes(answersOne, p, [' '], Read(p, 1).(state := ReqHttpStart), [])
  {
    hide Goes, Switch;
    DispatchLine(answersOne, Read(p, 1), ' ');
    GoesQuietly(answersOne, p, ' ', Read(p, 1).(state := ReqHttpStart));
  }

  lemma GapGoes(answersOne: Parser -> bool, p: Parser, j: nat)
    requires UrlMayEnd(p.state) && j > 0 && Room(p, j + 5)
    ensures Goes(answersOne, p, Spaces(j) + "HTTP/", Read(p, j + 5).(state := ReqFirstHttpMajor), [])
  {
    hide Goes, Spaces, UrlMayEnd;
    GapStarts(answersOne, p);
    var a := Read(p, 1).(state := ReqHttpStart);
    SpacesGo(answersOne, a, j - 1);
    var b := Read(a, j - 1);
    GoesOnQuietly(answersOne, p, [' '], a, Spaces(j - 1), b);
    SpaceFirst(j);
    assert [' '] + Spaces(j - 1) == Spaces(j);
    HttpLettersGo(answersOne, b, 5);
    assert "HTTP/"[..5] == "HTTP/";
    GoesOnQuietly(answersOne, p, Spaces(j), b, "HTTP/", Read(p, j + 5).(state := ReqFirstHttpMajor));
  }

  /** A version, up to the end of the line. */
  lemma VersionPartGoes(answersOne: Parser -> bool, p: Parser, v: Version)
    requires UrlMayEnd(p.state) && IsVersion(v) && Room(p, |VersionTextOf(Some(v))|)
    ensures Goes(answersOne, p, VersionTextOf(Some(v)),
                 Read(p, |VersionTextOf(Some(v))|).(state := ReqHttpMinor, major := Decimal.Value(v.major),
                                                   minor := Decimal.Value(v.minor)), [])
  {
    hide Goes, Spaces, UrlMayEnd, Decimal.Value;
    var j, a, b := v.gap, v.major, v.minor;
    GapGoes(answersOne, p, j);
    var q := Read(p, j + 5).(state := ReqFirstHttpMajor);
    NumberGoes(answersOne, q, a);
    var r := Read(q, |a|).(major := Decimal.Value(a), state := ReqHttpMajor);
    GoesOnQuietly(answersOne, p, Spaces(j) + "HTTP/", q, a, r);
    var t := Read(r, 1).(state := ReqFirstHttpMinor);
    DotIsTaken(Read(r, 1));
    OneVersionByte(answersOne, r, '.', t);
    GoesOnQuietly(answersOne, p, Spaces(j) + "HTTP/" + a, r, ['.'], t);
    NumberGoes(answersOne, t, b);
    GoesOnQuietly(answersOne, p, Spaces(j) + "HTTP/" + a + ['.'], t, b,
                  Read(p, |VersionTextOf(Some(v))|).(state := ReqHttpMinor, major := Decimal.Value(a), minor := Decimal.Value(b)));
    assert ['.'] == ".";
  }

  lemma DotIsTaken(p: Parser)
    requires p.state.ReqHttpMajor?
    ensures ReqVersionByte(p, '.') == Go(p.(state := ReqFirstHttpMinor))
  {
  }

  /** What the end of a line makes of the version. */
  function Ended(p: Parser, n: nat): Parser {
    if p.state.ReqHttpMinor? then Read(p, n).(state := HeaderFieldStart)
    else Read(p, n).(state := HeaderFieldStart, major := 0, minor := 9)
  }

  lemma EndMeans(p: Parser, ch: char)
    requires ch == CR || ch == LF
    ensures var s := if ch == CR then ReqLineAlmostDone else HeaderFieldStart;
      && (UrlMayEnd(p.state) ==> UrlByte(p, ch) == Flush(p.(major := 0, minor := 9, state := s), Url))
      && (p.state.ReqHttpMinor? ==> ReqVersionByte(p, ch) == Go(p.(state := s)))
    ensures p.state.ReqLineAlmostDone? && ch == LF ==> ReqVersionByte(p, ch) == Go(p.(state := HeaderFieldStart))
  {
    hide ParseUrlChar;
  }

  lemma EndStates(p: Parser)
    ensures UrlMayEnd(p.state) ==> ArmOf(p.state) == UrlArm && ParsingHeader(p.state)
    ensures p.state.ReqHttpMinor? || p.state.ReqLineAlmostDone? ==> ArmOf(p.state) == ReqVersionArm && ParsingHeader(p.state)
  {
  }

  lemma EndByte(answersOne: Parser -> bool, p: Parser, ch: char)
    requires (UrlMayEnd(p.state) || p.state.ReqHttpMinor?) && (ch == CR || ch == LF) && Room(p, 1)
    ensures Goes(answersOne, p, [ch], Ended(p, 1).(state := if ch == CR then ReqLineAlmostDone else HeaderFieldStart), [])
  {
    hide Goes, Switch, UrlByte, ReqVersionByte, ArmOf, ParsingHeader;
    EndMeans(Read(p, 1), ch);
    EndStates(p);
    DispatchLine(answersOne, Read(p, 1), ch);
    GoesQuietly(answersOne, p, ch, Ended(p, 1).(state := if ch == CR then ReqLineAlmostDone else HeaderFieldStart));
  }

  lemma LfByte(answersOne: Parser -> bool, p: Parser)
    requires p.state.ReqLineAlmostDone? && Room(p, 1)
    ensures Goes(answersOne, p, [LF], Read(p, 1).(state := HeaderFieldStart), [])
  {
    hide Goes, Switch, UrlByte, ReqVersionByte, ArmOf, ParsingHeader;
    EndMeans(Read(p, 1), LF);
    EndStates(p);
    DispatchLine(answersOne, Read(p, 1), LF);
    GoesQuietly(answersOne, p, LF, Read(p, 1).(state := HeaderFieldStart));
  }

  lemma LineEnds(answersOne: Parser -> bool, p: Parser, cr: bool)
    requires (UrlMayEnd(p.state) || p.state.ReqHttpMinor?) && Room(p, |HttpLines.Eol(cr)|)
    ensures Goes(answersOne, p, HttpLines.Eol(cr), Ended(p, |HttpLines.Eol(cr)|), [])
  {
    hide Goes, UrlMayEnd;
    if cr {
      EndByte(answersOne, p, CR);
      var q := Ended(p, 1).(state := ReqLineAlmostDone);
      LfByte(answersOne, q);
      GoesOnQuietly(answersOne, p, [CR], q, [LF], Ended(p, 2));
      assert [CR] + [LF] == CRLF;
    } else {
      EndByte(answersOne, p, LF);
    }
  }

  /** Every request line is accepted; its target is told. */
  lemma LineGoes(answersOne: Parser -> bool, p: Parser, l: Line) returns (q: Parser)
    requires Awaits(p, |LineTextOf(l)|) && IsRequestLine(l)
    ensures Left(l, p, q)
    ensures Goes(answersOne, p, LineTextOf(l), q, [Signal(MessageBegin)] + BytesOf(Url, l.target))
  {
    hide Goes, FrontText, UrlMayEnd, BytesOf, Decimal.Value, IsTarget, VersionTextOf;
    var f, x := FrontText(l.verb, l.spaces, l.target), [Signal(MessageBegin)] + BytesOf(Url, l.target);
    var a := FrontGoes(answersOne, p, l.verb, l.spaces, l.target);
    var b := a;
    if l.version.Some? {
      var v := l.version.value;
      VersionPartGoes(answersOne, a, v);
      b := Read(a, |VersionTextOf(l.version)|).(state := ReqHttpMinor, major := Decimal.Value(v.major),
                                                minor := Decimal.Value(v.minor));
      GoesOn(answersOne, p, f, a, x, VersionTextOf(l.version), b, []);
      assert x + [] == x;
    } else {
      assert f + VersionTextOf(l.version) == f by { NoVersionText(f); }
      StillUrl(a);
    }
    RoomLeft(p, b, l);
    LineEnds(answersOne, b, l.cr);
    q := Ended(b, |HttpLines.Eol(l.cr)|);
    GoesOn(answersOne, p, f + VersionTextOf(l.version), b, x, HttpLines.Eol(l.cr), q, []);
    assert x + [] == x;
  }

  lemma NoVersionText(f: string)
    ensures f + VersionTextOf(None) == f
  {
  }

  lemma StillUrl(p: Parser)
    requires UrlMayEnd(p.state)
    ensures !p.state.ReqHttpMinor?
  {
  }

  lemma RoomLeft(p: Parser, q: Parser, l: Line)
    requires Awaits(p, |LineTextOf(l)|) && q.errno == OK
    requires q.nread == p.nread + |FrontText(l.verb, l.spaces, l.target) + VersionTextOf(l.version)|
    ensures Room(q, |HttpLines.Eol(l.cr)|)
  {
    hide FrontText, VersionTextOf;
  }

  /** A line of bytes is accepted for the first line of a request exactly if it is a request line. */
  lemma RequestLineExactly(answersOne: Parser -> bool, p: Parser, s: string)
    requires Awaits(p, |s| + 1) && s != "" && s[0] != CR && s[0] != LF && LF !in s
    ensures Accepted(answersOne, p, s + [LF]) <==> exists l :: IsRequestLine(l) && LineTextOf(l) == s + [LF]
  {
    if Accepted(answersOne, p, s + [LF]) {
      var l := LineIs(answersOne, p, s);
    }
    forall l | IsRequestLine(l) && LineTextOf(l) == s + [LF]
      ensures Accepted(answersOne, p, s + [LF])
    {
      var q := LineGoes(answersOne, p, l);
      hide Run, LineTextOf, Left;
    }
  }
}
