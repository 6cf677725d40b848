/** Single header lines: every one of them, whether it is a header or not, and what becomes of it. */
module HttpLines {
  import opened Options
  import opened HttpTypes
  import opened HttpSwitch
  import opened HttpRun
  import opened HttpParser
  import HttpSplit
  import opened HttpGoes
  import opened HttpHeader
  import opened HttpValue
  import opened HttpMessage
  import opened HttpRequest
  import opened HttpNames
  import opened Decimal

  // ---------------------------------------------------------------- what a line says

  /** A header; or the place of the byte at which it turns out to be none. */
  datatype Spoken = Header(name: string, value: string) | NoHeader(at: nat) | BadLength(at: nat)

  /** As far as a name goes. */
  function NameOf(line: string): (name: string)
    ensures name <= line && forall i :: 0 <= i < |name| ==> IsTchar(name[i])
    ensures |name| < |line| ==> !IsTchar(line[|name|])
  {
    if line == "" || !IsTchar(line[0]) then "" else [line[0]] + NameOf(line[1..])
  }

  /** The spaces and tabs at the start. */
  function LeadOf(s: string): (lead: string)
    ensures lead <= s && forall i :: 0 <= i < |lead| ==> lead[i] == ' ' || lead[i] == '\t'
    ensures |lead| < |s| ==> s[|lead|] != ' ' && s[|lead|] != '\t'
  {
    if s == "" || (s[0] != ' ' && s[0] != '\t') then "" else [s[0]] + LeadOf(s[1..])
  }

  /** One more digit, on 64 bits. */
  function NextLength(n: nat, c: char): nat
    requires '0' <= c <= '9'
  {
    (n * 10 + (c as int - '0' as int)) % 0x1_0000_0000_0000_0000
  }

  /** The parser notices that a number has grown too large if it has become smaller. */
  predicate Noticed(n: nat, c: char)
    requires '0' <= c <= '9'
  {
    NextLength(n, c) < n || NextLength(n, c) == 0xFFFF_FFFF_FFFF_FFFF
  }

  /** How many bytes of a length are taken: digits, and spaces that do not count. */
  function Taken(n: nat, v: string): (k: nat)
    ensures k <= |v|
    decreases |v|
  {
    if v == "" then 0
    else if v[0] == ' ' then 1 + Taken(n, v[1..])
    else if !('0' <= v[0] <= '9') || Noticed(n, v[0]) then 0
    else 1 + Taken(NextLength(n, v[0]), v[1..])
  }

  /** The number that they come to. */
  function LengthOf(n: nat, v: string): nat
    decreases |v|
  {
    if v == "" then n
    else if '0' <= v[0] <= '9' then LengthOf(NextLength(n, v[0]), v[1..])
    else LengthOf(n, v[1..])
  }

  lemma AccumulateIs(n: nat, c: char)
    requires '0' <= c <= '9'
    ensures Accumulate(n, 10, Digit(c)) == if Noticed(n, c) then None else Some(NextLength(n, c))
  {
    Wraps(n * 10, Digit(c));
  }

  lemma Wraps(a: nat, d: nat)
    requires d < 10
    ensures (a % U64 + d) % U64 == (a + d) % U64
  {
    var k := a / U64;
    assert a == k * U64 + a % U64;
    if a % U64 + d >= U64 {
      assert a + d == (k + 1) * U64 + (a % U64 + d - U64);
      Remainder(k + 1, a % U64 + d - U64);
      Remainder(1, a % U64 + d - U64);
    } else {
      Remainder(k, a % U64 + d);
      Remainder(0, a % U64 + d);
    }
  }

  lemma Remainder(k: nat, r: nat)
    requires r < U64
    ensures (k * U64 + r) % U64 == r
  {
  }

  /** The digits of a number below 2^64 - 1 are all taken, and come to that number. */
  lemma {:induction false} LengthIsValue(a: string, v: string)
    requires AllDigits(a) && AllDigits(v) && AllDigits(a + v) && Decimal.Value(a + v) < 0xFFFF_FFFF_FFFF_FFFF
    ensures Taken(Decimal.Value(a), v) == |v| && LengthOf(Decimal.Value(a), v) == Decimal.Value(a + v)
    decreases |v|
  {
    hide Decimal.Value, Taken, LengthOf, NextLength, Noticed;
    if v == "" {
      assert a + v == a;
      NothingTaken(Decimal.Value(a));
    } else {
      var b := a + [v[0]];
      assert a + v == b + v[1..];
      DigitAdded(a, v[0]);
      ValueLess(b, v[1..]);
      LengthIsValue(b, v[1..]);
      NotTooLarge(Decimal.Value(a), v[0]);
      DigitTaken(Decimal.Value(a), v);
    }
  }

  lemma NothingTaken(n: nat)
    ensures Taken(n, "") == 0 && LengthOf(n, "") == n
  {
  }

  lemma NotTooLarge(n: nat, c: char)
    requires '0' <= c <= '9' && n * 10 + (c as int - '0' as int) < 0xFFFF_FFFF_FFFF_FFFF
    ensures NextLength(n, c) == n * 10 + (c as int - '0' as int) && !Noticed(n, c)
  {
  }

  lemma DigitTaken(n: nat, v: string)
    requires v != "" && '0' <= v[0] <= '9' && !Noticed(n, v[0])
    ensures Taken(n, v) == 1 + Taken(NextLength(n, v[0]), v[1..])
    ensures LengthOf(n, v) == LengthOf(NextLength(n, v[0]), v[1..])
  {
    hide NextLength, Noticed;
  }

  lemma DigitAdded(a: string, c: char)
    requires AllDigits(a) && IsDigit(c)
    ensures AllDigits(a + [c]) && Decimal.Value(a + [c]) == Decimal.Value(a) * 10 + (c as int - '0' as int)
  {
    assert (a + [c])[..|a|] == a;
  }

  lemma {:induction false} ValueLess(a: string, v: string)
    requires AllDigits(a) && AllDigits(v) && AllDigits(a + v)
    ensures Decimal.Value(a) <= Decimal.Value(a + v)
    decreases |v|
  {
    if v == "" {
      assert a + v == a;
    } else {
      var init := v[..|v| - 1];
      assert (a + v)[..|a + v| - 1] == a + init;
      ValueLess(a, init);
    }
  }

  function Say(line: string): Spoken {
    var name := NameOf(line);
    if name == "" then NoHeader(0)
    else if |name| == |line| then Header(name, "")
    else if line[|name|] != ':' then NoHeader(|name|)
    else
      var lead := LeadOf(line[|name| + 1..]);
      var at := |name| + 1 + |lead|;
      var v := line[at..];
      if !SameButCase(name, "content-length") || v == "" then Header(name, v)
      else if !('0' <= v[0] <= '9') then BadLength(at)
      else
        var k := Taken(Digit(v[0]), v[1..]);
        if k < |v| - 1 then BadLength(at + 1 + k) else Header(name, v)
  }

  // ---------------------------------------------------------------- failures

  /** A byte that is refused. */
  lemma Refused(answersOne: Parser -> bool, p: Parser, ch: char, rest: string, e: Errno)
    requires Room(p, 1) && ParsingHeader(p.state) && e != OK
    requires var o := Switch(answersOne, Read(p, 1), ch); o.flow == Stop && o.p.errno == e && o.notify == None
    ensures var r := Run(answersOne, p, [ch] + rest); r.exit == Failed && r.p.errno == e && r.used == 0 && r.atoms == []
  {
    hide Switch;
    RunCons(answersOne, p, [ch] + rest);
    SettleCons(answersOne, Read(p, 1), ch);
    assert ([ch] + rest)[0] == ch;
    assert NO_ATOMS + NO_ATOMS == NO_ATOMS;
  }

  /** Behind bytes that are accepted. */
  lemma RefusedBehind(answersOne: Parser -> bool, p: Parser, a: string, q: Parser, x: seq<Atom>, ch: char, rest: string,
                      e: Errno)
    requires Goes(answersOne, p, a, q, x) && Room(q, 1) && ParsingHeader(q.state) && e != OK
    requires var o := Switch(answersOne, Read(q, 1), ch); o.flow == Stop && o.p.errno == e && o.notify == None
    ensures var r := Run(answersOne, p, a + ([ch] + rest)); r.exit == Failed && r.p.errno == e && r.used == |a| && r.atoms == x
  {
    hide Run, Switch, Goes;
    Refused(answersOne, q, ch, rest, e);
    GoesThen(answersOne, p, a, q, x, [ch] + rest);
    assert x + [] == x;
  }

  // ---------------------------------------------------------------- ends of lines

  function Eol(cr: bool): string { if cr then CRLF else [LF] }

  lemma LfMeans(p: Parser)
    ensures ValueByte(p, LF) == Outcome(p.(state := HeaderAlmostDone), None, Some(Value), None, Reexecute)
    ensures HeaderEndByte(p.(state := HeaderAlmostDone), LF) ==
      Go(p.(state := HeaderValueLws, flags := FlagsAtEnd(p.flags, p.headerState)))
  {
    hide Lower, Match;
  }

  lemma LfSettles(answersOne: Parser -> bool, p: Parser)
    requires p.state.HeaderValue?
    ensures Settle(answersOne, p, LF) ==
      Result(p.(state := HeaderValueLws, flags := FlagsAtEnd(p.flags, p.headerState)), [], 1, Running)
  {
    hide Switch, ValueByte, HeaderEndByte, Settle, FlagsAtEnd;
    LfMeans(p);
    var t := p.(state := HeaderAlmostDone);
    Dispatch(answersOne, p, LF);
    Dispatch(answersOne, t, LF);
    SettleCons(answersOne, p, LF);
    SettleCons(answersOne, t, LF);
    assert NO_ATOMS + NO_ATOMS == NO_ATOMS;
  }

  /** A line feed alone ends a value, too. */
  lemma LfEndsValue(answersOne: Parser -> bool, p: Parser)
    requires p.state.HeaderValue? && Room(p, 1)
    ensures Goes(answersOne, p, [LF],
                 Read(p, 1).(state := HeaderValueLws, flags := FlagsAtEnd(p.flags, p.headerState)), [])
  {
    hide Settle, FlagsAtEnd, Run;
    LfSettles(answersOne, Read(p, 1));
    RunCons(answersOne, p, [LF]);
    assert [LF][1..] == "";
    HttpSplit.RunNothing(answersOne, Read(p, 1).(state := HeaderValueLws, flags := FlagsAtEnd(p.flags, p.headerState)));
    assert NO_ATOMS + NO_ATOMS == NO_ATOMS;
  }

  /** And it ends a line without a value, and one without a colon. */
  lemma LfEndsEarly(answersOne: Parser -> bool, p: Parser)
    requires (p.state.HeaderValueStart? || p.state.HeaderField?) && Room(p, 1)
    ensures exists h, i :: Goes(answersOne, p, [LF], Read(p, 1).(state := HeaderFieldStart, headerState := h, index := i), [])
  {
    hide Goes, Switch, Token;
    TokenOfNewline();
    Dispatch(answersOne, Read(p, 1), LF);
    var i := if p.state.HeaderField? then p.index else 0;
    var q := Read(p, 1).(state := HeaderFieldStart, headerState := p.headerState, index := i);
    GoesQuietly(answersOne, p, LF, q);
  }

  lemma NameEndMeans(p: Parser)
    requires FlagsAtEnd(p.flags, p.headerState) == p.flags
    ensures p.state.HeaderField? ==> FieldByte(p, CR) == Flush(p.(state := HeaderAlmostDone), Field)
    ensures p.state.HeaderField? ==> FieldByte(p, LF) == Flush(p.(state := HeaderFieldStart), Field)
    ensures p.state.HeaderAlmostDone? ==> HeaderEndByte(p, LF) == Go(p.(state := HeaderValueLws))
  {
    hide Token, FieldToken;
    TokenOfNewline();
  }

  lemma CrEndsName(answersOne: Parser -> bool, p: Parser)
    requires p.state.HeaderField? && Room(p, 1) && FlagsAtEnd(p.flags, p.headerState) == p.flags
    ensures Goes(answersOne, p, [CR], Read(p, 1).(state := HeaderAlmostDone), [])
  {
    hide Goes, Switch, FieldByte, HeaderEndByte, FlagsAtEnd;
    NameEndMeans(Read(p, 1));
    Dispatch(answersOne, Read(p, 1), CR);
    GoesQuietly(answersOne, p, CR, Read(p, 1).(state := HeaderAlmostDone));
  }

  lemma AlmostDoneEnds(answersOne: Parser -> bool, p: Parser)
    requires p.state.HeaderAlmostDone? && Room(p, 1) && FlagsAtEnd(p.flags, p.headerState) == p.flags
    ensures Goes(answersOne, p, [LF], Read(p, 1).(state := HeaderValueLws), [])
  {
    hide Goes, Switch, FieldByte, HeaderEndByte, FlagsAtEnd;
    NameEndMeans(Read(p, 1));
    Dispatch(answersOne, Read(p, 1), LF);
    GoesQuietly(answersOne, p, LF, Read(p, 1).(state := HeaderValueLws));
  }

  lemma CrLfEndsName(answersOne: Parser -> bool, p: Parser)
    requires p.state.HeaderField? && Room(p, 2) && FlagsAtEnd(p.flags, p.headerState) == p.flags
    ensures Goes(answersOne, p, CRLF, Read(p, 2).(state := HeaderValueLws), [])
  {
    hide Goes, FlagsAtEnd;
    var q := Read(p, 1).(state := HeaderAlmostDone);
    CrEndsName(answersOne, p);
    AlmostDoneEnds(answersOne, q);
    GoesOnQuietly(answersOne, p, [CR], q, [LF], Read(p, 2).(state := HeaderValueLws));
    assert [CR] + [LF] == CRLF;
  }

  /** Ready for the next line, with what this one has added. */
  ghost predicate LineDone(p: Parser, q: Parser, n: nat, flags: Flags, length: nat) {
    && LineStart(q.state)
    && q == Read(p, n).(state := q.state, headerState := q.headerState, index := q.index, flags := flags, contentLength := length)
  }

  lemma EndOfLine(answersOne: Parser -> bool, p: Parser, cr: bool) returns (q: Parser)
    requires p.state.HeaderValue? || p.state.HeaderValueStart? || (p.state.HeaderField? && FlagsAtEnd(p.flags, p.headerState) == p.flags)
    requires Room(p, 2)
    ensures LineDone(p, q, |Eol(cr)|, if p.state.HeaderValue? then FlagsAtEnd(p.flags, p.headerState) else p.flags,
                     p.contentLength)
    ensures Goes(answersOne, p, Eol(cr), q, [])
  {
    hide Goes;
    if cr {
      if p.state.HeaderField? {
        CrLfEndsName(answersOne, p);
        q := Read(p, 2).(state := HeaderValueLws);
      } else {
        LineEndGoes(answersOne, p);
        var h := if p.state.HeaderValue? then p.headerState else General;
        q := Read(p, 2).(state := HeaderValueLws, headerState := h, flags := FlagsAtEnd(p.flags, h),
                         index := if p.state.HeaderValue? then p.index else 0);
      }
    } else if p.state.HeaderValue? {
      LfEndsValue(answersOne, p);
      q := Read(p, 1).(state := HeaderValueLws, flags := FlagsAtEnd(p.flags, p.headerState));
    } else {
      LfEndsEarly(answersOne, p);
      var h, i :| Goes(answersOne, p, [LF], Read(p, 1).(state := HeaderFieldStart, headerState := h, index := i), []);
      q := Read(p, 1).(state := HeaderFieldStart, headerState := h, index := i);
    }
  }

  // ---------------------------------------------------------------- values

  lemma {:induction false} LeadGoes(answersOne: Parser -> bool, p: Parser, lead: string)
    requires p.state.HeaderValueStart? && (forall i :: 0 <= i < |lead| ==> lead[i] == ' ' || lead[i] == '\t') && Room(p, |lead|)
    ensures Goes(answersOne, p, lead, Read(p, |lead|), [])
    decreases |lead|
  {
    hide Goes, Switch;
    if lead == "" {
      GoesNowhere(answersOne, p);
    } else {
      var init, ch := lead[..|lead| - 1], lead[|lead| - 1];
      assert lead == init + [ch];
      LeadGoes(answersOne, p, init);
      Dispatch(answersOne, Read(p, |lead|), ch);
      assert ValueStartByte(Read(p, |lead|), ch) == Go(Read(p, |lead|)) by { LeadByte(Read(p, |lead|), ch); }
      hide ValueStartByte;
      GoesQuietly(answersOne, Read(p, |init|), ch, Read(p, |lead|));
      GoesOnQuietly(answersOne, p, init, Read(p, |init|), [ch], Read(p, |lead|));
    }
  }

  lemma LeadByte(p: Parser, ch: char)
    requires ch == ' ' || ch == '\t'
    ensures ValueStartByte(p, ch) == Go(p)
  {
  }

  /** A byte of a length, but for the first. */
  lemma LengthByte(p: Parser, ch: char)
    requires p.headerState == ContentLength && ch != CR && ch != LF
    ensures ValueByte(p, ch) ==
      if ch == ' ' then Go(p)
      else if !('0' <= ch <= '9') || Noticed(p.contentLength, ch) then Fail(p, InvalidContentLength)
      else Go(p.(contentLength := NextLength(p.contentLength, ch)))
  {
    hide Lower, Match, Accumulate;
    if '0' <= ch <= '9' { AccumulateIs(p.contentLength, ch); }
  }

  function LengthRead(p: Parser, v: string): Parser { Read(p, |v|).(contentLength := LengthOf(p.contentLength, v)) }

  lemma LengthByteGoes(answersOne: Parser -> bool, p: Parser, ch: char, q: Parser)
    requires p.state.HeaderValue? && q.state.HeaderValue? && q.errno == OK && Room(p, 1) && ValueByte(Read(p, 1), ch) == Go(q)
    ensures Goes(answersOne, p, [ch], q, [HttpTypes.Byte(Value, ch)])
  {
    hide Goes, Switch, ValueByte;
    Dispatch(answersOne, Read(p, 1), ch);
    GoesMarked(answersOne, p, ch, q, Value);
  }

  lemma LengthUnfolds(n: nat, v: string)
    requires v != "" && Taken(n, v) == |v|
    ensures v[0] == ' ' || ('0' <= v[0] <= '9' && !Noticed(n, v[0]))
    ensures var m := if v[0] == ' ' then n else NextLength(n, v[0]);
      Taken(m, v[1..]) == |v| - 1 && LengthOf(n, v) == LengthOf(m, v[1..])
  {
    hide NextLength, Noticed;
  }

  /** The bytes of a length that are taken. */
  lemma {:induction false} LengthGoes(answersOne: Parser -> bool, p: Parser, v: string)
    requires p.state.HeaderValue? && p.headerState == ContentLength && CR !in v && LF !in v && Room(p, |v|)
    requires Taken(p.contentLength, v) == |v|
    ensures Goes(answersOne, p, v, LengthRead(p, v), BytesOf(Value, v))
    decreases |v|
  {
    hide Goes, ValueByte, NextLength, Noticed, LengthOf, Taken;
    if v == "" {
      NothingTaken(p.contentLength);
      GoesNowhere(answersOne, p);
      assert BytesOf(Value, v) == [] by { ByteCount(Value, v); }
    } else {
      assert v[0] in v && v == [v[0]] + v[1..];
      forall c | c in v[1..] ensures c in v {}
      LengthByte(Read(p, 1), v[0]);
      LengthUnfolds(p.contentLength, v);
      var q := ValueByte(Read(p, 1), v[0]).p;
      LengthByteGoes(answersOne, p, v[0], q);
      LengthGoes(answersOne, q, v[1..]);
      GoesOn(answersOne, p, [v[0]], q, [HttpTypes.Byte(Value, v[0])], v[1..], LengthRead(q, v[1..]), BytesOf(Value, v[1..]));
      ByteAlone(Value, v[0]);
      HttpSplit.BytesOfConcat(Value, [v[0]], v[1..]);
    }
  }

  lemma {:induction false} TakenPrefix(n: nat, v: string)
    ensures var k := Taken(n, v); Taken(n, v[..k]) == k
    ensures var k := Taken(n, v); k < |v| ==>
      v[k] != ' ' && (!('0' <= v[k] <= '9') || Noticed(LengthOf(n, v[..k]), v[k]))
    decreases |v|
  {
    hide NextLength, Noticed;
    var k := Taken(n, v);
    if k > 0 {
      var m := if v[0] == ' ' then n else NextLength(n, v[0]);
      TakenPrefix(m, v[1..]);
      assert v[..k][1..] == v[1..][..k - 1] && v[..k][0] == v[0];
    } else {
      assert v[..k] == "";
    }
  }

  // ---------------------------------------------------------------- whole lines

  /** What a header adds to the flags, and what it makes of the length. */
  function FlagsSaid(f: Flags, h: (string, string)): Flags {
    Flags(f.chunked || SaysChunked(h), f.keepAlive || SaysKeepAlive(h), f.close || SaysClose(h), f.trailing,
          f.upgrade || AsksUpgrade(h), f.skipBody)
  }

  function LengthSaid(n: nat, h: (string, string)): nat
    requires GivesLength(h) ==> '0' <= h.1[0] <= '9'
  {
    if GivesLength(h) then LengthOf(h.1[0] as int - '0' as int, h.1[1..]) else n
  }

  /** What becomes of a line, and of what follows it. */
  ghost predicate Becomes(answersOne: Parser -> bool, p: Parser, line: string, cr: bool, rest: string, q: Parser) {
    var r := Run(answersOne, p, line + (Eol(cr) + rest));
    match Say(line)
    case Header(name, v) =>
      && (GivesLength((name, v)) ==> '0' <= v[0] <= '9')
      && LineDone(p, q, |line| + |Eol(cr)|, FlagsSaid(p.flags, (name, v)), LengthSaid(p.contentLength, (name, v)))
      && r == Run(answersOne, q, rest).After(BytesOf(Field, name) + BytesOf(Value, v), |line| + |Eol(cr)|)
    case NoHeader(at) => r.exit == Failed && r.p.errno == InvalidHeaderToken && r.used == at
    case BadLength(at) => r.exit == Failed && r.p.errno == InvalidContentLength && r.used == at
  }

  ghost predicate Fails(r: Result, at: nat, e: Errno) { r.exit == Failed && r.p.errno == e && r.used == at }

  /** The line is refused, as `Becomes` has it. */
  ghost predicate Refuses(answersOne: Parser -> bool, p: Parser, line: string, cr: bool, rest: string) {
    match Say(line)
    case Header(_, _) => false
    case NoHeader(at) => Fails(Run(answersOne, p, line + (Eol(cr) + rest)), at, InvalidHeaderToken)
    case BadLength(at) => Fails(Run(answersOne, p, line + (Eol(cr) + rest)), at, InvalidContentLength)
  }

  lemma RefusedBecomes(answersOne: Parser -> bool, p: Parser, line: string, cr: bool, rest: string, q: Parser)
    requires Refuses(answersOne, p, line, cr, rest)
    ensures Becomes(answersOne, p, line, cr, rest, q)
  {
    hide Run, Say, LineDone, FlagsSaid, LengthSaid, Eol;
  }

  predicate IsLine(line: string) { line != "" && CR !in line && LF !in line }

  /** The first byte that is not of a name. */
  lemma NoNameByte(answersOne: Parser -> bool, p: Parser, ch: char)
    requires (p.state.HeaderFieldStart? || (p.state.HeaderField? && ch != ':')) && !IsTchar(ch) && ch != CR && ch != LF
    ensures var o := Switch(answersOne, p, ch); o.flow == Stop && o.p.errno == InvalidHeaderToken && o.notify == None
  {
    hide Switch, Token, IsTchar;
    TokensAreTchars(ch);
    Dispatch(answersOne, p, ch);
  }

  lemma NotEvenAName(answersOne: Parser -> bool, p: Parser, line: string, cr: bool, rest: string)
    requires p.state.HeaderFieldStart? && IsLine(line) && Room(p, |line| + 2) && NameOf(line) == ""
    ensures Refuses(answersOne, p, line, cr, rest)
  {
    EmptyNameSays(line);
    hide Run, Switch, IsTchar, Say, NameOf, Eol;
    var u := Eol(cr) + rest;
    NoNameByte(answersOne, Read(p, 1), line[0]);
    Refused(answersOne, p, line[0], line[1..] + u, InvalidHeaderToken);
    HeadFirst(line, u);
  }

  lemma EmptyNameSays(line: string)
    requires IsLine(line) && NameOf(line) == ""
    ensures Say(line) == NoHeader(0) && !IsTchar(line[0]) && line[0] != CR && line[0] != LF
  {
    hide IsTchar;
    assert line[0] in line;
  }

  lemma HeadFirst(s: string, u: string)
    requires s != ""
    ensures [s[0]] + (s[1..] + u) == s + u
  {
  }

  /** The state behind a name. */
  ghost predicate Named(p: Parser, name: string, q: Parser) {
    && q == Read(p, |name|).(state := HeaderField, headerState := q.headerState, index := q.index)
    && Class(q.headerState) == Meaning(name) && FlagsAtEnd(p.flags, q.headerState) == p.flags
  }

  lemma NameIs(line: string)
    requires NameOf(line) != ""
    ensures IsFieldName(NameOf(line)) && IsName(NameOf(line))
  {
    NamesAreFieldNames(NameOf(line));
  }

  lemma NamePartGoes(answersOne: Parser -> bool, p: Parser, line: string) returns (q: Parser)
    requires p.state.HeaderFieldStart? && Room(p, |line| + 2) && NameOf(line) != ""
    ensures Named(p, NameOf(line), q) && Goes(answersOne, p, NameOf(line), q, BytesOf(Field, NameOf(line)))
  {
    hide Goes, FieldFits, IsName, IsFieldName, NameOf, Meaning;
    NameIs(line);
    var name := NameOf(line);
    assert name <= line by { assert NameOf(line) <= line; }
    var h, index := NameGoes(answersOne, p, name);
    NameMeans(h, index, name);
    FieldHasNoFlag(p.flags, h, index, Lowered(name));
    q := Read(p, |name|).(state := HeaderField, headerState := h, index := index);
  }

  lemma FieldHasNoFlag(f: Flags, h: HeaderState, index: nat, w: string)
    requires FieldFits(h, index, w)
    ensures FlagsAtEnd(f, h) == f
  {
    hide Inside, Outside, HttpTypes.Word.Spelling;
  }

  /** A name and nothing else. */
  lemma OnlyAName(answersOne: Parser -> bool, p: Parser, line: string, cr: bool, rest: string, q1: Parser) returns (q: Parser)
    requires p.state.HeaderFieldStart? && IsLine(line) && Room(p, |line| + 2) && NameOf(line) == line
    requires Named(p, line, q1) && Goes(answersOne, p, line, q1, BytesOf(Field, line))
    ensures Becomes(answersOne, p, line, cr, rest, q)
  {
    hide Run, Goes, NameOf, FlagsAtEnd, Meaning;
    q := EndOfLine(answersOne, q1, cr);
    GoesOn(answersOne, p, line, q1, BytesOf(Field, line), Eol(cr), q, []);
    assert BytesOf(Value, "") == [] by { ByteCount(Value, ""); }
    assert BytesOf(Field, line) + [] == BytesOf(Field, line) + BytesOf(Value, "");
    GoesThen(answersOne, p, line + Eol(cr), q, BytesOf(Field, line) + [], rest);
    assert line + Eol(cr) + rest == line + (Eol(cr) + rest);
    NothingSaid(line);
  }

  /** An empty value says nothing. */
  lemma NothingSaid(name: string)
    ensures !SaysChunked((name, "")) && !SaysKeepAlive((name, "")) && !SaysClose((name, "")) && !AsksUpgrade((name, ""))
    ensures !GivesLength((name, ""))
  {
  }

  /** A line behind its name. */
  lemma CutName(line: string)
    requires |NameOf(line)| < |line|
    ensures var k := |NameOf(line)|; !IsTchar(line[k]) && line == NameOf(line) + ([line[k]] + line[k + 1..])
  {
    hide IsTchar;
  }

  lemma BadMark(answersOne: Parser -> bool, p: Parser, line: string, cr: bool, rest: string, q1: Parser)
    requires p.state.HeaderFieldStart? && IsLine(line) && Room(p, |line| + 2)
    requires var k := |NameOf(line)|; 0 < k < |line| && line[k] != ':'
    requires Named(p, NameOf(line), q1) && Goes(answersOne, p, NameOf(line), q1, BytesOf(Field, NameOf(line)))
    ensures Refuses(answersOne, p, line, cr, rest)
  {
    var name := NameOf(line);
    var ch, t, u := line[|name|], line[|name| + 1..], Eol(cr) + rest;
    BadMarkSays(line);
    hide Run, Goes, Switch, IsTchar, NameOf, FlagsAtEnd, Meaning, Class, Say, BytesOf, Eol;
    CutName(line);
    NoNameByte(answersOne, Read(q1, 1), ch);
    RefusedBehind(answersOne, p, name, q1, BytesOf(Field, name), ch, t + u, InvalidHeaderToken);
    Regroup(name, ch, t, u);
  }

  lemma BadMarkSays(line: string)
    requires IsLine(line)
    requires var k := |NameOf(line)|; 0 < k < |line| && line[k] != ':'
    ensures var k := |NameOf(line)|; Say(line) == NoHeader(k) && !IsTchar(line[k]) && line[k] != CR && line[k] != LF
  {
    hide IsTchar, NameOf;
    CutName(line);
    assert line[|NameOf(line)|] in line;
  }

  lemma Regroup(name: string, ch: char, t: string, u: string)
    ensures name + ([ch] + (t + u)) == name + ([ch] + t) + u
  {
  }

  /** Where a line has to end, and where the headers have to, nothing but a line feed will do. */
  lemma OnlyLineFeed(answersOne: Parser -> bool, p: Parser, ch: char)
    requires p.state.HeaderAlmostDone? || p.state.HeadersAlmostDone? || p.state.HeadersDone?
    ensures var o := Switch(answersOne, p, ch);
      (o.flow == Stop <==> ch != LF) && (o.flow == Stop ==> o.p.errno == StrictViolation)
  {
    hide Switch;
    Dispatch(answersOne, p, ch);
  }

  // ---------------------------------------------------------------- behind the colon

  lemma OneColonGoes(answersOne: Parser -> bool, p: Parser)
    requires p.state.HeaderField? && Room(p, 1)
    ensures Goes(answersOne, p, [':'], Read(p, 1).(state := HeaderValueStart), [])
  {
    hide Goes, Switch, Token;
    TokenOfNewline();
    Dispatch(answersOne, Read(p, 1), ':');
    GoesQuietly(answersOne, p, ':', Read(p, 1).(state := HeaderValueStart));
  }

  /** The parts of a line with a colon. */
  ghost predicate Parted(line: string, name: string, lead: string, v: string) {
    && name == NameOf(line) && name != "" && line == name + [':'] + lead + v
    && (forall i :: 0 <= i < |lead| ==> lead[i] == ' ' || lead[i] == '\t') && (v != "" ==> v[0] != ' ' && v[0] != '\t')
    && Say(line) == SaidOf(name, |name| + 1 + |lead|, v)
  }

  /** What name and value say, if the value starts at `at`. */
  function SaidOf(name: string, at: nat, v: string): Spoken {
    if !SameButCase(name, "content-length") || v == "" then Header(name, v)
    else if !('0' <= v[0] <= '9') then BadLength(at)
    else
      var k := Taken(Digit(v[0]), v[1..]);
      if k < |v| - 1 then BadLength(at + 1 + k) else Header(name, v)
  }

  /** What a line with a colon says, by its parts. */
  lemma SayParts(line: string)
    requires var k := |NameOf(line)|; 0 < k < |line| && line[k] == ':'
    ensures var name := NameOf(line);
      var at := |name| + 1 + |LeadOf(line[|name| + 1..])|;
      Say(line) == SaidOf(name, at, line[at..])
  {
    hide NameOf, LeadOf, SameButCase, Taken;
  }

  lemma PartsOf(line: string) returns (lead: string, v: string)
    requires var k := |NameOf(line)|; 0 < k < |line| && line[k] == ':'
    ensures Parted(line, NameOf(line), lead, v)
  {
    hide NameOf, LeadOf, SameButCase, Taken, Say, IsTchar, SaidOf;
    CutName(line);
    SayParts(line);
    var name := NameOf(line);
    lead, v := CutLead(line[|name| + 1..]);
    TailOfTail(line, |name| + 1, |lead|);
    Regrouped(name, ':', lead, v);
  }

  lemma CutLead(t: string) returns (lead: string, v: string)
    ensures lead == LeadOf(t) && v == t[|lead|..] && t == lead + v
    ensures forall i :: 0 <= i < |lead| ==> lead[i] == ' ' || lead[i] == '\t'
    ensures v != "" ==> v[0] != ' ' && v[0] != '\t'
  {
    lead := LeadOf(t);
    v := t[|lead|..];
    hide LeadOf;
  }

  lemma TailOfTail(s: string, i: nat, j: nat)
    requires i + j <= |s|
    ensures s[i..][j..] == s[i + j..]
  {
  }

  lemma Regrouped(name: string, ch: char, lead: string, v: string)
    ensures name + ([ch] + (lead + v)) == name + [ch] + lead + v
  {
  }

  /** The state in front of a value. */
  function BeforeValue(q1: Parser, lead: string): Parser { Read(q1, 1 + |lead|).(state := HeaderValueStart) }

  lemma ValueReached(answersOne: Parser -> bool, p: Parser, line: string, name: string, lead: string, v: string, q1: Parser)
    requires Parted(line, name, lead, v) && p.state.HeaderFieldStart? && Room(p, |line| + 2)
    requires Named(p, name, q1) && Goes(answersOne, p, name, q1, BytesOf(Field, name))
    ensures Goes(answersOne, p, name + [':'] + lead, BeforeValue(q1, lead), BytesOf(Field, name))
  {
    hide Goes, Say, NameOf, SameButCase, FlagsAtEnd, Meaning, Class, Taken, BytesOf;
    var q2 := Read(q1, 1).(state := HeaderValueStart);
    OneColonGoes(answersOne, q1);
    LeadGoes(answersOne, q2, lead);
    GoesOn(answersOne, p, name, q1, BytesOf(Field, name), [':'], q2, []);
    GoesOn(answersOne, p, name + [':'], q2, BytesOf(Field, name) + [], lead, BeforeValue(q1, lead), []);
    assert BytesOf(Field, name) + [] + [] == BytesOf(Field, name);
  }

  /** All of a header has been read, but for the end of its line. */
  lemma HeaderEnds(answersOne: Parser -> bool, p: Parser, line: string, name: string, v: string, cr: bool, rest: string,
                   q4: Parser, flags: Flags, length: nat) returns (q: Parser)
    requires Say(line) == Header(name, v) && CR !in v
    requires Goes(answersOne, p, line, q4, BytesOf(Field, name) + BytesOf(Value, v)) && Room(q4, 2)
    requires q4.state.HeaderValue? || q4.state.HeaderValueStart?
    requires q4 == Read(p, |line|).(state := q4.state, headerState := q4.headerState, index := q4.index, flags := q4.flags,
                                    contentLength := length)
    requires flags == if q4.state.HeaderValue? then FlagsAtEnd(q4.flags, q4.headerState) else q4.flags
    requires flags == FlagsSaid(p.flags, (name, v))
    requires GivesLength((name, v)) ==> '0' <= v[0] <= '9'
    requires length == LengthSaid(p.contentLength, (name, v))
    ensures Becomes(answersOne, p, line, cr, rest, q)
  {
    hide Run, Goes, Say, FlagsAtEnd, FlagsSaid, LengthSaid, GivesLength;
    q := EndOfLine(answersOne, q4, cr);
    var x := BytesOf(Field, name) + BytesOf(Value, v);
    GoesOn(answersOne, p, line, q4, x, Eol(cr), q, []);
    assert x + [] == x;
    GoesThen(answersOne, p, line + Eol(cr), q, x, rest);
    assert line + Eol(cr) + rest == line + (Eol(cr) + rest);
  }

  lemma FlagsAreSaid(f: Flags, name: string, v: string)
    requires CR !in v
    ensures FlagsAfter(f, name, v) == FlagsSaid(f, (name, v))
  {
    FieldFlags(f, (name, v));
  }

  lemma NoValue(answersOne: Parser -> bool, p: Parser, line: string, name: string, lead: string, cr: bool, rest: string,
                q1: Parser) returns (q: Parser)
    requires Parted(line, name, lead, "") && p.state.HeaderFieldStart? && Room(p, |line| + 2) && IsLine(line)
    requires Named(p, name, q1) && Goes(answersOne, p, name, q1, BytesOf(Field, name))
    ensures Becomes(answersOne, p, line, cr, rest, q)
  {
    hide Run, Goes, NameOf, FlagsAtEnd, Meaning, Class;
    ValueReached(answersOne, p, line, name, lead, "", q1);
    assert line == name + [':'] + lead;
    NothingSaid(name);
    assert BytesOf(Value, "") == [] by { ByteCount(Value, ""); }
    assert BytesOf(Field, name) + BytesOf(Value, "") == BytesOf(Field, name);
    q := HeaderEnds(answersOne, p, line, name, "", cr, rest, BeforeValue(q1, lead), p.flags, p.contentLength);
  }

  /** A value that is no length. */
  lemma SomeValue(answersOne: Parser -> bool, p: Parser, line: string, name: string, lead: string, v: string, cr: bool,
                  rest: string, q1: Parser) returns (q: Parser)
    requires Parted(line, name, lead, v) && p.state.HeaderFieldStart? && Room(p, |line| + 2) && IsLine(line)
    requires Named(p, name, q1) && Goes(answersOne, p, name, q1, BytesOf(Field, name))
    requires v != "" && !SameButCase(name, "content-length")
    ensures Becomes(answersOne, p, line, cr, rest, q)
  {
    hide Run, Goes, NameOf, FlagsAtEnd, Meaning, Class, ValueFits, SameButCase, Say, FlagsSaid, BytesOf, FlagsAfter, Taken;
    MeaningIs(name);
    ValueReached(answersOne, p, line, name, lead, v, q1);
    var q3 := BeforeValue(q1, lead);
    PlainValue(line, name, lead, v);
    var h, i := ValueGoes(answersOne, q3, v);
    var q4 := WithValue(q3, |v|, h, i, v, Meaning(name));
    GoesOn(answersOne, p, name + [':'] + lead, q3, BytesOf(Field, name), v, q4, BytesOf(Value, v));
    ValueMeans(p.flags, Meaning(name), h, i, name, v);
    FlagsAreSaid(p.flags, name, v);
    q := HeaderEnds(answersOne, p, line, name, v, cr, rest, q4, FlagsSaid(p.flags, (name, v)), p.contentLength);
  }

  lemma PlainValue(line: string, name: string, lead: string, v: string)
    requires Parted(line, name, lead, v) && IsLine(line)
    ensures IsValue(v) && CR !in v && LF !in v
  {
    hide NameOf, Say, SameButCase, Taken;
    forall c | c in v ensures c in line {}
  }

  /** The first byte of a length. */
  lemma FirstLengthByte(p: Parser, ch: char)
    requires p.state.HeaderValueStart? && p.headerState == ContentLength && ch != ' ' && ch != '\t' && ch != CR && ch != LF
    ensures var o := ValueStartByte(p, ch);
      if '0' <= ch <= '9' then
        o == Marked(p.(state := HeaderValue, index := 0, contentLength := ch as int - '0' as int))
      else o.flow == Stop && o.p.errno == InvalidContentLength && o.notify == None
  {
    hide Lower;
  }

  lemma LengthStarts(answersOne: Parser -> bool, p: Parser, ch: char)
    requires p.state.HeaderValueStart? && p.headerState == ContentLength && '0' <= ch <= '9' && Room(p, 1)
    ensures Goes(answersOne, p, [ch], Read(p, 1).(state := HeaderValue, index := 0, contentLength := ch as int - '0' as int),
                 [HttpTypes.Byte(Value, ch)])
  {
    hide Goes, Switch, ValueStartByte;
    FirstLengthByte(Read(p, 1), ch);
    Dispatch(answersOne, Read(p, 1), ch);
    GoesMarked(answersOne, p, ch, Read(p, 1).(state := HeaderValue, index := 0, contentLength := ch as int - '0' as int), Value);
  }

  /** The bytes of a length that are taken, from the first one on. */
  lemma LengthPartGoes(answersOne: Parser -> bool, p: Parser, v: string, k: nat)
    requires p.state.HeaderValueStart? && p.headerState == ContentLength && v != "" && '0' <= v[0] <= '9'
    requires CR !in v && LF !in v && Room(p, |v|) && k == Taken(Digit(v[0]), v[1..])
    ensures 1 + k <= |v|
    ensures Goes(answersOne, p, v[..1 + k],
                 Read(p, 1 + k).(state := HeaderValue, index := 0, contentLength := LengthOf(Digit(v[0]), v[1..][..k])),
                 BytesOf(Value, v[..1 + k]))
  {
    hide Goes, Taken, LengthOf, BytesOf;
    var d, t := Digit(v[0]), v[1..][..k];
    assert k <= |v[1..]| by { assert Taken(d, v[1..]) <= |v[1..]|; }
    LengthStarts(answersOne, p, v[0]);
    var q := Read(p, 1).(state := HeaderValue, index := 0, contentLength := d);
    TakenPrefix(d, v[1..]);
    forall c | c in t ensures c in v {}
    LengthGoes(answersOne, q, t);
    GoesOn(answersOne, p, [v[0]], q, [HttpTypes.Byte(Value, v[0])], t, LengthRead(q, t), BytesOf(Value, t));
    ByteAlone(Value, v[0]);
    HttpSplit.BytesOfConcat(Value, [v[0]], t);
    assert [v[0]] + t == v[..1 + k];
  }

  lemma NoFlagsOfLength(f: Flags, name: string, v: string)
    requires SameButCase(name, "content-length")
    ensures FlagsSaid(f, (name, v)) == f
  {
    MeaningIs(name);
    hide Meaning, SameButCase, IsWord;
  }

  lemma SomeLength(answersOne: Parser -> bool, p: Parser, line: string, name: string, lead: string, v: string, cr: bool,
                   rest: string, q1: Parser) returns (q: Parser)
    requires Parted(line, name, lead, v) && p.state.HeaderFieldStart? && Room(p, |line| + 2) && IsLine(line)
    requires Named(p, name, q1) && Goes(answersOne, p, name, q1, BytesOf(Field, name))
    requires v != "" && SameButCase(name, "content-length") && '0' <= v[0] <= '9' && Taken(Digit(v[0]), v[1..]) == |v| - 1
    ensures Becomes(answersOne, p, line, cr, rest, q)
  {
    hide Run, Goes, NameOf, Meaning, SameButCase, Say, FlagsSaid, BytesOf, Taken, LengthOf;
    MeaningIs(name);
    ValueReached(answersOne, p, line, name, lead, v, q1);
    var q3 := BeforeValue(q1, lead);
    PlainValue(line, name, lead, v);
    LengthPartGoes(answersOne, q3, v, |v| - 1);
    assert v[..1 + (|v| - 1)] == v && v[1..][..|v| - 1] == v[1..];
    var q4 := Read(q3, |v|).(state := HeaderValue, index := 0, contentLength := LengthOf(Digit(v[0]), v[1..]));
    GoesOn(answersOne, p, name + [':'] + lead, q3, BytesOf(Field, name), v, q4, BytesOf(Value, v));
    NoFlagsOfLength(p.flags, name, v);
    q := HeaderEnds(answersOne, p, line, name, v, cr, rest, q4, p.flags, q4.contentLength);
  }

  /** A length that breaks off. */
  lemma BadLengthByte(answersOne: Parser -> bool, p: Parser, v: string, k: nat)
    requires p.state.HeaderValue? && p.headerState == ContentLength && v != "" && '0' <= v[0] <= '9'
    requires k == Taken(Digit(v[0]), v[1..]) < |v| - 1 && p.contentLength == LengthOf(Digit(v[0]), v[1..][..k])
    requires v[1 + k] != CR && v[1 + k] != LF
    ensures var o := Switch(answersOne, p, v[1 + k]); o.flow == Stop && o.p.errno == InvalidContentLength && o.notify == None
  {
    hide Switch, ValueByte, Taken, LengthOf, Noticed;
    TakenPrefix(Digit(v[0]), v[1..]);
    LengthByte(p, v[1 + k]);
    Dispatch(answersOne, p, v[1 + k]);
  }

  lemma NoLength(answersOne: Parser -> bool, p: Parser, line: string, name: string, lead: string, v: string, cr: bool,
                 rest: string, q1: Parser)
    requires Parted(line, name, lead, v) && p.state.HeaderFieldStart? && Room(p, |line| + 2) && IsLine(line)
    requires Named(p, name, q1) && Goes(answersOne, p, name, q1, BytesOf(Field, name))
    requires v != "" && SameButCase(name, "content-length")
    requires '0' <= v[0] <= '9' ==> Taken(Digit(v[0]), v[1..]) < |v| - 1
    ensures Refuses(answersOne, p, line, cr, rest)
  {
    hide Run, Goes, NameOf, Meaning, SameButCase, FlagsSaid, BytesOf, Taken, LengthOf, Switch, Say, LengthSaid, LineDone, Eol;
    MeaningIs(name);
    ValueReached(answersOne, p, line, name, lead, v, q1);
    PlainValue(line, name, lead, v);
    var head, q3, x, u := name + [':'] + lead, BeforeValue(q1, lead), BytesOf(Field, name), Eol(cr) + rest;
    if '0' <= v[0] <= '9' {
      BreaksOff(answersOne, p, head, q3, x, v, u);
    } else {
      FirstLengthByte(Read(q3, 1), v[0]);
      Dispatch(answersOne, Read(q3, 1), v[0]);
      hide ValueStartByte;
      RefusedBehind(answersOne, p, head, q3, x, v[0], v[1..] + u, InvalidContentLength);
      CutValue(head, v, 0, u);
      assert head + v[..0] == head;
    }
  }

  lemma BreaksOff(answersOne: Parser -> bool, p: Parser, head: string, q3: Parser, x: seq<Atom>, v: string, u: string)
    requires q3.state.HeaderValueStart? && q3.headerState == ContentLength && v != "" && '0' <= v[0] <= '9'
    requires CR !in v && LF !in v && Room(q3, |v|) && Goes(answersOne, p, head, q3, x)
    requires Taken(Digit(v[0]), v[1..]) < |v| - 1
    ensures var r := Run(answersOne, p, head + v + u);
      r.exit == Failed && r.p.errno == InvalidContentLength && r.used == |head| + 1 + Taken(Digit(v[0]), v[1..])
  {
    hide Run, Goes, BytesOf, Taken, LengthOf, Switch;
    var k := Taken(Digit(v[0]), v[1..]);
    LengthPartGoes(answersOne, q3, v, k);
    var q4 := Read(q3, 1 + k).(state := HeaderValue, index := 0, contentLength := LengthOf(Digit(v[0]), v[1..][..k]));
    GoesOn(answersOne, p, head, q3, x, v[..1 + k], q4, BytesOf(Value, v[..1 + k]));
    BadLengthByte(answersOne, Read(q4, 1), v, k);
    RefusedBehind(answersOne, p, head + v[..1 + k], q4, x + BytesOf(Value, v[..1 + k]), v[1 + k], v[2 + k..] + u,
                  InvalidContentLength);
    CutValue(head, v, 1 + k, u);
  }

  lemma CutValue(head: string, v: string, k: nat, u: string)
    requires k < |v|
    ensures head + v[..k] + ([v[k]] + (v[k + 1..] + u)) == head + v + u
  {
  }

  /** Every line that can stand where a header is awaited: what it says is what becomes of it. */
  lemma LineBecomes(answersOne: Parser -> bool, p: Parser, line: string, cr: bool, rest: string) returns (q: Parser)
    requires p.state.HeaderFieldStart? && p.errno == OK && p.nread + |line| + 2 <= 81920 && IsLine(line)
    ensures Becomes(answersOne, p, line, cr, rest, q)
  {
    var name := NameOf(line);
    assert name <= line;
    hide Becomes, Refuses, Goes, NameOf, Named, Say, SameButCase, Taken, IsLine, Parted;
    if name == "" {
      q := p;
      NotEvenAName(answersOne, p, line, cr, rest);
      RefusedBecomes(answersOne, p, line, cr, rest, q);
    } else {
      var q1 := NamePartGoes(answersOne, p, line);
      if |name| == |line| {
        q := OnlyAName(answersOne, p, line, cr, rest, q1);
      } else if line[|name|] != ':' {
        q := p;
        BadMark(answersOne, p, line, cr, rest, q1);
        RefusedBecomes(answersOne, p, line, cr, rest, q);
      } else {
        var lead, v := PartsOf(line);
        if v == "" {
          q := NoValue(answersOne, p, line, name, lead, cr, rest, q1);
        } else if !SameButCase(name, "content-length") {
          q := SomeValue(answersOne, p, line, name, lead, v, cr, rest, q1);
        } else if '0' <= v[0] <= '9' && Taken(Digit(v[0]), v[1..]) >= |v| - 1 {
          TakenAtMost(Digit(v[0]), v[1..]);
          q := SomeLength(answersOne, p, line, name, lead, v, cr, rest, q1);
        } else {
          q := p;
          NoLength(answersOne, p, line, name, lead, v, cr, rest, q1);
          RefusedBecomes(answersOne, p, line, cr, rest, q);
        }
      }
    }
  }

  lemma TakenAtMost(n: nat, v: string)
    ensures Taken(n, v) <= |v|
  {
  }
}
