/** Runs that consume all of a string, put together from shorter ones. */
module HttpGoes {
  import opened Options
  import opened HttpTypes
  import opened HttpSwitch
  import opened HttpRun
  import HttpParser
  import HttpSplit

  const NO_ATOMS: seq<Atom> := []

  /** From `p`, the bytes `s` are consumed without an exit and lead to `q`. */
  ghost predicate Goes(answersOne: Parser -> bool, p: Parser, s: string, q: Parser, atoms: seq<Atom>) {
    Run(answersOne, p, s) == Result(q, atoms, |s|, Running) && q.errno == OK
  }

  lemma GoesNowhere(answersOne: Parser -> bool, p: Parser)
    requires p.errno == OK
    ensures Goes(answersOne, p, "", p, [])
  {
    hide Step;
  }

  lemma GoesOn(answersOne: Parser -> bool, p: Parser, a: string, q: Parser, x: seq<Atom>, b: string, r: Parser, y: seq<Atom>)
    requires Goes(answersOne, p, a, q, x) && Goes(answersOne, q, b, r, y)
    ensures Goes(answersOne, p, a + b, r, x + y)
  {
    hide Run;
    HttpSplit.RunConcat(answersOne, p, a, b);
  }

  lemma GoesOnQuietly(answersOne: Parser -> bool, p: Parser, a: string, q: Parser, b: string, r: Parser)
    requires Goes(answersOne, p, a, q, []) && Goes(answersOne, q, b, r, [])
    ensures Goes(answersOne, p, a + b, r, [])
  {
    hide Goes;
    GoesOn(answersOne, p, a, q, [], b, r, []);
    assert NO_ATOMS + NO_ATOMS == NO_ATOMS;
  }

  /** Consuming, and then whatever happens. */
  lemma GoesThen(answersOne: Parser -> bool, p: Parser, a: string, q: Parser, x: seq<Atom>, b: string)
    requires Goes(answersOne, p, a, q, x)
    ensures Run(answersOne, p, a + b) == Run(answersOne, q, b).After(x, |a|)
  {
    hide Run;
    HttpSplit.RunConcat(answersOne, p, a, b);
  }

  lemma ByteAlone(k: DataKind, ch: char)
    ensures BytesOf(k, [ch]) == [HttpTypes.Byte(k, ch)]
  {
  }

  lemma OneByteMore(k: DataKind, s: string, ch: char)
    ensures BytesOf(k, s + [ch]) == BytesOf(k, s) + [HttpTypes.Byte(k, ch)]
  {
  }

  /** Room for `n` more header bytes. */
  predicate Room(p: Parser, n: nat) { p.errno == OK && p.nread + n <= MAX_HEADER_SIZE }

  function Read(p: Parser, n: nat): Parser { p.(nread := p.nread + n) }

  /** One header byte that the switch deals with at once. */
  lemma GoesByte(answersOne: Parser -> bool, p: Parser, ch: char)
    requires Room(p, 1) && ParsingHeader(p.state)
    ensures var o := Switch(answersOne, Read(p, 1), ch);
            o.flow == Advance && o.p.errno == OK ==>
              Goes(answersOne, p, [ch], o.p, Signals(o.notify) + Tail(o.p.state, ch))
  {
    hide Switch;
    var o := Switch(answersOne, Read(p, 1), ch);
    if o.flow == Advance && o.p.errno == OK {
      HttpParser.RunCons(answersOne, p, [ch]);
      assert [ch][1..] == "";
      assert Run(answersOne, o.p, "") == Result(o.p, [], 0, Running);
    }
  }

  /** Which arm handles the byte. */
  lemma Dispatch(answersOne: Parser -> bool, p: Parser, ch: char)
    ensures p.state.HeaderFieldStart? ==> Switch(answersOne, p, ch) == FieldStartByte(p, ch)
    ensures p.state.HeaderField? ==> Switch(answersOne, p, ch) == FieldByte(p, ch)
    ensures p.state.HeaderValueStart? ==> Switch(answersOne, p, ch) == ValueStartByte(p, ch)
    ensures p.state.HeaderValue? ==> Switch(answersOne, p, ch) == ValueByte(p, ch)
    ensures p.state.HeaderAlmostDone? || p.state.HeaderValueLws? ==> Switch(answersOne, p, ch) == HeaderEndByte(p, ch)
    ensures p.state.HeadersAlmostDone? ==> Switch(answersOne, p, ch) == HeadersAlmostDoneByte(answersOne, p, ch)
    ensures p.state.HeadersDone? ==> Switch(answersOne, p, ch) == HeadersDoneByte(p, ch)
    ensures p.state.ReqMethod? ==> Switch(answersOne, p, ch) == MethodByte(p, ch)
    ensures p.state.StartReq? ==> Switch(answersOne, p, ch) == StartByte(p, ch)
  {
    hide FieldStartByte, FieldByte, ValueStartByte, ValueByte, HeaderEndByte, HeadersAlmostDoneByte, HeadersDoneByte,
         MethodByte, StartByte, UrlByte, ReqVersionByte, ResVersionByte, StatusByte, ChunkByte, BodyByte;
  }

  lemma DispatchLine(answersOne: Parser -> bool, p: Parser, ch: char)
    ensures ArmOf(p.state) == UrlArm ==> Switch(answersOne, p, ch) == UrlByte(p, ch)
    ensures ArmOf(p.state) == ReqVersionArm ==> Switch(answersOne, p, ch) == ReqVersionByte(p, ch)
    ensures ArmOf(p.state) == ChunkArm ==> Switch(answersOne, p, ch) == ChunkByte(p, ch)
  {
    hide ArmOf;
  }

  /** A byte that no callback hears of. */
  lemma GoesQuietly(answersOne: Parser -> bool, p: Parser, ch: char, q: Parser)
    requires Room(p, 1) && ParsingHeader(p.state)
    requires var o := Switch(answersOne, Read(p, 1), ch); o.flow == Advance && o.p == q && o.notify == None
    requires q.errno == OK && MarkOf(q.state) == None
    ensures Goes(answersOne, p, [ch], q, [])
  {
    hide Switch, Goes;
    GoesByte(answersOne, p, ch);
    assert Signals(None) + Tail(q.state, ch) == [];
  }

  /** A byte of data. */
  lemma GoesMarked(answersOne: Parser -> bool, p: Parser, ch: char, q: Parser, k: DataKind)
    requires Room(p, 1) && ParsingHeader(p.state)
    requires var o := Switch(answersOne, Read(p, 1), ch); o.flow == Advance && o.p == q && o.notify == None
    requires q.errno == OK && MarkOf(q.state) == Some(k)
    ensures Goes(answersOne, p, [ch], q, [Byte(k, ch)])
  {
    hide Switch, Goes;
    GoesByte(answersOne, p, ch);
    assert Signals(None) + Tail(q.state, ch) == [Byte(k, ch)];
  }

  /** A byte that is executed a second time, from the state `q`. */
  lemma GoesAgain(answersOne: Parser -> bool, p: Parser, ch: char, q: Parser, rest: string)
    requires Room(p, 1) && ParsingHeader(p.state) && ParsingHeader(q.state) && q.errno == OK && q.nread == p.nread
    requires Switch(answersOne, Read(p, 1), ch) == Again(Read(q, 1))
    ensures Run(answersOne, p, [ch] + rest) == Run(answersOne, q, [ch] + rest)
  {
    hide Switch;
    HttpParser.RunCons(answersOne, p, [ch] + rest);
    HttpParser.RunCons(answersOne, q, [ch] + rest);
    SettleCons(answersOne, Read(p, 1), ch);
    assert ([ch] + rest)[0] == ch && ([ch] + rest)[1..] == rest;
    assert Own(Read(p, 1), Again(Read(q, 1)), ch) == [];
    Unchanged(Settle(answersOne, Read(q, 1), ch));
  }

  lemma Unchanged(r: Result)
    ensures r.After([], 0) == r
  {
    assert [] + r.atoms == r.atoms;
  }

  lemma SettleCons(answersOne: Parser -> bool, p: Parser, ch: char)
    ensures var o := Switch(answersOne, p, ch);
            Settle(answersOne, p, ch) ==
              match o.flow
              case Advance => Result(o.p, Own(p, o, ch) + Tail(o.p.state, ch), 1, Running)
              case Leave => Result(o.p, Own(p, o, ch), 1, Upgraded)
              case Stop => Result(o.p, Own(p, o, ch), 0, Failed)
              case Reexecute => Settle(answersOne, o.p, ch).After(Own(p, o, ch), 0)
  {
    hide Switch;
  }
}
