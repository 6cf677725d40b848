/** `http_parser_execute` (base/http_parser.cc:605-2098) as it is written: one loop over a
    buffer, marks into that buffer for the data callbacks, bytes executed again, bodies
    taken in one piece. Callbacks return 0; on_headers_complete may also answer 1. */
module HttpParser {
  import opened Options
  import opened HttpTypes
  import opened HttpSwitch
  import opened HttpRun

  // ---------------------------------------------------------------- marks

  /** The four local mark pointers, as positions in the buffer. */
  datatype Marks = Marks(field: Option<nat>, value: Option<nat>, url: Option<nat>, body: Option<nat>)
  {
    function Of(k: DataKind): Option<nat> {
      match k case Url => url case Field => field case Value => value case Body => body
    }

    /** MARK: a mark that is set stays where it is. */
    function Set(k: DataKind, i: nat): Marks {
      if Of(k).Some? then this
      else match k
        case Url => this.(url := Some(i))
        case Field => this.(field := Some(i))
        case Value => this.(value := Some(i))
        case Body => this.(body := Some(i))
    }

    function Clear(k: DataKind): Marks {
      match k
      case Url => this.(url := None)
      case Field => this.(field := None)
      case Value => this.(value := None)
      case Body => this.(body := None)
    }
  }

  const NO_MARKS := Marks(None, None, None, None)

  ghost predicate Upto(o: Option<nat>, i: nat) { o.Some? ==> o.value <= i }

  /** Which mark is pending is decided by the state, but for the body's. At most one is. */
  ghost predicate MarksFit(m: Marks, s: State, i: nat, len: nat) {
    && Upto(m.field, i) && Upto(m.value, i) && Upto(m.url, i) && Upto(m.body, i)
    && (m.field.Some? <==> MarkOf(s) == Some(Field))
    && (m.value.Some? <==> MarkOf(s) == Some(Value))
    && (m.url.Some? <==> MarkOf(s) == Some(Url))
    && (m.body.Some? ==> MarkOf(s) == None && (s.ChunkDataAlmostDone? || (InBody(s) && i == len)))
  }

  ghost predicate MarksUpto(m: Marks, i: nat) {
    Upto(m.field, i) && Upto(m.value, i) && Upto(m.url, i) && Upto(m.body, i)
  }

  ghost predicate AtMostOnePending(m: Marks) {
    (if m.field.Some? then 1 else 0) + (if m.value.Some? then 1 else 0) + (if m.url.Some? then 1 else 0)
    + (if m.body.Some? then 1 else 0) <= 1
  }

  ghost function PendingOf(k: DataKind, o: Option<nat>, data: string, i: nat): seq<Atom>
    requires i <= |data| && Upto(o, i)
  {
    match o case None => [] case Some(from) => BytesOf(k, data[from..i])
  }

  /** The bytes seen but not yet handed to a data callback. */
  ghost function Pending(m: Marks, data: string, i: nat): seq<Atom>
    requires i <= |data| && Upto(m.field, i) && Upto(m.value, i) && Upto(m.url, i) && Upto(m.body, i)
  {
    PendingOf(Field, m.field, data, i) + PendingOf(Value, m.value, data, i)
    + PendingOf(Url, m.url, data, i) + PendingOf(Body, m.body, data, i)
  }

  lemma PendingGrows(k: DataKind, from: nat, data: string, i: nat)
    requires from <= i < |data|
    ensures BytesOf(k, data[from..i + 1]) == BytesOf(k, data[from..i]) + [Byte(k, data[i])]
  {
  }

  lemma FlattenSnoc(log: seq<Event>, e: Event)
    ensures Flatten(log + [e]) == Flatten(log) + Atoms(e)
  {
    assert (log + [e])[..|log|] == log;
  }

  // ---------------------------------------------------------------- what is left to do

  /** Run, from inside the switch: the first byte is already counted. */
  ghost function RunHere(answersOne: Parser -> bool, p: Parser, data: string): Result
    requires data != []
  {
    var r := Settle(answersOne, p, data[0]);
    if r.exit == Running then Run(answersOne, r.p, data[1..]).After(r.atoms, 1) else r
  }

  lemma AfterAfter(r: Result, a: seq<Atom>, n: nat, b: seq<Atom>, m: nat)
    ensures r.After(b, m).After(a, n) == r.After(a + b, n + m)
  {
    assert a + (b + r.atoms) == (a + b) + r.atoms;
  }

  /** Which mark an outcome may set or flush, given the states on either side. */
  ghost predicate MarkStep(s: State, o: Outcome) {
    && (o.flow == Stop ==> o.notify == None)
    && (o.flow == Leave ==> s.HeadersDone? && o.mark == None && o.flush == None)
    && (o.flow == Advance || o.flow == Reexecute ==>
          && (o.notify.Some? ==> MarkOf(s) == None && MarkOf(o.p.state) == None && o.mark == None && o.flush == None)
          && match MarkOf(s)
             case Some(k) =>
               o.mark == None && (if o.flush == None then MarkOf(o.p.state) == Some(k) && o.flow == Advance
                                  else o.flush == Some(k) && MarkOf(o.p.state) == None)
             case None =>
               if s.ChunkDataAlmostDone? then
                 o.mark == None && o.flush == Some(Body) && MarkOf(o.p.state) == None && o.flow == Advance
               else if o.flush == None then o.mark == MarkOf(o.p.state) && (o.mark.Some? ==> o.flow == Advance)
               else o.mark == o.flush && o.flush != Some(Body) && MarkOf(o.p.state) == None && o.flow == Advance)
  }

  lemma LineMarks(p: Parser, ch: char)
    ensures ArmOf(p.state) == StartArm ==> MarkStep(p.state, StartByte(p, ch))
    ensures ArmOf(p.state) == MethodArm ==> MarkStep(p.state, MethodByte(p, ch))
    ensures ArmOf(p.state) == StatusArm ==> MarkStep(p.state, StatusByte(p, ch))
  {
    hide HttpTypes.Method.Name;
  }

  lemma VersionMarks(p: Parser, ch: char)
    ensures ArmOf(p.state) == ReqVersionArm ==> MarkStep(p.state, ReqVersionByte(p, ch))
    ensures ArmOf(p.state) == ResVersionArm ==> MarkStep(p.state, ResVersionByte(p, ch))
  {
  }

  lemma UrlMarks(p: Parser, ch: char)
    requires ArmOf(p.state) == UrlArm
    ensures MarkStep(p.state, UrlByte(p, ch))
  {
    hide ParseUrlChar;
    ParseUrlCharStates(p.state, ch);
    ParseUrlCharStates(ReqServerStart, ch);
  }

  lemma FieldMarks(p: Parser, ch: char)
    ensures p.state.HeaderFieldStart? ==> MarkStep(p.state, FieldStartByte(p, ch))
    ensures p.state.HeaderField? ==> MarkStep(p.state, FieldByte(p, ch))
  {
    hide Token, Match;
    MatchState(p);
  }

  lemma MatchState(p: Parser)
    ensures forall w, c, done :: Match(p, w, c, done).state == p.state
  {
    hide HttpTypes.Word.Spelling;
  }

  lemma ValueMarks(p: Parser, ch: char)
    ensures p.state.HeaderValueStart? ==> MarkStep(p.state, ValueStartByte(p, ch))
    ensures p.state.HeaderValue? ==> MarkStep(p.state, ValueByte(p, ch))
    ensures p.state.HeaderAlmostDone? || p.state.HeaderValueLws? ==> MarkStep(p.state, HeaderEndByte(p, ch))
  {
    hide Match, Lower;
    MatchState(p);
  }

  lemma EndMarks(answersOne: Parser -> bool, p: Parser, ch: char)
    ensures p.state.HeadersAlmostDone? ==> MarkStep(p.state, HeadersAlmostDoneByte(answersOne, p, ch))
    ensures p.state.HeadersDone? ==> MarkStep(p.state, HeadersDoneByte(p, ch))
    ensures p.state.MessageDone? ==> MarkStep(p.state, Switch(answersOne, p, ch))
  {
    hide NeedsEof;
  }

  lemma ChunkMarks(p: Parser, ch: char)
    requires ArmOf(p.state) == ChunkArm
    ensures MarkStep(p.state, ChunkByte(p, ch))
  {
  }

  lemma SwitchMarks(answersOne: Parser -> bool, p: Parser, ch: char)
    requires !InBody(p.state)
    ensures MarkStep(p.state, Switch(answersOne, p, ch))
  {
    hide MarkStep, StartByte, MethodByte, UrlByte, ReqVersionByte, ResVersionByte, StatusByte, FieldStartByte,
         FieldByte, ValueStartByte, ValueByte, HeaderEndByte, HeadersAlmostDoneByte, HeadersDoneByte, ChunkByte;
    match ArmOf(p.state)
    case StartArm | MethodArm | StatusArm => LineMarks(p, ch);
    case ReqVersionArm | ResVersionArm => VersionMarks(p, ch);
    case UrlArm => UrlMarks(p, ch);
    case FieldStartArm | FieldArm => FieldMarks(p, ch);
    case ValueStartArm | ValueArm | HeaderEndArm => ValueMarks(p, ch);
    case HeadersAlmostDoneArm | HeadersDoneArm | MessageDoneArm => EndMarks(answersOne, p, ch);
    case ChunkArm => ChunkMarks(p, ch);
    case BodyArm =>
  }

  // ---------------------------------------------------------------- bodies

  function BodyLess(p: Parser, n: nat): Parser
    requires !p.state.BodyIdentityEof? ==> n <= p.contentLength
  {
    if p.state.BodyIdentityEof? then p else p.(contentLength := p.contentLength - n)
  }

  lemma BodyStep(answersOne: Parser -> bool, p: Parser, ch: char)
    requires InBody(p.state) && (!p.state.BodyIdentityEof? ==> 1 < p.contentLength)
    ensures Step(answersOne, p, ch) == Result(BodyLess(p, 1), [Byte(Body, ch)], 1, Running)
  {
    hide StartByte, MethodByte, UrlByte, ReqVersionByte, ResVersionByte, StatusByte, FieldStartByte, FieldByte,
         ValueStartByte, ValueByte, HeaderEndByte, HeadersAlmostDoneByte, HeadersDoneByte, ChunkByte;
  }

  /** Within a body, `n` bytes at once are the same as one at a time. */
  lemma {:induction false} BodyPrefix(answersOne: Parser -> bool, p: Parser, data: string, n: nat)
    requires p.errno == OK && InBody(p.state) && n <= |data|
    requires !p.state.BodyIdentityEof? ==> n < p.contentLength
    ensures Run(answersOne, p, data) == Run(answersOne, BodyLess(p, n), data[n..]).After(BytesOf(Body, data[..n]), n)
    decreases n
  {
    hide Step, Run;
    if n == 0 {
      assert data[0..] == data && BodyLess(p, 0) == p && BytesOf(Body, data[..0]) == [];
    } else {
      BodyStep(answersOne, p, data[0]);
      RunCons(answersOne, p, data);
      FirstByte(data, n);
      BodyPrefix(answersOne, BodyLess(p, 1), data[1..], n - 1);
      AfterAfter(Run(answersOne, BodyLess(p, n), data[n..]), [Byte(Body, data[0])], 1,
                 BytesOf(Body, data[1..][..n - 1]), n - 1);
    }
  }

  lemma RunCons(answersOne: Parser -> bool, p: Parser, data: string)
    requires p.errno == OK && data != []
    ensures var r := Step(answersOne, p, data[0]);
            Run(answersOne, p, data) == if r.exit == Running then Run(answersOne, r.p, data[1..]).After(r.atoms, 1) else r
  {
    hide Step;
  }

  lemma FirstByte(data: string, n: nat)
    requires 0 < n <= |data|
    ensures BytesOf(Body, data[..n]) == [Byte(Body, data[0])] + BytesOf(Body, data[1..][..n - 1])
    ensures data[1..][n - 1..] == data[n..]
  {
  }

  lemma LastByte(data: string, n: nat)
    requires 0 < n <= |data|
    ensures BytesOf(Body, data[..n]) == BytesOf(Body, data[..n - 1]) + [Byte(Body, data[n - 1])]
    ensures data[n - 1..][0] == data[n - 1] && data[n - 1..][1..] == data[n..]
  {
  }

  /** The last byte of an identity body is then seen again in state MessageDone. */
  lemma IdentityEnd(answersOne: Parser -> bool, p: Parser, data: string)
    requires p.errno == OK && p.state.BodyIdentity? && 0 < p.contentLength <= |data|
    ensures var n := p.contentLength;
            Run(answersOne, p, data)
            == RunHere(answersOne, p.(contentLength := 0, state := MessageDone), data[n - 1..])
               .After(BytesOf(Body, data[..n]), n - 1)
  {
    hide Run, Settle, Step, BytesOf;
    var n := p.contentLength;
    var last := BodyLess(p, n - 1);
    var q := p.(contentLength := 0, state := MessageDone);
    var b := [Byte(Body, data[n - 1])];
    BodyPrefix(answersOne, p, data, n - 1);
    LastByte(data, n);
    IdentityLastStep(answersOne, last, data[n - 1]);
    assert last.(contentLength := 0, state := MessageDone) == q;
    RunCons(answersOne, last, data[n - 1..]);
    var r := Settle(answersOne, q, data[n - 1]);
    if r.exit == Running {
      AfterAfter(Run(answersOne, r.p, data[n..]), b, 0, r.atoms, 1);
    }
    AfterAfter(RunHere(answersOne, q, data[n - 1..]), BytesOf(Body, data[..n - 1]), n - 1, b, 0);
  }

  lemma IdentityLastStep(answersOne: Parser -> bool, p: Parser, ch: char)
    requires p.state.BodyIdentity? && p.contentLength == 1
    ensures Step(answersOne, p, ch)
         == Settle(answersOne, p.(contentLength := 0, state := MessageDone), ch).After([Byte(Body, ch)], 0)
  {
    hide Settle, NewMessage;
    assert Switch(answersOne, p, ch) == Again(p.(contentLength := 0, state := MessageDone));
    assert Own(p, Switch(answersOne, p, ch), ch) == [Byte(Body, ch)];
    SettleAgain(answersOne, p, ch);
  }

  lemma SettleAgain(answersOne: Parser -> bool, p: Parser, ch: char)
    ensures var o := Switch(answersOne, p, ch);
            o.flow == Reexecute ==> Settle(answersOne, p, ch) == Settle(answersOne, o.p, ch).After(Own(p, o, ch), 0)
  {
    hide Switch;
  }

  lemma ChunkEnd(answersOne: Parser -> bool, p: Parser, data: string)
    requires p.errno == OK && p.state.ChunkData? && 0 < p.contentLength <= |data|
    ensures var n := p.contentLength;
            Run(answersOne, p, data)
            == Run(answersOne, p.(contentLength := 0, state := ChunkDataAlmostDone), data[n..])
               .After(BytesOf(Body, data[..n]), n)
  {
    hide Run, Step, BytesOf;
    var n := p.contentLength;
    var last := BodyLess(p, n - 1);
    var q := p.(contentLength := 0, state := ChunkDataAlmostDone);
    BodyPrefix(answersOne, p, data, n - 1);
    LastByte(data, n);
    ChunkLastStep(answersOne, last, data[n - 1]);
    assert last.(contentLength := 0, state := ChunkDataAlmostDone) == q;
    RunCons(answersOne, last, data[n - 1..]);
    AfterAfter(Run(answersOne, q, data[n..]), BytesOf(Body, data[..n - 1]), n - 1, [Byte(Body, data[n - 1])], 1);
  }

  lemma ChunkLastStep(answersOne: Parser -> bool, p: Parser, ch: char)
    requires p.state.ChunkData? && p.contentLength == 1
    ensures Step(answersOne, p, ch)
         == Result(p.(contentLength := 0, state := ChunkDataAlmostDone), [Byte(Body, ch)], 1, Running)
  {
  }

  /** What one outcome does to the log: the flushed data, then the notification. */
  function Report(log: seq<Event>, m: Marks, o: Outcome, data: string, i: nat): seq<Event>
    requires i <= |data|
    requires o.flush.Some? && m.Of(o.flush.value).Some? ==> m.Of(o.flush.value).value <= i
  {
    var flushed := match o.flush
      case None => log
      case Some(k) => if m.Of(k).Some? then log + [Data(k, data[m.Of(k).value..i])] else log;
    match o.notify case None => flushed case Some(n) => flushed + [Notify(n)]
  }

  function Marking(m: Marks, o: Outcome, i: nat): Marks {
    match o.mark case None => m case Some(k) => m.Set(k, i)
  }

  function Unmarking(m: Marks, o: Outcome): Marks {
    match o.flush case None => m case Some(k) => m.Clear(k)
  }

  ghost predicate Ready(m: Marks, p: Parser, data: string, i: nat) {
    i <= |data| && MarksFit(m, p.state, i, |data|)
  }

  /** The one mark that may be pending. */
  ghost function Current(s: State): DataKind {
    match MarkOf(s) case Some(k) => k case None => Body
  }

  lemma PendingIsOne(m: Marks, s: State, data: string, i: nat, len: nat)
    requires i <= |data| && MarksFit(m, s, i, len)
    ensures AtMostOnePending(m)
    ensures Pending(m, data, i) == PendingOf(Current(s), m.Of(Current(s)), data, i)
    ensures forall k :: k != Current(s) ==> m.Of(k) == None
    ensures Upto(m.Of(Current(s)), i)
  {
    hide BytesOf, MarkOf, InBody;
  }

  /** The bytes of a marked run, with the run's next byte. */
  lemma StillMarked(m: Marks, s: State, s': State, data: string, i: nat)
    requires i < |data| && MarksFit(m, s, i, |data|) && MarkOf(s).Some? && MarkOf(s') == MarkOf(s)
    ensures MarksFit(m, s', i + 1, |data|)
    ensures Pending(m, data, i + 1) == Pending(m, data, i) + Tail(s', data[i])
  {
    hide BytesOf, MarkOf, InBody, Pending;
    PendingIsOne(m, s, data, i, |data|);
    PendingIsOne(m, s', data, i + 1, |data|);
    PendingGrows(Current(s), m.Of(Current(s)).value, data, i);
  }

  lemma JustMarked(m: Marks, s: State, s': State, data: string, i: nat)
    requires i < |data| && MarksFit(m, s, i, |data|) && MarkOf(s).None? && m.body.None?
    requires MarkOf(s').Some?
    ensures MarksFit(m.Set(Current(s'), i), s', i + 1, |data|)
    ensures Pending(m.Set(Current(s'), i), data, i + 1) == Tail(s', data[i]) && Pending(m, data, i) == []
  {
    hide BytesOf, MarkOf, InBody, Pending;
    PendingIsOne(m, s, data, i, |data|);
    PendingIsOne(m.Set(Current(s'), i), s', data, i + 1, |data|);
    OneByte(Current(s'), data, i);
  }

  lemma OneByte(k: DataKind, data: string, i: nat)
    requires i < |data|
    ensures BytesOf(k, data[i..i + 1]) == [Byte(k, data[i])]
  {
    assert data[i..i + 1] == [data[i]];
  }

  /** A flush moves what is pending into the log. */
  lemma Flushed(m: Marks, s: State, s': State, log: seq<Event>, data: string, i: nat, j: nat)
    requires i < |data| && i <= j <= |data| && MarksFit(m, s, i, |data|) && MarkOf(s').None?
    ensures var k := Current(s);
      && MarksFit(m.Clear(k), s', j, |data|) && Pending(m.Clear(k), data, j) == []
      && (m.Of(k).Some? ==> Flatten(log + [Data(k, data[m.Of(k).value..i])]) == Flatten(log) + Pending(m, data, i))
      && (m.Of(k).None? ==> Pending(m, data, i) == [])
  {
    hide BytesOf, MarkOf, InBody, Pending, Flatten, AtMostOnePending, Current, Marks.Clear, Marks.Of;
    PendingIsOne(m, s, data, i, |data|);
    var k := Current(s);
    ClearFits(m, s, s', i, j, |data|);
    PendingIsOne(m.Clear(k), s', data, j, |data|);
    hide MarksFit;
    if m.Of(k).Some? {
      FlattenSnoc(log, Data(k, data[m.Of(k).value..i]));
    }
  }

  lemma ClearFits(m: Marks, s: State, s': State, i: nat, j: nat, len: nat)
    requires MarksFit(m, s, i, len) && MarkOf(s').None? && i <= j
    ensures MarksFit(m.Clear(Current(s)), s', j, len) && m.Clear(Current(s)).Of(Current(s')) == None
  {
    hide MarkOf, InBody;
  }

  lemma Unmarked(m: Marks, s: State, s': State, data: string, i: nat, j: nat)
    requires i <= j <= |data| && i < |data| && MarksFit(m, s, i, |data|)
    requires MarkOf(s).None? && m.body.None? && MarkOf(s').None?
    ensures MarksFit(m, s', j, |data|) && Pending(m, data, j) == [] && Pending(m, data, i) == []
  {
    hide BytesOf, MarkOf, InBody, Pending;
    PendingIsOne(m, s, data, i, |data|);
    PendingIsOne(m, s', data, j, |data|);
  }

  /** Outside bodies an outcome keeps the log and the pending bytes in step with what
      the byte means: its own atoms, and the byte itself when it stays marked. */
  lemma OutcomeReports(answersOne: Parser -> bool, p: Parser, log: seq<Event>, m: Marks, data: string, i: nat)
    requires i < |data| && Ready(m, p, data, i) && !InBody(p.state)
    ensures var o := Switch(answersOne, p, data[i]);
      var m1 := Marking(m, o, i);
      && Upto(m1.field, i) && Upto(m1.value, i) && Upto(m1.url, i) && Upto(m1.body, i)
      && var m2 := Unmarking(m1, o);
      var log2 := Report(log, m1, o, data, i);
      match o.flow
      case Stop => true
      case Leave => Pending(m, data, i) == [] && Flatten(log2) == Flatten(log) + Own(p, o, data[i])
      case Reexecute =>
        Ready(m2, o.p, data, i)
        && Flatten(log2) + Pending(m2, data, i) == Flatten(log) + Pending(m, data, i) + Own(p, o, data[i])
      case Advance =>
        Ready(m2, o.p, data, i + 1)
        && Flatten(log2) + Pending(m2, data, i + 1)
           == Flatten(log) + Pending(m, data, i) + (Own(p, o, data[i]) + Tail(o.p.state, data[i]))
  {
    hide Switch, Pending, BytesOf, Flatten, MarkOf;
    SwitchMarks(answersOne, p, data[i]);
    var o := Switch(answersOne, p, data[i]);
    if o.flow == Advance || o.flow == Reexecute {
      var j := if o.flow == Advance then i + 1 else i;
      if o.flush == None {
        if MarkOf(p.state).Some? {
          StillMarked(m, p.state, o.p.state, data, i);
        } else if o.mark.Some? {
          JustMarked(m, p.state, o.p.state, data, i);
        } else {
          Unmarked(m, p.state, o.p.state, data, i, j);
          NotifyAtoms(log, o.notify);
        }
      } else if o.mark == None {
        Flushed(m, p.state, o.p.state, log, data, i, j);
      } else {
        Unmarked(m, p.state, o.p.state, data, i, j);
        FlushedAtOnce(log, o.mark.value, data, i);
      }
    } else if o.flow == Leave {
      Unmarked(m, p.state, p.state, data, i, i);
      NotifyAtoms(log, o.notify);
    }
  }

  lemma NotifyAtoms(log: seq<Event>, n: Option<Notice>)
    ensures n.Some? ==> Flatten(log + [Notify(n.value)]) == Flatten(log) + Signals(n)
  {
    if n.Some? {
      FlattenSnoc(log, Notify(n.value));
    }
  }

  lemma FlushedAtOnce(log: seq<Event>, k: DataKind, data: string, i: nat)
    requires i < |data|
    ensures Flatten(log + [Data(k, data[i..i])]) == Flatten(log)
  {
    FlattenSnoc(log, Data(k, data[i..i]));
    assert BytesOf(k, data[i..i]) == [];
  }

  lemma RunHereBody(answersOne: Parser -> bool, p: Parser, data: string)
    requires p.errno == OK && InBody(p.state) && data != []
    ensures RunHere(answersOne, p, data) == Run(answersOne, p, data)
  {
    hide Settle;
  }

  /** The end-of-file call: an empty buffer. */
  function AtEof(p: Parser): (Parser, seq<Event>) {
    match p.state
    case BodyIdentityEof => (p, [Notify(MessageComplete)])
    case Dead | StartReqOrRes | StartRes | StartReq => (p, [])
    case _ => (p.(errno := InvalidEofState), [])
  }

  /** What the rest of the buffer means, between two bytes. */
  ghost function Left(answersOne: Parser -> bool, p: Parser, log: seq<Event>, data: string, i: nat, m: Marks): Result
    requires Ready(m, p, data, i)
  {
    Run(answersOne, p, data[i..]).After(Flatten(log) + Pending(m, data, i), i)
  }

  /** The same, from inside the switch. */
  ghost function LeftHere(answersOne: Parser -> bool, p: Parser, log: seq<Event>, data: string, i: nat, m: Marks)
    : Result
    requires i < |data| && Ready(m, p, data, i)
  {
    RunHere(answersOne, p, data[i..]).After(Flatten(log) + Pending(m, data, i), i)
  }

  /** s_body_identity, with the marks and the log: the buffer ends first. */
  lemma IdentityMore(answersOne: Parser -> bool, p: Parser, log: seq<Event>, data: string, i: nat, m: Marks)
    requires i < |data| && Ready(m, p, data, i) && Entry(p) && p.state.BodyIdentity? && |data| - i < p.contentLength
    ensures m == NO_MARKS && p.contentLength != 0 && p.contentLength != U64_MAX
    ensures var n := |data| - i;
      var q := p.(contentLength := p.contentLength - n);
      var m1 := m.Set(Body, i);
      && Inv(q) && Ready(m1, q, data, i + n)
      && LeftHere(answersOne, p, log, data, i, m) == Left(answersOne, q, log, data, i + n, m1)
  {
    hide Run, RunHere, Entry, Inv, BytesOf, Flatten, MarkOf;
    var n := |data| - i;
    BodySound(p, n);
    PendingIsOne(m, p.state, data, i, |data|);
    BodyTaken(answersOne, p, data, i, n, Flatten(log));
    BodyMarked(m.Set(Body, i), p.state, data, i, i + n);
  }

  /** The body ends first, or together with the buffer. */
  lemma IdentityAll(answersOne: Parser -> bool, p: Parser, log: seq<Event>, data: string, i: nat, m: Marks)
    requires i < |data| && Ready(m, p, data, i) && Entry(p) && p.state.BodyIdentity? && p.contentLength <= |data| - i
    ensures m == NO_MARKS && p.contentLength != 0 && p.contentLength != U64_MAX
    ensures var n := p.contentLength;
      var q := BodyLess(p, n).(state := MessageDone);
      && Entry(q) && Ready(m, q, data, i + n - 1)
      && LeftHere(answersOne, p, log, data, i, m)
         == LeftHere(answersOne, q, log + [Data(Body, data[i..i + n])], data, i + n - 1, m)
  {
    hide Run, RunHere, Entry, Inv, BytesOf, Flatten, Pending;
    var n := p.contentLength;
    BodySound(p, n);
    PendingIsOne(m, p.state, data, i, |data|);
    Unmarked(m, p.state, MessageDone, data, i, i + n - 1);
    BodyTaken(answersOne, p, data, i, n, Flatten(log));
    FlattenSnoc(log, Data(Body, data[i..i + n]));
    var log' := log + [Data(Body, data[i..i + n])];
    assert Flatten(log) + [] == Flatten(log) && Flatten(log') + [] == Flatten(log');
  }

  /** Nothing left to read: the pending bytes are what is still to be reported. */
  lemma AtEnd(answersOne: Parser -> bool, p: Parser, log: seq<Event>, data: string, m: Marks)
    requires Ready(m, p, data, |data|) && Inv(p)
    ensures AtMostOnePending(m)
    ensures Left(answersOne, p, log, data, |data|, m)
         == Result(p, Flatten(log) + PendingOf(Field, m.field, data, |data|) + PendingOf(Value, m.value, data, |data|)
                      + PendingOf(Url, m.url, data, |data|) + PendingOf(Body, m.body, data, |data|),
                   |data|, Running)
  {
    hide Flatten, Inv, BytesOf, MarkOf, InBody, Run, PendingOf;
    assert data[|data|..] == "";
    PendingIsOne(m, p.state, data, |data|, |data|);
    RunEnds(answersOne, p);
    FourPending(Flatten(log), PendingOf(Field, m.field, data, |data|), PendingOf(Value, m.value, data, |data|),
                PendingOf(Url, m.url, data, |data|), PendingOf(Body, m.body, data, |data|));
  }

  lemma RunEnds(answersOne: Parser -> bool, p: Parser)
    requires Inv(p)
    ensures Run(answersOne, p, "") == Result(p, [], 0, Running)
  {
    hide FieldSound, ValueSound, NameLength, Step;
  }

  lemma FourPending(f: seq<Atom>, a: seq<Atom>, b: seq<Atom>, c: seq<Atom>, d: seq<Atom>)
    ensures f + (a + b + c + d) + [] == f + a + b + c + d
  {
  }

  lemma ErrorStays(answersOne: Parser -> bool, p: Parser, data: string)
    requires p.errno != OK
    ensures Run(answersOne, p, data) == Result(p, [], 0, Failed)
  {
    hide Step;
  }

  lemma AtStart(answersOne: Parser -> bool, p: Parser, log: seq<Event>, data: string, m: Marks)
    requires data != []
    requires m == match MarkOf(p.state) case Some(k) => NO_MARKS.Set(k, 0) case None => NO_MARKS
    ensures Ready(m, p, data, 0)
    ensures Left(answersOne, p, log, data, 0, m) == Run(answersOne, p, data).After(Flatten(log), 0)
  {
    hide Flatten, Run, BytesOf;
    assert data[0..] == data;
    NothingPending(m, p.state, data);
  }

  /** One pass through the switch outside the bodies, with the marks and the log. */
  lemma SwitchLeft(answersOne: Parser -> bool, p: Parser, log: seq<Event>, m: Marks, data: string, i: nat)
    requires i < |data| && Ready(m, p, data, i) && Entry(p) && !InBody(p.state)
    ensures MarksUpto(m, i)
    ensures var o := Switch(answersOne, p, data[i]);
      var m1 := Marking(m, o, i);
      && MarksUpto(m1, i)
      && var m2 := Unmarking(m1, o);
      var log2 := Report(log, m1, o, data, i);
      var here := LeftHere(answersOne, p, log, data, i, m);
      match o.flow
      case Advance => Inv(o.p) && Ready(m2, o.p, data, i + 1) && here == Left(answersOne, o.p, log2, data, i + 1, m2)
      case Reexecute =>
        Entry(o.p) && Ready(m2, o.p, data, i) && Rank(o.p.state) < Rank(p.state)
        && here == LeftHere(answersOne, o.p, log2, data, i, m2)
      case Leave => Inv(o.p) && here == Result(o.p, Flatten(log2), i + 1, Upgraded)
      case Stop => o.p.errno != OK && here == Result(o.p, Flatten(log) + Pending(m, data, i), i, Failed)
  {
    hide Switch, Pending, BytesOf, Flatten, Entry, Inv, MarkOf, Rank, Report, RunHere, Run;
    SwitchKeeps(answersOne, p, data[i]);
    SwitchMarks(answersOne, p, data[i]);
    ReexecutionDescends(answersOne, p, data[i]);
    OutcomeReports(answersOne, p, log, m, data, i);
    SwitchMeans(answersOne, p, data[i..]);
    var o := Switch(answersOne, p, data[i]);
    var before := Flatten(log) + Pending(m, data, i);
    var own := Own(p, o, data[i]);
    match o.flow
    case Advance =>
      assert data[i..][1..] == data[i + 1..];
      AfterAfter(Run(answersOne, o.p, data[i + 1..]), before, i, own + Tail(o.p.state, data[i]), 1);
    case Reexecute => AfterAfter(RunHere(answersOne, o.p, data[i..]), before, i, own, 0);
    case Leave => assert Flatten(log) + [] == Flatten(log);
    case Stop => assert before + [] == before;
  }

  class Connection {
    /** What on_headers_complete answers. */
    const answersOne: Parser -> bool
    var p: Parser
    /** The callbacks made so far, in order. */
    var log: seq<Event>

    ghost predicate Valid()
      reads this
    {
      p.errno == OK ==> Inv(p)
    }

    constructor (kind: Kind, answersOne: Parser -> bool)
      ensures Valid() && p == Init(kind) && log == [] && this.answersOne == answersOne
    {
      this.answersOne := answersOne;
      p := Init(kind);
      log := [];
    }

    /** One pass through the switch, in a state outside the bodies. */
    method SwitchOnce(data: string, i: nat, m: Marks) returns (m': Marks, flow: Flow)
      requires i < |data| && Ready(m, p, data, i) && Entry(p) && !InBody(p.state)
      modifies this
      ensures flow == Advance ==>
                Inv(p) && Ready(m', p, data, i + 1) && Left(answersOne, p, log, data, i + 1, m') == LeftHere(answersOne, old(p), old(log), data, i, m)
      ensures flow == Reexecute ==>
                && Entry(p) && Ready(m', p, data, i) && Rank(p.state) < Rank(old(p.state))
                && LeftHere(answersOne, p, log, data, i, m') == LeftHere(answersOne, old(p), old(log), data, i, m)
      ensures flow == Leave ==>
                Inv(p) && LeftHere(answersOne, old(p), old(log), data, i, m) == Result(p, Flatten(log), i + 1, Upgraded)
      ensures flow == Stop ==>
                && p.errno != OK && m' == m && MarksUpto(m, i)
                && LeftHere(answersOne, old(p), old(log), data, i, m) == Result(p, Flatten(log) + Pending(m, data, i), i, Failed)
    {
      hide Left, LeftHere, Switch, Pending, Flatten, Entry, Inv, MarksFit, Rank, Report, Marking, Unmarking;
      SwitchLeft(answersOne, p, log, m, data, i);
      var o := Switch(answersOne, p, data[i]);
      p := o.p;
      flow := o.flow;
      m' := m;
      if flow != Stop {
        var marked := Marking(m, o, i);
        log := Report(log, marked, o, data, i);
        m' := Unmarking(marked, o);
      }
    }

    /** s_body_identity: as many bytes as the buffer holds and the length allows.
        `j` is the byte that is then current. */
    method TakeIdentity(data: string, i: nat, m: Marks) returns (j: nat, m': Marks, flow: Flow)
      requires i < |data| && Ready(m, p, data, i) && Entry(p) && p.state.BodyIdentity?
      modifies this
      ensures i <= j < |data|
      ensures flow == Advance ==>
                Inv(p) && Ready(m', p, data, j + 1) && Left(answersOne, p, log, data, j + 1, m') == LeftHere(answersOne, old(p), old(log), data, i, m)
      ensures flow == Reexecute ==>
                && Entry(p) && Ready(m', p, data, j) && Rank(p.state) < Rank(old(p.state))
                && LeftHere(answersOne, p, log, data, j, m') == LeftHere(answersOne, old(p), old(log), data, i, m)
      ensures flow == Advance || flow == Reexecute
    {
      hide Left, LeftHere, Entry, Inv, MarksFit;
      if |data| - i < p.contentLength {
        IdentityMore(answersOne, p, log, data, i, m);
      } else {
        IdentityAll(answersOne, p, log, data, i, m);
      }
      assert p.contentLength != 0 && p.contentLength != U64_MAX;
      var toRead := Min(p.contentLength, |data| - i);
      m' := m.Set(Body, i);
      p := p.(contentLength := p.contentLength - toRead);
      j := i + toRead - 1;
      if p.contentLength == 0 {
        p := p.(state := MessageDone);
        log := log + [Data(Body, data[m'.body.value..j + 1])];
        m' := m'.Clear(Body);
        flow := Reexecute;
      } else {
        flow := Advance;
      }
    }

    /** s_body_identity_eof: everything that is left. */
    method TakeToEof(data: string, i: nat, m: Marks) returns (j: nat, m': Marks)
      requires i < |data| && Ready(m, p, data, i) && Entry(p) && p.state.BodyIdentityEof?
      ensures j == |data| - 1
      ensures Inv(p) && Ready(m', p, data, j + 1) && Left(answersOne, p, log, data, j + 1, m') == LeftHere(answersOne, p, log, data, i, m)
    {
      hide Flatten, BytesOf, Run, RunHere, Pending, Entry, Inv;
      BodySound(p, 0);
      PendingIsOne(m, p.state, data, i, |data|);
      m' := m.Set(Body, i);
      j := |data| - 1;
      BodyTaken(answersOne, p, data, i, |data| - i, Flatten(log));
      BodyMarked(m', p.state, data, i, j + 1);
    }

    /** s_chunk_data. */
    method TakeChunk(data: string, i: nat, m: Marks) returns (j: nat, m': Marks)
      requires i < |data| && Ready(m, p, data, i) && Entry(p) && p.state.ChunkData?
      modifies this
      ensures i <= j < |data|
      ensures Inv(p) && Ready(m', p, data, j + 1) && Left(answersOne, p, log, data, j + 1, m') == LeftHere(answersOne, old(p), old(log), data, i, m)
    {
      hide Flatten, BytesOf, Run, RunHere, Pending, Entry, Inv;
      BodySound(p, Min(p.contentLength, |data| - i));
      assert p.flags.chunked;
      assert p.contentLength != 0 && p.contentLength != U64_MAX;
      PendingIsOne(m, p.state, data, i, |data|);
      var toRead := Min(p.contentLength, |data| - i);
      m' := m.Set(Body, i);
      BodyTaken(answersOne, p, data, i, toRead, Flatten(log));
      p := p.(contentLength := p.contentLength - toRead);
      j := i + toRead - 1;
      if p.contentLength == 0 {
        p := p.(state := ChunkDataAlmostDone);
      }
      BodyMarked(m', p.state, data, i, j + 1);
    }

    /** The label reexecute_byte: the switch, until it is done with the byte. */
    method ExecuteByte(data: string, i: nat, m: Marks) returns (j: nat, m': Marks, flow: Flow)
      requires i < |data| && Ready(m, p, data, i) && Entry(p)
      modifies this
      ensures i <= j < |data| && flow != Reexecute
      ensures flow == Advance ==>
                Inv(p) && Ready(m', p, data, j + 1) && Left(answersOne, p, log, data, j + 1, m') == LeftHere(answersOne, old(p), old(log), data, i, m)
      ensures flow == Leave ==>
                Inv(p) && LeftHere(answersOne, old(p), old(log), data, i, m) == Result(p, Flatten(log), j + 1, Upgraded)
      ensures flow == Stop ==>
                && p.errno != OK && MarksUpto(m', j)
                && LeftHere(answersOne, old(p), old(log), data, i, m) == Result(p, Flatten(log) + Pending(m', data, j), j, Failed)
    {
      hide Left, LeftHere, MarksFit, Entry, Inv, Rank, Flatten, Pending;
      j, m', flow := i, m, Reexecute;
      while flow == Reexecute
        invariant i <= j < |data|
        invariant flow == Reexecute ==> Entry(p) && Ready(m', p, data, j) && LeftHere(answersOne, p, log, data, j, m') == LeftHere(answersOne, old(p), old(log), data, i, m)
        invariant flow == Advance ==> Inv(p) && Ready(m', p, data, j + 1) && Left(answersOne, p, log, data, j + 1, m') == LeftHere(answersOne, old(p), old(log), data, i, m)
        invariant flow == Leave ==> Inv(p) && LeftHere(answersOne, old(p), old(log), data, i, m) == Result(p, Flatten(log), j + 1, Upgraded)
        invariant flow == Stop ==>
                    p.errno != OK && MarksUpto(m', j)
                    && LeftHere(answersOne, old(p), old(log), data, i, m) == Result(p, Flatten(log) + Pending(m', data, j), j, Failed)
        decreases flow == Reexecute, Rank(p.state)
      {
        match p.state {
          case BodyIdentity => j, m', flow := TakeIdentity(data, j, m');
          case BodyIdentityEof =>
            j, m' := TakeToEof(data, j, m');
            flow := Advance;
          case ChunkData =>
            j, m' := TakeChunk(data, j, m');
            flow := Advance;
          case _ => m', flow := SwitchOnce(data, j, m');
        }
      }
    }

    /** http_parser_execute. What reaches the callbacks is what the bytes mean one at a
        time; an error leaves the pending mark's bytes unreported. */
    method Execute(data: string) returns (used: nat)
      requires Valid()
      modifies this
      ensures Valid()
      ensures data == [] && old(p).errno == OK ==>
                p == AtEof(old(p)).0 && log == old(log) + AtEof(old(p)).1
                && used == if p.errno == OK then 0 else 1
      ensures data != [] || old(p).errno != OK ==>
                var r := Run(answersOne, old(p), data);
                && p == r.p && used == r.used
                && if r.exit == Failed then Flatten(log) <= Flatten(old(log)) + r.atoms
                   else Flatten(log) == Flatten(old(log)) + r.atoms
    {
      hide Flatten, Left, LeftHere, MarksFit, Pending, Run, Entry, Inv, MarkOf;
      if p.errno != OK {
        ErrorStays(answersOne, p, data);
        return 0;
      }
      if data == [] {
        if p.state.BodyIdentityEof? {
          log := log + [Notify(MessageComplete)];
          return 0;
        }
        if p.state.Dead? || p.state.StartReqOrRes? || p.state.StartRes? || p.state.StartReq? {
          return 0;
        }
        p := p.(errno := InvalidEofState);
        return 1;
      }
      var m := NO_MARKS;
      match MarkOf(p.state) {
        case Some(k) => m := m.Set(k, 0);
        case None =>
      }
      var i := 0;
      ghost var all := Run(answersOne, p, data).After(Flatten(log), 0);
      AtStart(answersOne, p, log, data, m);
      while i < |data|
        invariant i <= |data| && Inv(p) && Ready(m, p, data, i)
        invariant Left(answersOne, p, log, data, i, m) == all
      {
        CountIn(answersOne, p, log, data, i, m);
        if ParsingHeader(p.state) {
          p := p.(nread := p.nread + 1);
          if p.nread > MAX_HEADER_SIZE {
            p := p.(errno := HeaderOverflow);
            return i;
          }
        }
        var flow;
        i, m, flow := ExecuteByte(data, i, m);
        if flow == Stop {
          return i;
        }
        if flow == Leave {
          return i + 1;
        }
        i := i + 1;
      }
      FlushMarks(data, m);
      return |data|;
    }

    /** What is still marked when the buffer is used up. */
    method FlushMarks(data: string, m: Marks)
      requires Ready(m, p, data, |data|) && Inv(p)
      modifies this`log
      ensures Left(answersOne, p, old(log), data, |data|, m) == Result(p, Flatten(log), |data|, Running)
    {
      hide Flatten, Left, Pending, Inv, BytesOf, PendingOf;
      AtEnd(answersOne, p, log, data, m);
      assert AtMostOnePending(m);
      FlushMark(Field, data, m);
      FlushMark(Value, data, m);
      FlushMark(Url, data, m);
      FlushMark(Body, data, m);
    }

    /** The data callback of a mark that is still set at the end of the buffer. */
    method FlushMark(k: DataKind, data: string, m: Marks)
      requires Upto(m.Of(k), |data|)
      modifies this`log
      ensures Flatten(log) == Flatten(old(log)) + PendingOf(k, m.Of(k), data, |data|)
    {
      if m.Of(k).Some? {
        FlattenSnoc(log, Data(k, data[m.Of(k).value..|data|]));
        log := log + [Data(k, data[m.Of(k).value..|data|])];
      }
    }
  }

  lemma NothingPending(m: Marks, s: State, data: string)
    requires data != []
    requires m == match MarkOf(s) case Some(k) => NO_MARKS.Set(k, 0) case None => NO_MARKS
    ensures MarksFit(m, s, 0, |data|) && Pending(m, data, 0) == []
  {
    PendingIsOne(m, s, data, 0, |data|);
  }

  /** `n` bytes of a body taken from position `i`, counted from the start of the buffer. */
  lemma BodyTaken(answersOne: Parser -> bool, p: Parser, data: string, i: nat, n: nat, before: seq<Atom>)
    requires 0 < n && i + n <= |data| && p.errno == OK && InBody(p.state)
    requires !p.state.BodyIdentityEof? ==> n <= p.contentLength
    ensures var r := RunHere(answersOne, p, data[i..]).After(before, i);
            var atoms := before + BytesOf(Body, data[i..i + n]);
            var q := BodyLess(p, n);
            if p.state.BodyIdentityEof? || n < p.contentLength then
              r == Run(answersOne, q, data[i + n..]).After(atoms, i + n)
            else if p.state.ChunkData? then
              r == Run(answersOne, q.(state := ChunkDataAlmostDone), data[i + n..]).After(atoms, i + n)
            else
              r == RunHere(answersOne, q.(state := MessageDone), data[i + n - 1..]).After(atoms, i + n - 1)
  {
    hide BytesOf, Run, RunHere;
    RunHereBody(answersOne, p, data[i..]);
    var d := data[i..];
    assert d[..n] == data[i..i + n] && d[n..] == data[i + n..] && d[n - 1..] == data[i + n - 1..];
    var bytes := BytesOf(Body, data[i..i + n]);
    var q := BodyLess(p, n);
    if p.state.BodyIdentityEof? || n < p.contentLength {
      BodyPrefix(answersOne, p, d, n);
      AfterAfter(Run(answersOne, q, data[i + n..]), before, i, bytes, n);
    } else if p.state.ChunkData? {
      ChunkEnd(answersOne, p, d);
      AfterAfter(Run(answersOne, q.(state := ChunkDataAlmostDone), data[i + n..]), before, i, bytes, n);
    } else {
      IdentityEnd(answersOne, p, d);
      AfterAfter(RunHere(answersOne, q.(state := MessageDone), data[i + n - 1..]), before, i, bytes, n - 1);
    }
  }

  /** What the invariant says about a body, and keeps while its bytes are taken. */
  lemma BodySound(p: Parser, n: nat)
    requires Entry(p) && InBody(p.state) && (!p.state.BodyIdentityEof? ==> n <= p.contentLength)
    ensures p.errno == OK
    ensures !p.state.BodyIdentityEof? ==> p.contentLength != 0 && p.contentLength != U64_MAX
    ensures p.state.ChunkData? ==> p.flags.chunked
    ensures p.state.BodyIdentityEof? || n < p.contentLength ==> Inv(BodyLess(p, n))
    ensures p.state.ChunkData? && n == p.contentLength ==> Inv(BodyLess(p, n).(state := ChunkDataAlmostDone))
    ensures p.state.BodyIdentity? && n == p.contentLength ==> Entry(BodyLess(p, n).(state := MessageDone))
  {
    hide FieldSound, ValueSound, NameLength;
  }

  function Min(a: nat, b: nat): nat { if a < b then a else b }

  lemma BodyMarked(m: Marks, s: State, data: string, i: nat, j: nat)
    requires i <= j <= |data| && m == Marks(None, None, None, Some(i)) && MarkOf(s).None?
    requires s.ChunkDataAlmostDone? || (InBody(s) && j == |data|)
    ensures MarksFit(m, s, j, |data|) && Pending(m, data, j) == BytesOf(Body, data[i..j])
  {
    PendingIsOne(m, s, data, j, |data|);
  }

  /** Counting a byte leads into the switch, or to HEADER_OVERFLOW. */
  lemma CountIn(answersOne: Parser -> bool, p: Parser, log: seq<Event>, data: string, i: nat, m: Marks)
    requires i < |data| && Ready(m, p, data, i) && Inv(p)
    ensures var q := if ParsingHeader(p.state) then p.(nread := p.nread + 1) else p;
            q.state == p.state
            && if ParsingHeader(p.state) && q.nread > MAX_HEADER_SIZE then
                 Left(answersOne, p, log, data, i, m)
                 == Result(q.(errno := HeaderOverflow), Flatten(log) + Pending(m, data, i), i, Failed)
               else Entry(q) && Left(answersOne, p, log, data, i, m) == LeftHere(answersOne, q, log, data, i, m)
  {
    hide Settle, Pending, Flatten, Entry, FieldSound, ValueSound, NameLength;
    RunCons(answersOne, p, data[i..]);
    if !Overflows(p) {
      CountedEnters(p);
    }
  }

  /** One pass through the switch, as the reference sees it. */
  lemma SwitchMeans(answersOne: Parser -> bool, p: Parser, data: string)
    requires data != []
    ensures var o := Switch(answersOne, p, data[0]);
      var own := Own(p, o, data[0]);
      RunHere(answersOne, p, data) ==
        match o.flow
        case Advance => Run(answersOne, o.p, data[1..]).After(own + Tail(o.p.state, data[0]), 1)
        case Leave => Result(o.p, own, 1, Upgraded)
        case Stop => Result(o.p, own, 0, Failed)
        case Reexecute => RunHere(answersOne, o.p, data).After(own, 0)
  {
    hide Switch;
    var o := Switch(answersOne, p, data[0]);
    if o.flow == Reexecute {
      var r := Settle(answersOne, o.p, data[0]);
      if r.exit == Running {
        AfterAfter(Run(answersOne, r.p, data[1..]), Own(p, o, data[0]), 0, r.atoms, 1);
      }
    }
  }
}
