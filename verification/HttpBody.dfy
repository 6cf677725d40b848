/** The end of the headers, and bodies: how long they are and what is delivered. */
module HttpBody {
  import opened Options
  import opened HttpTypes
  import opened HttpSwitch
  import opened HttpRun
  import opened HttpParser
  import opened HttpSplit
  import opened HttpGoes

  // ---------------------------------------------------------------- framing

  /** What follows the headers. */
  datatype Framing = Handover | NoBody | InChunks | OfLength(n: nat) | UntilEof

  function FramingOf(p: Parser): Framing {
    if p.upgrade then Handover
    else if p.flags.skipBody then NoBody
    else if p.flags.chunked then InChunks
    else if p.contentLength == 0 then NoBody
    else if p.contentLength != U64_MAX then OfLength(p.contentLength)
    else if NeedsEof(p) then UntilEof
    else NoBody
  }

  /** The fields after on_headers_complete has answered. */
  function HeadersSeen(answersOne: Parser -> bool, p: Parser): Parser {
    var q := p.(state := HeadersDone, upgrade := p.flags.upgrade || p.verb == CONNECT);
    (if answersOne(q) then q.(flags := q.flags.(skipBody := true)) else q).(nread := 0)
  }

  const TOLD: seq<Atom> := [Signal(HeadersComplete)]
  const TOLD_ALL: seq<Atom> := [Signal(HeadersComplete), Signal(MessageComplete)]

  /** The line feed that ends the headers. */
  lemma HeadersEnd(answersOne: Parser -> bool, p: Parser, rest: string)
    requires p.state.HeadersAlmostDone? && !p.flags.trailing && Room(p, 1)
    ensures var e := HeadersSeen(answersOne, Read(p, 1));
            Run(answersOne, p, [LF] + rest) ==
              match FramingOf(e)
              case Handover => Result(e.(state := NewMessage(e)), TOLD_ALL, 1, Upgraded)
              case NoBody => Run(answersOne, e.(state := NewMessage(e)), rest).After(TOLD_ALL, 1)
              case InChunks => Run(answersOne, e.(state := ChunkSizeStart), rest).After(TOLD, 1)
              case OfLength(_) => Run(answersOne, e.(state := BodyIdentity), rest).After(TOLD, 1)
              case UntilEof => Run(answersOne, e.(state := BodyIdentityEof), rest).After(TOLD, 1)
  {
    hide Switch, Run, Settle, FramingOf, HeadersSeen, NewMessage;
    var q := Read(p, 1);
    assert ([LF] + rest)[0] == LF && ([LF] + rest)[1..] == rest;
    RunCons(answersOne, p, [LF] + rest);
    var o := HeadersAnswered(answersOne, q);
    SettleCons(answersOne, q, LF);
    HeadersDoneSettles(answersOne, o.p);
    assert TOLD + NO_ATOMS == TOLD && TOLD + [Signal(MessageComplete)] == TOLD_ALL;
  }

  lemma HeadersAnswered(answersOne: Parser -> bool, p: Parser) returns (o: Outcome)
    requires p.state.HeadersAlmostDone? && !p.flags.trailing
    ensures o == Switch(answersOne, p, LF) && o.flow == Reexecute && Own(p, o, LF) == TOLD
    ensures o.p.state.HeadersDone? && o.p.(nread := 0) == HeadersSeen(answersOne, p)
  {
    hide Switch;
    Dispatch(answersOne, p, LF);
    o := HeadersAlmostDoneByte(answersOne, p, LF);
  }

  lemma HeadersDoneSettles(answersOne: Parser -> bool, p: Parser)
    requires p.state.HeadersDone?
    ensures var e := p.(nread := 0);
            Settle(answersOne, p, LF) ==
              match FramingOf(e)
              case Handover => Result(e.(state := NewMessage(e)), [Signal(MessageComplete)], 1, Upgraded)
              case NoBody => Result(e.(state := NewMessage(e)), [Signal(MessageComplete)], 1, Running)
              case InChunks => Result(e.(state := ChunkSizeStart), [], 1, Running)
              case OfLength(_) => Result(e.(state := BodyIdentity), [], 1, Running)
              case UntilEof => Result(e.(state := BodyIdentityEof), [], 1, Running)
  {
    hide Switch, Settle, FramingOf, HeadersDoneByte, NewMessage, MarkOf;
    SettleCons(answersOne, p, LF);
    Dispatch(answersOne, p, LF);
    HeadersDoneMeans(p);
    NoMarks(p.(nread := 0));
    assert NO_ATOMS + NO_ATOMS == NO_ATOMS && [Signal(MessageComplete)] + NO_ATOMS == [Signal(MessageComplete)];
  }

  lemma NoMarks(p: Parser)
    ensures MarkOf(NewMessage(p)) == None && MarkOf(ChunkSizeStart) == None && MarkOf(BodyIdentity) == None
            && MarkOf(BodyIdentityEof) == None
  {
  }

  lemma HeadersDoneMeans(p: Parser)
    requires p.state.HeadersDone?
    ensures var e := p.(nread := 0);
            HeadersDoneByte(p, LF) ==
              match FramingOf(e)
              case Handover => Outcome(e.(state := NewMessage(e)), None, None, Some(MessageComplete), Leave)
              case NoBody => Tell(e.(state := NewMessage(e)), MessageComplete)
              case InChunks => Go(e.(state := ChunkSizeStart))
              case OfLength(_) => Go(e.(state := BodyIdentity))
              case UntilEof => Go(e.(state := BodyIdentityEof))
  {
  }

  // ---------------------------------------------------------------- a body of known length

  lemma LengthBodyGoes(answersOne: Parser -> bool, p: Parser, body: string)
    requires p.errno == OK && p.state.BodyIdentity? && 0 < p.contentLength == |body|
    ensures var q := p.(contentLength := 0);
            Goes(answersOne, p, body, q.(state := NewMessage(q)), BytesOf(Body, body) + [Signal(MessageComplete)])
  {
    hide Settle, Run, BytesOf;
    var n := |body|;
    IdentityEnd(answersOne, p, body);
    assert body[..n] == body;
    var q := p.(contentLength := 0, state := MessageDone);
    MessageDoneSettles(answersOne, q, body[n - 1]);
    assert body[n - 1..][1..] == "" && body[n - 1..][0] == body[n - 1];
    RunNothing(answersOne, q.(state := NewMessage(q)));
    assert [Signal(MessageComplete)] + NO_ATOMS == [Signal(MessageComplete)];
  }

  lemma MessageDoneTells(answersOne: Parser -> bool, p: Parser, ch: char)
    requires p.state.MessageDone?
    ensures Switch(answersOne, p, ch) == Tell(p.(state := NewMessage(p)), MessageComplete)
  {
  }

  lemma MessageDoneSettles(answersOne: Parser -> bool, p: Parser, ch: char)
    requires p.state.MessageDone?
    ensures Settle(answersOne, p, ch) == Result(p.(state := NewMessage(p)), [Signal(MessageComplete)], 1, Running)
  {
    hide Settle, Switch, MarkOf, NewMessage;
    SettleCons(answersOne, p, ch);
    MessageDoneTells(answersOne, p, ch);
    NoMarks(p);
    assert NO_ATOMS + [Signal(MessageComplete)] == [Signal(MessageComplete)];
    assert Signals(Some(MessageComplete)) + Tail(NewMessage(p), ch) == [Signal(MessageComplete)];
  }
}
