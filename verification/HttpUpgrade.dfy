/** How a caller of `http_parser_execute` sees that the connection has left HTTP: the field `upgrade`
    (base/http_parser.cc:1792-1793, 1837-1842). */
module HttpUpgrade {
  import opened HttpTypes
  import opened HttpSwitch
  import opened HttpRun

  /** A step that has nothing to do with upgrades. */
  predicate KeepsOn(p: Parser, o: Outcome) {
    o.p.upgrade == p.upgrade && o.flow != Leave && (o.flow == Reexecute ==> !o.p.state.HeadersDone?)
  }

  lemma LineKeepsOn(p: Parser, ch: char)
    ensures ArmOf(p.state) == StartArm ==> KeepsOn(p, StartByte(p, ch))
    ensures ArmOf(p.state) == MethodArm ==> KeepsOn(p, MethodByte(p, ch))
    ensures ArmOf(p.state) == StatusArm ==> KeepsOn(p, StatusByte(p, ch))
  {
    hide HttpTypes.Method.Name, Lower;
  }

  lemma VersionKeepsOn(p: Parser, ch: char)
    ensures ArmOf(p.state) == ReqVersionArm ==> KeepsOn(p, ReqVersionByte(p, ch))
    ensures ArmOf(p.state) == ResVersionArm ==> KeepsOn(p, ResVersionByte(p, ch))
  {
  }

  lemma UrlKeepsOn(p: Parser, ch: char)
    ensures ArmOf(p.state) == UrlArm ==> KeepsOn(p, UrlByte(p, ch))
  {
    hide ParseUrlChar;
  }

  lemma FieldKeepsOn(p: Parser, ch: char)
    ensures ArmOf(p.state) == FieldStartArm ==> KeepsOn(p, FieldStartByte(p, ch))
    ensures ArmOf(p.state) == FieldArm ==> KeepsOn(p, FieldByte(p, ch))
  {
    hide HttpTypes.Word.Spelling, Token;
  }

  lemma ValueKeepsOn(p: Parser, ch: char)
    ensures ArmOf(p.state) == ValueStartArm ==> KeepsOn(p, ValueStartByte(p, ch))
    ensures ArmOf(p.state) == ValueArm ==> KeepsOn(p, ValueByte(p, ch))
    ensures ArmOf(p.state) == HeaderEndArm ==> KeepsOn(p, HeaderEndByte(p, ch))
  {
    hide HttpTypes.Word.Spelling, Lower;
  }

  lemma BodyKeepsOn(p: Parser, ch: char)
    ensures ArmOf(p.state) == BodyArm ==> KeepsOn(p, BodyByte(p))
    ensures ArmOf(p.state) == ChunkArm ==> KeepsOn(p, ChunkByte(p, ch))
  {
  }

  lemma SwitchKeepsOn(answersOne: Parser -> bool, p: Parser, ch: char)
    requires !p.state.HeadersAlmostDone? && !p.state.HeadersDone?
    ensures KeepsOn(p, Switch(answersOne, p, ch))
  {
    hide KeepsOn, StartByte, MethodByte, UrlByte, ReqVersionByte, ResVersionByte, StatusByte, FieldStartByte,
         FieldByte, ValueStartByte, ValueByte, HeaderEndByte, BodyByte, ChunkByte;
    match ArmOf(p.state)
    case StartArm | MethodArm | StatusArm => LineKeepsOn(p, ch);
    case ReqVersionArm | ResVersionArm => VersionKeepsOn(p, ch);
    case UrlArm => UrlKeepsOn(p, ch);
    case FieldStartArm | FieldArm => FieldKeepsOn(p, ch);
    case ValueStartArm | ValueArm | HeaderEndArm => ValueKeepsOn(p, ch);
    case BodyArm | ChunkArm => BodyKeepsOn(p, ch);
    case MessageDoneArm => ToldKeepsOn(p);
    case HeadersAlmostDoneArm | HeadersDoneArm => assert false;
  }

  lemma ToldKeepsOn(p: Parser)
    ensures KeepsOn(p, Tell(p.(state := NewMessage(p)), MessageComplete))
  {}

  /** Where headers end, `upgrade` is set, and looked at with the same byte. */
  lemma EndSets(answersOne: Parser -> bool, p: Parser, ch: char)
    requires p.state.HeadersAlmostDone? && !p.upgrade
    ensures var o := Switch(answersOne, p, ch);
      && o.flow != Leave && (o.flow != Reexecute ==> !o.p.upgrade)
      && (o.flow == Reexecute ==> o.p.state.HeadersDone? && ch == LF)
  {}

  lemma DoneLeaves(answersOne: Parser -> bool, p: Parser)
    requires p.state.HeadersDone?
    ensures var o := Switch(answersOne, p, LF);
      o.p.upgrade == p.upgrade && (o.flow == Leave <==> p.upgrade) && o.flow != Reexecute && o.flow != Stop
  {}

  lemma {:induction false} SettleShows(answersOne: Parser -> bool, p: Parser, ch: char)
    requires if p.state.HeadersDone? then ch == LF else !p.upgrade
    ensures var r := Settle(answersOne, p, ch); r.exit == Upgraded <==> r.p.upgrade
    decreases Rank(p.state)
  {
    hide Switch;
    ReexecutionDescends(answersOne, p, ch);
    if p.state.HeadersDone? {
      DoneLeaves(answersOne, p);
    } else if p.state.HeadersAlmostDone? {
      EndSets(answersOne, p, ch);
    } else {
      SwitchKeepsOn(answersOne, p, ch);
    }
    var o := Switch(answersOne, p, ch);
    if o.flow == Reexecute { SettleShows(answersOne, o.p, ch); }
  }

  /** A run ends with the exit for upgrades exactly if it leaves `upgrade` set. */
  lemma {:induction false} RunShows(answersOne: Parser -> bool, p: Parser, data: string)
    requires !p.upgrade && (p.errno == OK ==> Inv(p))
    ensures var r := Run(answersOne, p, data); r.exit == Upgraded <==> r.p.upgrade
    decreases |data|
  {
    hide Settle, Inv;
    if p.errno == OK && data != [] {
      assert !p.state.HeadersDone? by { NoneDone(p); }
      var r := Step(answersOne, p, data[0]);
      if !Overflows(p) {
        SettleShows(answersOne, Counted(p), data[0]);
        CountedEnters(p);
        SettleKeeps(answersOne, Counted(p), data[0]);
      }
      if r.exit == Running { RunShows(answersOne, r.p, data[1..]); }
    }
  }

  lemma NoneDone(p: Parser)
    requires Inv(p)
    ensures !p.state.HeadersDone?
  {}
}
