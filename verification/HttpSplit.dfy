/** What does not depend on how the input is cut up: the fields, and the calls of the
    callbacks once adjacent data of one kind is merged and empty data is dropped. */
module HttpSplit {
  import opened HttpTypes
  import opened HttpSwitch
  import opened HttpRun
  import opened HttpParser
  import HttpUpgrade

  // ---------------------------------------------------------------- runs

  lemma {:induction false} RunConcat(answersOne: Parser -> bool, p: Parser, a: string, b: string)
    ensures var r := Run(answersOne, p, a);
      && (r.exit == Running ==> r.used == |a|)
      && Run(answersOne, p, a + b)
         == if r.exit == Running then Run(answersOne, r.p, b).After(r.atoms, |a|) else r
    decreases |a|
  {
    hide Step;
    if p.errno == OK {
      if a == [] {
        assert a + b == b;
      } else {
        RunCons(answersOne, p, a);
        RunCons(answersOne, p, a + b);
        assert (a + b)[1..] == a[1..] + b;
        var r := Step(answersOne, p, a[0]);
        if r.exit == Running {
          RunConcat(answersOne, r.p, a[1..], b);
          var r1 := Run(answersOne, r.p, a[1..]);
          if r1.exit == Running {
            AfterAfter(Run(answersOne, r1.p, b), r.atoms, 1, r1.atoms, |a| - 1);
          }
        }
      }
    }
  }

  function Join(pieces: seq<string>): string {
    if pieces == [] then "" else pieces[0] + Join(pieces[1..])
  }

  /** One call per piece, for as long as the calls ask for more. */
  function Feed(answersOne: Parser -> bool, p: Parser, pieces: seq<string>): Result
    decreases |pieces|
  {
    if pieces == [] then Run(answersOne, p, "")
    else
      var r := Run(answersOne, p, pieces[0]);
      if r.exit == Running then Feed(answersOne, r.p, pieces[1..]).After(r.atoms, r.used) else r
  }

  /** Split invariance: error and upgrade exits included, with the bytes consumed. */
  lemma {:induction false} SplitInvariance(answersOne: Parser -> bool, p: Parser, pieces: seq<string>)
    ensures Feed(answersOne, p, pieces) == Run(answersOne, p, Join(pieces))
    decreases |pieces|
  {
    hide Run;
    if pieces != [] {
      RunConcat(answersOne, p, pieces[0], Join(pieces[1..]));
      var r := Run(answersOne, p, pieces[0]);
      if r.exit == Running {
        SplitInvariance(answersOne, r.p, pieces[1..]);
      }
    }
  }

  /** The same for the buffered loop: one call for each piece, until there is an error or the parser
      has left HTTP, which its caller sees by `upgrade`, if that was not set before. */
  method ExecutePieces(c: Connection, pieces: seq<string>) returns (used: nat)
    requires c.Valid() && forall s | s in pieces :: s != []
    modifies c
    ensures c.Valid()
    ensures var r := Run(c.answersOne, old(c.p), Join(pieces));
      !old(c.p).upgrade || r.exit != Upgraded ==>
        && c.p == r.p && used == r.used && (!old(c.p).upgrade ==> (r.exit == Upgraded <==> c.p.upgrade))
        && if r.exit == Failed then Flatten(c.log) <= Flatten(old(c.log)) + r.atoms
           else Flatten(c.log) == Flatten(old(c.log)) + r.atoms
  {
    hide Flatten, Run, Inv, Fed;
    var clear := !c.p.upgrade;
    ghost var all := Run(c.answersOne, c.p, Join(pieces));
    ghost var before := Flatten(c.log);
    ghost var seen := Result(c.p, [], 0, if c.p.errno == OK then Running else Failed);
    assert pieces[0..] == pieces;
    FedStart(c.answersOne, clear, c.p, c.log, Join(pieces));
    used := 0;
    var i := 0;
    while i < |pieces| && c.p.errno == OK && !(clear && c.p.upgrade)
      invariant i <= |pieces| && c.Valid() && (seen.exit != Upgraded || clear ==> used == seen.used)
      invariant Fed(c.answersOne, clear, all, before, c.p, c.log, seen, Join(pieces[i..]))
    {
      assert pieces[i] in pieces && Join(pieces[i..]) == pieces[i] + Join(pieces[i + 1..]) by {
        assert pieces[i..][1..] == pieces[i + 1..];
      }
      ghost var p0, log0 := c.p, c.log;
      var n := c.Execute(pieces[i]);
      seen := FedStep(c.answersOne, clear, all, before, p0, log0, seen, pieces[i], Join(pieces[i + 1..]), c.p, c.log);
      used := used + n;
      i := i + 1;
    }
    assert i == |pieces| ==> Join(pieces[i..]) == "";
    FedEnd(c.answersOne, clear, all, before, c.p, c.log, seen, Join(pieces[i..]));
  }

  /** Where a connection is in a run that has seen some pieces, and has `rest` to come; `clear` says
      that `upgrade` was not set at the start. */
  ghost predicate Fed(answersOne: Parser -> bool, clear: bool, all: Result, before: seq<Atom>, p: Parser,
                      log: seq<Event>, seen: Result, rest: string)
  {
    match seen.exit
    case Running =>
      p.errno == OK && (clear ==> !p.upgrade) && all == Run(answersOne, p, rest).After(seen.atoms, seen.used)
      && Flatten(log) == before + seen.atoms
    case Failed =>
      all == seen && p == all.p && p.errno != OK && (clear ==> !p.upgrade) && Flatten(log) <= before + all.atoms
    case Upgraded =>
      all.exit == Upgraded
      && (clear ==> all == seen && p == all.p && p.upgrade && Flatten(log) == before + all.atoms)
  }

  lemma FedStart(answersOne: Parser -> bool, clear: bool, p: Parser, log: seq<Event>, data: string)
    requires clear == !p.upgrade
    ensures Fed(answersOne, clear, Run(answersOne, p, data), Flatten(log), p, log,
                Result(p, [], 0, if p.errno == OK then Running else Failed), data)
  {
    hide Flatten;
    assert Flatten(log) + [] == Flatten(log);
    var r := Run(answersOne, p, data);
    assert [] + r.atoms == r.atoms;
  }

  lemma FedStep(answersOne: Parser -> bool, clear: bool, all: Result, before: seq<Atom>, p: Parser, log: seq<Event>,
                seen: Result, piece: string, rest: string, p': Parser, log': seq<Event>)
    returns (seen': Result)
    requires Inv(p) && p.errno == OK && !(clear && p.upgrade)
    requires Fed(answersOne, clear, all, before, p, log, seen, piece + rest)
    requires var r := Run(answersOne, p, piece);
      p' == r.p && if r.exit == Failed then Flatten(log') <= Flatten(log) + r.atoms
                   else Flatten(log') == Flatten(log) + r.atoms
    ensures Fed(answersOne, clear, all, before, p', log', seen', rest)
    ensures seen.exit == Upgraded ==> seen'.exit == Upgraded && !clear
    ensures seen.exit != Upgraded ==> seen'.used == seen.used + Run(answersOne, p, piece).used
  {
    hide Run, Flatten, Inv;
    if seen.exit == Upgraded {
      seen' := seen;
    } else {
      var r := Run(answersOne, p, piece);
      PieceStep(answersOne, p, piece, rest, seen.atoms, seen.used);
      if clear { HttpUpgrade.RunShows(answersOne, p, piece); }
      RunExit(answersOne, p, piece);
      RunConcat(answersOne, p, piece, "");
      seen' := r.After(seen.atoms, seen.used);
    }
  }

  lemma FedEnd(answersOne: Parser -> bool, clear: bool, all: Result, before: seq<Atom>, p: Parser, log: seq<Event>,
               seen: Result, rest: string)
    requires Fed(answersOne, clear, all, before, p, log, seen, rest)
    requires rest == "" || p.errno != OK || (clear && p.upgrade)
    ensures clear || all.exit != Upgraded ==>
      && all.p == p && all.used == seen.used && (clear ==> (all.exit == Upgraded <==> p.upgrade))
      && if all.exit == Failed then Flatten(log) <= before + all.atoms else Flatten(log) == before + all.atoms
    ensures seen.exit == Upgraded ==> all.exit == Upgraded
  {
    hide Flatten;
    if seen.exit == Running {
      RunNothing(answersOne, p);
      assert seen.atoms + [] == seen.atoms;
    }
  }

  lemma PieceStep(answersOne: Parser -> bool, p: Parser, piece: string, rest: string, acc: seq<Atom>, n: nat)
    requires Inv(p)
    ensures var all := Run(answersOne, p, piece + rest).After(acc, n);
      var r := Run(answersOne, p, piece);
      if r.exit == Running then
        r.p.errno == OK && all == Run(answersOne, r.p, rest).After(acc + r.atoms, n + |piece|)
      else
        all == r.After(acc, n) && (r.exit == Failed ==> r.p.errno != OK)
  {
    hide Run, Inv;
    RunConcat(answersOne, p, piece, rest);
    RunExit(answersOne, p, piece);
    var r := Run(answersOne, p, piece);
    if r.exit == Running {
      AfterAfter(Run(answersOne, r.p, rest), acc, n, r.atoms, |piece|);
    }
  }

  lemma RunNothing(answersOne: Parser -> bool, p: Parser)
    requires p.errno == OK
    ensures Run(answersOne, p, "") == Result(p, [], 0, Running)
  {
  }

  /** Errors, and only errors, are left in the error field. */
  lemma {:induction false} RunExit(answersOne: Parser -> bool, p: Parser, data: string)
    requires p.errno == OK ==> Inv(p)
    ensures var r := Run(answersOne, p, data);
            (r.exit == Failed <==> r.p.errno != OK) && (r.p.errno == OK ==> Inv(r.p))
    decreases |data|
  {
    hide Settle, Inv, Entry;
    if p.errno == OK && data != [] {
      var q := Counted(p);
      if !Overflows(p) {
        CountedEnters(p);
        SettleKeeps(answersOne, q, data[0]);
        InvIsOk(Settle(answersOne, q, data[0]).p);
      }
      var r := Step(answersOne, p, data[0]);
      if r.exit == Running {
        RunExit(answersOne, r.p, data[1..]);
      }
    }
  }

  lemma InvIsOk(p: Parser)
    ensures Inv(p) ==> p.errno == OK
  {
  }

  // ---------------------------------------------------------------- merged events

  /** One more event on a merged list. */
  function Add(es: seq<Event>, e: Event): seq<Event> {
    match e
    case Notify(_) => es + [e]
    case Data(k, s) =>
      if s == [] then es
      else if es != [] && es[|es| - 1].Data? && es[|es| - 1].kind == k then
        es[..|es| - 1] + [Data(k, es[|es| - 1].bytes + s)]
      else es + [e]
  }

  /** Adjacent data of one kind joined, empty data dropped. */
  function Merge(es: seq<Event>): seq<Event> {
    if es == [] then [] else Add(Merge(es[..|es| - 1]), es[|es| - 1])
  }

  function AsEvent(a: Atom): Event {
    match a case Byte(k, ch) => Data(k, [ch]) case Signal(n) => Notify(n)
  }

  function Grouped(atoms: seq<Atom>): seq<Event> {
    if atoms == [] then [] else Add(Grouped(atoms[..|atoms| - 1]), AsEvent(atoms[|atoms| - 1]))
  }

  lemma FlattenAdd(es: seq<Event>, e: Event)
    ensures Flatten(Add(es, e)) == Flatten(es) + Atoms(e)
  {
    hide Flatten, BytesOf;
    if e.Data? && e.bytes == [] {
      assert Atoms(e) == [];
    } else if e.Data? && es != [] && es[|es| - 1].Data? && es[|es| - 1].kind == e.kind {
      var init, last := es[..|es| - 1], es[|es| - 1];
      assert es == init + [last];
      FlattenSnoc(init, last);
      FlattenSnoc(init, Data(e.kind, last.bytes + e.bytes));
      BytesOfConcat(e.kind, last.bytes, e.bytes);
    } else {
      FlattenSnoc(es, e);
    }
  }

  lemma BytesOfConcat(k: DataKind, s: string, t: string)
    ensures BytesOf(k, s + t) == BytesOf(k, s) + BytesOf(k, t)
  {
  }

  lemma {:induction false} FlattenMerge(es: seq<Event>)
    ensures Flatten(Merge(es)) == Flatten(es)
  {
    if es != [] {
      var init := es[..|es| - 1];
      FlattenMerge(init);
      FlattenAdd(Merge(init), es[|es| - 1]);
    }
  }

  lemma GroupedSnoc(atoms: seq<Atom>, a: Atom)
    ensures Grouped(atoms + [a]) == Add(Grouped(atoms), AsEvent(a))
  {
    assert (atoms + [a])[..|atoms|] == atoms;
  }

  /** A data event is added at once or byte by byte. */
  lemma {:induction false} GroupedData(atoms: seq<Atom>, k: DataKind, s: string)
    ensures Grouped(atoms + BytesOf(k, s)) == Add(Grouped(atoms), Data(k, s))
    decreases |s|
  {
    if s == [] {
      assert atoms + BytesOf(k, s) == atoms;
    } else {
      hide Grouped, Add, BytesOf;
      var init, last := s[..|s| - 1], s[|s| - 1];
      GroupedData(atoms, k, init);
      assert s == init + [last];
      OneMoreByte(atoms, k, init, last);
      GroupedSnoc(atoms + BytesOf(k, init), Byte(k, last));
      AddTwice(Grouped(atoms), k, init, [last]);
    }
  }

  lemma OneMoreByte(atoms: seq<Atom>, k: DataKind, s: string, ch: char)
    ensures atoms + BytesOf(k, s + [ch]) == (atoms + BytesOf(k, s)) + [Byte(k, ch)]
  {
    BytesOfConcat(k, s, [ch]);
    assert BytesOf(k, [ch]) == [Byte(k, ch)];
  }

  lemma AddTwice(es: seq<Event>, k: DataKind, s: string, t: string)
    ensures Add(Add(es, Data(k, s)), Data(k, t)) == Add(es, Data(k, s + t))
  {
    if s == [] {
      assert s + t == t;
    } else if t == [] {
      assert s + t == s;
    } else if es != [] && es[|es| - 1].Data? && es[|es| - 1].kind == k {
      assert es[|es| - 1].bytes + s + t == es[|es| - 1].bytes + (s + t);
    }
  }

  lemma {:induction false} MergeIsGrouped(es: seq<Event>)
    ensures Merge(es) == Grouped(Flatten(es))
  {
    if es != [] {
      var init, last := es[..|es| - 1], es[|es| - 1];
      MergeIsGrouped(init);
      match last
      case Data(k, s) => GroupedData(Flatten(init), k, s);
      case Notify(n) => GroupedSnoc(Flatten(init), Signal(n));
    }
  }

  /** Two logs merge to the same list exactly when they say the same byte by byte. */
  lemma MergedEqually(a: seq<Event>, b: seq<Event>)
    ensures Merge(a) == Merge(b) <==> Flatten(a) == Flatten(b)
  {
    MergeIsGrouped(a);
    MergeIsGrouped(b);
    FlattenMerge(a);
    FlattenMerge(b);
  }

  // ---------------------------------------------------------------- the source's assertions

  /** The assertions the source makes on entry to an arm of the switch, with the bounds of
      the tables and literals it indexes there. */
  ghost predicate AssertsHold(p: Parser) {
    && p.errno == OK
    && match p.state
       case ReqMethod => p.index <= |p.verb.Name()|
       case HeaderField =>
         && p.headerState in {General, C, CO, CON, MatchingConnection, MatchingProxyConnection,
                              MatchingContentLength, MatchingTransferEncoding, MatchingUpgrade,
                              Connection, ContentLength, TransferEncoding, Upgrade}
         && (p.headerState !in {General, Connection, ContentLength, TransferEncoding, Upgrade} ==> p.index + 1 < 256)
       case HeaderValue =>
         && p.headerState != Connection && p.headerState != TransferEncoding
         && (p.headerState in {MatchingChunked, MatchingKeepAlive, MatchingClose} ==> p.index + 1 < 256)
       case BodyIdentity => p.contentLength != 0 && p.contentLength != U64_MAX
       case ChunkSizeStart => p.nread == 1 && p.flags.chunked
       case ChunkSize | ChunkParameters | ChunkSizeAlmostDone | ChunkDataDone => p.flags.chunked
       case ChunkData => p.flags.chunked && p.contentLength != 0 && p.contentLength != U64_MAX
       case ChunkDataAlmostDone => p.flags.chunked && p.contentLength == 0
       case _ => true
  }

  ghost predicate SafeByte(answersOne: Parser -> bool, p: Parser, ch: char)
    decreases Rank(p.state)
  {
    ReexecutionDescends(answersOne, p, ch);
    var o := Switch(answersOne, p, ch);
    AssertsHold(p) && (o.flow == Reexecute ==> SafeByte(answersOne, o.p, ch))
  }

  /** Every entry to the switch, over a whole run. */
  ghost predicate SafeRun(answersOne: Parser -> bool, p: Parser, data: string)
    decreases |data|
  {
    p.errno == OK && data != [] && !Overflows(p) ==>
      && SafeByte(answersOne, Counted(p), data[0])
      && (Step(answersOne, p, data[0]).exit == Running ==>
            SafeRun(answersOne, Step(answersOne, p, data[0]).p, data[1..]))
  }

  lemma EntryAsserts(p: Parser)
    requires Entry(p)
    ensures AssertsHold(p)
  {
    NameLengths(p.verb);
  }

  lemma {:induction false} ByteIsSafe(answersOne: Parser -> bool, p: Parser, ch: char)
    requires Entry(p)
    ensures SafeByte(answersOne, p, ch)
    decreases Rank(p.state)
  {
    hide Switch, Entry, AssertsHold;
    EntryAsserts(p);
    SwitchKeeps(answersOne, p, ch);
    ReexecutionDescends(answersOne, p, ch);
    var o := Switch(answersOne, p, ch);
    if o.flow == Reexecute {
      ByteIsSafe(answersOne, o.p, ch);
    }
  }

  /** No assertion fires, on any input, from any state the parser can be in. */
  lemma {:induction false} RunIsSafe(answersOne: Parser -> bool, p: Parser, data: string)
    requires Inv(p)
    ensures SafeRun(answersOne, p, data)
    decreases |data|
  {
    hide Settle, Entry, Inv, SafeByte;
    if data != [] && !Overflows(p) {
      CountedEnters(p);
      ByteIsSafe(answersOne, Counted(p), data[0]);
      SettleKeeps(answersOne, Counted(p), data[0]);
      var r := Step(answersOne, p, data[0]);
      if r.exit == Running {
        RunIsSafe(answersOne, r.p, data[1..]);
      }
    }
  }

  /** In particular from http_parser_init on. */
  lemma InitIsSafe(answersOne: Parser -> bool, k: Kind, data: string)
    ensures Inv(Init(k)) && SafeRun(answersOne, Init(k), data)
  {
    RunIsSafe(answersOne, Init(k), data);
  }
}
