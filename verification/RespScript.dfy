/** Any interleaving of feeding the reader and asking it for replies. */
module RespScript {
  import opened Options
  import opened Resp
  import opened RespWire
  import RespReader

  datatype Op = Feed(data: string) | Get

  /** What the client of a reader has got so far. */
  datatype Seen = Seen(replies: seq<Reply>, flaw: Option<Flaw>, pending: string)

  const NOTHING := Seen([], None, "")

  function Apply(st: Seen, op: Op): Seen {
    if st.flaw.Some? then st
    else
      match op
      case Feed(data) => st.(pending := st.pending + data)
      case Get =>
        match ReadItem(st.pending, 0)
        case Done(x, rest) => Seen(st.replies + [x], None, rest)
        case Need => st
        case Fail(e) => st.(flaw := Some(e))
  }

  function Play(st: Seen, ops: seq<Op>): Seen
    decreases |ops|
  {
    if ops == [] then st else Play(Apply(st, ops[0]), ops[1..])
  }

  function Fed(ops: seq<Op>): string {
    if ops == [] then "" else (if ops[0].Feed? then ops[0].data else "") + Fed(ops[1..])
  }

  /** A parse of the whole text: replies until the text is used up, cut short, or wrong. */
  function Drain(s: string): Seen
    decreases |s|
  {
    match ReadItem(s, 0)
    case Need => Seen([], None, s)
    case Fail(e) => Seen([], Some(e), s)
    case Done(x, rest) => Then(x, Drain(rest))
  }

  function Then(x: Reply, d: Seen): Seen { Seen([x] + d.replies, d.flaw, d.pending) }

  /** What `st` comes to if nothing more is fed. */
  function Complete(st: Seen): (seq<Reply>, Option<Flaw>) {
    if st.flaw.Some? then (st.replies, st.flaw)
    else var d := Drain(st.pending); (st.replies + d.replies, d.flaw)
  }

  lemma {:induction false} StuckStays(st: Seen, ops: seq<Op>)
    requires st.flaw.Some?
    ensures Play(st, ops) == st
    decreases |ops|
  {
    if ops != [] { StuckStays(st, ops[1..]); }
  }

  lemma DrainOne(s: string, t: string)
    ensures var o := ReadItem(s, 0);
      && (o.Fail? ==> Drain(s + t).replies == [] && Drain(s + t).flaw == Some(o.flaw))
      && (o.Done? ==> Drain(s + t) == Then(o.value, Drain(o.rest + t)))
  {
    hide ReadItem;
    ReadItemMore(s, t, 0);
  }

  /** However a text is cut up and whenever replies are asked for: what has come and what is
      still to come is what one parse of the whole text gives. */
  lemma {:induction false} PlayIsDrain(st: Seen, ops: seq<Op>)
    requires st.flaw == None
    ensures var d := Drain(st.pending + Fed(ops));
            Complete(Play(st, ops)) == (st.replies + d.replies, d.flaw)
    decreases |ops|
  {
    hide ReadItem, Drain;
    if ops == [] {
      assert st.pending + "" == st.pending;
    } else {
      var more := Fed(ops[1..]);
      match ops[0]
      case Feed(data) =>
        PlayIsDrain(Apply(st, ops[0]), ops[1..]);
        assert st.pending + data + more == st.pending + (data + more);
      case Get =>
        assert Fed(ops) == more;
        DrainOne(st.pending, more);
        var next := Apply(st, Get);
        if next.flaw.Some? {
          StuckStays(next, ops[1..]);
          assert st.replies + [] == st.replies;
        } else {
          PlayIsDrain(next, ops[1..]);
          if next != st {
            var x := next.replies[|st.replies|];
            assert next.replies == st.replies + [x];
            var rs := Drain(next.pending + more).replies;
            assert st.replies + [x] + rs == st.replies + ([x] + rs);
          }
        }
    }
  }

  /** Never a wrong reply, and an error only where the text has one, after all replies before it. */
  lemma NeverMore(ops: seq<Op>)
    ensures var r, d := Play(NOTHING, ops), Drain(Fed(ops));
      && r.replies <= d.replies
      && (r.flaw.Some? ==> r.replies == d.replies && r.flaw == d.flaw)
  {
    hide Play, Drain, Fed;
    PlayIsDrain(NOTHING, ops);
    assert "" + Fed(ops) == Fed(ops);
    assert [] + Drain(Fed(ops)).replies == Drain(Fed(ops)).replies;
  }

  function Gets(n: nat): seq<Op> { seq(n, _ => Get) }

  lemma {:induction false} AskedOften(st: Seen, n: nat)
    requires n > |Complete(st).0| - |st.replies|
    ensures var r := Play(st, Gets(n)); (r.replies, r.flaw) == Complete(st)
    decreases n
  {
    hide ReadItem;
    if st.flaw.Some? {
      StuckStays(st, Gets(n));
    } else {
      assert Gets(n)[1..] == Gets(n - 1) && Gets(n)[0] == Get;
      var next := Apply(st, Get);
      var o := ReadItem(st.pending, 0);
      assert st.replies + [] == st.replies;
      if o.Done? {
        var rs := Drain(o.rest).replies;
        assert st.replies + [o.value] + rs == st.replies + ([o.value] + rs);
        AskedOften(next, n - 1);
      } else if o.Need? {
        NeedStays(st, Gets(n));
      } else {
        StuckStays(next, Gets(n - 1));
      }
    }
  }

  lemma {:induction false} NeedStays(st: Seen, ops: seq<Op>)
    requires st.flaw == None && ReadItem(st.pending, 0) == Need && forall op :: op in ops ==> op == Get
    ensures Play(st, ops) == st
    decreases |ops|
  {
    if ops != [] {
      assert ops[0] in ops;
      forall op | op in ops[1..]
        ensures op == Get
      {
        assert op in ops;
      }
      NeedStays(st, ops[1..]);
    }
  }

  lemma {:induction false} PlayConcat(st: Seen, a: seq<Op>, b: seq<Op>)
    ensures Play(st, a + b) == Play(Play(st, a), b)
    decreases |a|
  {
    hide Apply;
    if a == [] {
      assert a + b == b;
    } else {
      assert (a + b)[1..] == a[1..] + b;
      PlayConcat(Apply(st, a[0]), a[1..], b);
    }
  }

  /** Split invariance: once asked often enough, a reader has given everything, and only the
      bytes it was fed matter. */
  lemma OnlyTheBytesMatter(ops: seq<Op>, n: nat)
    requires n > |Drain(Fed(ops)).replies|
    ensures var r, d := Play(NOTHING, ops + Gets(n)), Drain(Fed(ops));
            r.replies == d.replies && r.flaw == d.flaw
  {
    hide Play, Drain, Fed;
    PlayIsDrain(NOTHING, ops);
    assert "" + Fed(ops) == Fed(ops);
    assert [] + Drain(Fed(ops)).replies == Drain(Fed(ops)).replies;
    PlayConcat(NOTHING, ops, Gets(n));
    AskedOften(Play(NOTHING, ops), n);
  }

  /** A stream of replies comes back, however they are written, and stops at the first that is nested too deeply. */
  lemma {:induction false} StreamBack(ws: seq<Wire>)
    requires forall w :: w in ws ==> IsWire(w)
    ensures (forall w :: w in ws ==> Flat(w, 0)) ==> Drain(WireTexts(ws)) == Seen(WireValues(ws), None, "")
    ensures (exists w :: w in ws && !Flat(w, 0)) ==> Drain(WireTexts(ws)).flaw == Some(TooDeep)
    decreases |ws|
  {
    hide ReadItem, WireText, IsWire, Flat, WireValue;
    if ws == [] {
      assert ReadItem("", 0) == Need by { EmptyNeeds(); }
    } else {
      WireRead(ws[0], WireTexts(ws[1..]), 0);
      StreamBack(ws[1..]);
      assert ws == [ws[0]] + ws[1..];
    }
  }

  lemma EmptyNeeds()
    ensures ReadItem("", 0) == Need
  {
  }

  /** A real reader, driven by a script. */
  method Drive(ops: seq<Op>) returns (replies: seq<Reply>, flaw: Option<Flaw>)
    ensures (replies, flaw) == (Play(NOTHING, ops).replies, Play(NOTHING, ops).flaw)
  {
    var reader := new RespReader.Reader();
    replies := [];
    assert ops[..0] == [];
    for i := 0 to |ops|
      invariant reader.Valid() && fresh(reader) && fresh(reader.rstack)
      invariant Play(NOTHING, ops[..i]) == Seen(replies, reader.err, reader.pending)
    {
      PlayConcat(NOTHING, ops[..i], [ops[i]]);
      assert ops[..i] + [ops[i]] == ops[..i + 1];
      PlayOne(Play(NOTHING, ops[..i]), ops[i]);
      match ops[i] {
        case Feed(data) =>
          var _ := reader.Feed(data);
        case Get =>
          var ok, r := reader.GetReply();
          if r.Some? { replies := replies + [r.value]; }
      }
    }
    assert ops[..|ops|] == ops;
    flaw := reader.err;
  }

  lemma PlayOne(st: Seen, op: Op)
    ensures Play(st, [op]) == Apply(st, op)
  {
    hide Apply;
  }
}
