/** The resumable reader of redis/read.c: a stack of at most nine tasks over a growing buffer.
    It is proved to be a recursive-descent parser of all the bytes it was ever fed. */
module RespReader {
  import opened Options
  import opened Integers
  import opened Resp

  // ---------------------------------------------------------------- what a stack means

  /** An array with some of its elements read. */
  datatype Frame = Frame(size: int, items: seq<Reply>)

  ghost predicate Proper(frames: seq<Frame>) {
    |frames| <= MAX_LEVEL && forall i :: 0 <= i < |frames| ==> |frames[i].items| < frames[i].size
  }

  /** The innermost array gets `r` as its next element, and reading goes on. */
  ghost function Unwind(frames: seq<Frame>, r: Reply, s: string): Outcome<Reply>
    requires Proper(frames)
    decreases |frames|
  {
    if frames == [] then Done(r, s)
    else
      var outer, f := frames[..|frames| - 1], frames[|frames| - 1];
      match ReadItems(s, f.size - |f.items| - 1, |frames|)
      case Need => Need
      case Fail(e) => Fail(e)
      case Done(rs, rest) => Unwind(outer, Array(f.items + [r] + rs), rest)
  }

  ghost function Continue(frames: seq<Frame>, o: Outcome<Reply>): Outcome<Reply>
    requires Proper(frames)
  {
    match o
    case Need => Need
    case Fail(e) => Fail(e)
    case Done(r, rest) => Unwind(frames, r, rest)
  }

  /** Between two calls, or inside: a reply is ready, or one is being read. */
  datatype Machine =
    | Ready(reply: Reply, unread: string)
    | Busy(frames: seq<Frame>, kind: Option<Kind>, unread: string)

  ghost predicate Sensible(m: Machine) { m.Busy? ==> Proper(m.frames) }

  ghost function Current(k: Option<Kind>, s: string, level: nat): Outcome<Reply>
    requires level <= MAX_LEVEL
  {
    match k
    case None => ReadItem(s, level)
    case Some(k) => ReadTyped(k, s, level)
  }

  /** What comes out in the end, if `more` is all that will still be fed. */
  ghost function Meaning(m: Machine, more: string): Outcome<Reply>
    requires Sensible(m)
  {
    match m
    case Ready(r, u) => Done(r, u + more)
    case Busy(frames, k, u) => Continue(frames, Current(k, u + more, |frames|))
  }

  ghost predicate Leads(m: Machine, n: Machine)
    requires Sensible(m) && Sensible(n)
  {
    forall more :: Meaning(m, more) == Meaning(n, more)
  }

  ghost predicate Breaks(m: Machine, e: Flaw)
    requires Sensible(m)
  {
    forall more :: Meaning(m, more) == Fail(e)
  }

  // ---------------------------------------------------------------- one item

  /** An element is finished and its array is not. */
  lemma NextElement(outer: seq<Frame>, f: Frame, r: Reply, s: string)
    requires Proper(outer + [f]) && |f.items| + 1 < f.size
    ensures Proper(outer + [Frame(f.size, f.items + [r])])
    ensures Unwind(outer + [f], r, s)
         == Continue(outer + [Frame(f.size, f.items + [r])],
                     ReadItem(s, |outer| + 1))
  {
    hide ReadItem;
    var frames, frames' := outer + [f], outer + [Frame(f.size, f.items + [r])];
    assert frames[..|outer|] == outer && frames'[..|outer|] == outer;
    var o := ReadItem(s, |outer| + 1);
    if o.Done? {
      var rs := ReadItems(o.rest, f.size - |f.items| - 2, |outer| + 1);
      if rs.Done? {
        assert f.items + [r] + ([o.value] + rs.value) == f.items + [r] + [o.value] + rs.value;
      }
    }
  }

  /** An element is finished, and its array with it. */
  lemma LastElement(outer: seq<Frame>, f: Frame, r: Reply, s: string)
    requires Proper(outer + [f]) && |f.items| + 1 == f.size
    ensures Proper(outer)
    ensures Unwind(outer + [f], r, s) == Unwind(outer, Array(f.items + [r]), s)
  {
    assert (outer + [f])[..|outer|] == outer;
    forall i | 0 <= i < |outer| ensures |outer[i].items| < outer[i].size { assert outer[i] == (outer + [f])[i]; }
    assert f.items + [r] + [] == f.items + [r];
  }

  /** An array with elements has been announced. */
  lemma Opened(frames: seq<Frame>, n: nat, s: string)
    requires Proper(frames) && |frames| < MAX_LEVEL && n > 0
    ensures Continue(frames,
                     match ReadItems(s, n, |frames| + 1)
                     case Done(es, rest) => Done(Array(es), rest)
                     case Need => Need
                     case Fail(e) => Fail(e))
         == Continue(frames + [Frame(n, [])], ReadItem(s, |frames| + 1))
  {
    hide ReadItem;
    var inner := frames + [Frame(n, [])];
    assert inner[..|frames|] == frames;
    var o := ReadItem(s, |frames| + 1);
    if o.Done? {
      var rs := ReadItems(o.rest, n - 1, |frames| + 1);
      if rs.Done? { assert [] + [o.value] + rs.value == [o.value] + rs.value; }
    }
  }

  // ---------------------------------------------------------------- steps, for all that may follow

  lemma LeadsTo(a: Machine, b: Machine, c: Machine)
    requires Sensible(a) && Sensible(b) && Sensible(c) && Leads(a, b) && Leads(b, c)
    ensures Leads(a, c)
  {
    hide Meaning;
    forall more ensures Meaning(a, more) == Meaning(c, more) { assert Meaning(a, more) == Meaning(b, more); }
  }

  lemma LeadsSelf(m: Machine)
    requires Sensible(m)
    ensures Leads(m, m)
  {
  }

  /** Without a type byte there is nothing to go on. */
  lemma NothingToRead(frames: seq<Frame>)
    requires Proper(frames)
    ensures Meaning(Busy(frames, None, ""), "") == Need
  {
  }

  /** Nor is there without a line. */
  lemma WaitsForMore(frames: seq<Frame>, k: Option<Kind>)
    requires Proper(frames) && !(|frames| == MAX_LEVEL && k == Some(MultiBulk))
    ensures Meaning(Busy(frames, k, ""), "") == Need
  {
    assert Newline("") == None;
  }

  lemma WaitingIsShallow(frames: seq<Frame>, u: string)
    requires Proper(frames) && Meaning(Busy(frames, Some(MultiBulk), u), "") == Need
    ensures |frames| < MAX_LEVEL
  {
  }

  /** More text, on both sides. */
  lemma LeadsMore(pending: string, frames: seq<Frame>, k: Option<Kind>, u: string, data: string)
    requires Proper(frames) && Leads(Busy([], None, pending), Busy(frames, k, u))
    ensures Leads(Busy([], None, pending + data), Busy(frames, k, u + data))
  {
    var m, n := Busy([], None, pending + data), Busy(frames, k, u + data);
    hide Continue, Current;
    forall more ensures Meaning(m, more) == Meaning(n, more) {
      assert pending + data + more == pending + (data + more) && u + data + more == u + (data + more);
      assert Meaning(Busy([], None, pending), data + more) == Meaning(Busy(frames, k, u), data + more);
    }
  }

  /** What has come of all the text so far. */
  lemma LeadsNow(pending: string, m: Machine)
    requires Sensible(m)
    ensures Leads(Busy([], None, pending), m) ==> ReadItem(pending, 0) == Meaning(m, "")
    ensures forall e :: Leads(Busy([], None, pending), m) && Breaks(m, e) ==> ReadItem(pending, 0) == Fail(e)
    ensures m == Busy([], None, pending) ==> Leads(Busy([], None, pending), m)
  {
    hide ReadItem;
    assert pending + "" == pending;
    assert Meaning(Busy([], None, pending), "") == ReadItem(pending, 0);
  }

  lemma ReadyNow(m: Machine)
    requires m.Ready?
    ensures Meaning(m, "") == Done(m.reply, m.unread)
  {
    assert m.unread + "" == m.unread;
  }

  lemma BreaksAfter(a: Machine, b: Machine, e: Flaw)
    requires Sensible(a) && Sensible(b) && Leads(a, b) && Breaks(b, e)
    ensures Breaks(a, e)
  {
    hide Meaning;
    forall more ensures Meaning(a, more) == Fail(e) { assert Meaning(a, more) == Meaning(b, more); }
  }

  lemma TypeByteRead(frames: seq<Frame>, u: string)
    requires Proper(frames) && u != ""
    ensures match KindOf(u[0])
            case Some(k) => Leads(Busy(frames, None, u), Busy(frames, Some(k), u[1..]))
            case None => Breaks(Busy(frames, None, u), TypeByte(u[0]))
  {
    hide ReadTyped, Continue;
    forall more
      ensures match KindOf(u[0])
              case Some(k) => Meaning(Busy(frames, None, u), more) == Meaning(Busy(frames, Some(k), u[1..]), more)
              case None => Meaning(Busy(frames, None, u), more) == Continue(frames, Fail(TypeByte(u[0])))
    {
      assert (u + more)[1..] == u[1..] + more;
    }
    assert Continue(frames, Fail(TypeByte(u[0]))) == Fail(TypeByte(u[0])) by { Flawed(frames, TypeByte(u[0])); }
  }

  lemma Flawed(frames: seq<Frame>, e: Flaw)
    requires Proper(frames)
    ensures Continue(frames, Fail(e)) == Fail(e) && Continue(frames, Need) == Need
  {
  }

  /** The task gave something: it goes to the arrays below. */
  ghost predicate Gives(m: Machine, frames: seq<Frame>, r: Reply, rest: string)
    requires Sensible(m) && Proper(frames)
  {
    forall more :: Meaning(m, more) == Unwind(frames, r, rest + more)
  }

  lemma ItemRead(frames: seq<Frame>, k: Kind, u: string)
    requires Proper(frames)
    ensures match ReadTyped(k, u, |frames|)
            case Done(r, rest) => Gives(Busy(frames, Some(k), u), frames, r, rest)
            case Need => Meaning(Busy(frames, Some(k), u), "") == Need
            case Fail(e) => Breaks(Busy(frames, Some(k), u), e)
  {
    hide ReadTyped, Unwind;
    forall more
      ensures Extends(ReadTyped(k, u, |frames|), more, ReadTyped(k, u + more, |frames|))
    {
      ReadTypedMore(k, u, more, |frames|);
    }
    assert u + "" == u;
  }

  lemma ArrayOpened(frames: seq<Frame>, u: string, i: nat, n: int)
    requires Proper(frames) && |frames| < MAX_LEVEL
    requires Newline(u) == Some(i) && ToLongLong(u[..i]) == Some(n) && 0 < n <= INT_MAX
    ensures Proper(frames + [Frame(n, [])])
    ensures Leads(Busy(frames, Some(MultiBulk), u), Busy(frames + [Frame(n, [])], None, u[i + 2..]))
  {
    hide Continue, ReadItems, ReadItem, Newline, ToLongLong;
    var inner := frames + [Frame(n, [])];
    forall more
      ensures Meaning(Busy(frames, Some(MultiBulk), u), more) == Meaning(Busy(inner, None, u[i + 2..]), more)
    {
      NewlineMore(u, more);
      SliceMore(u, more, i);
      SliceMore(u, more, i + 2);
      Opened(frames, n, u[i + 2..] + more);
    }
  }

  ghost predicate Same(frames: seq<Frame>, r: Reply, frames': seq<Frame>, r': Reply)
    requires Proper(frames) && Proper(frames')
  {
    forall s :: Unwind(frames, r, s) == Unwind(frames', r', s)
  }

  lemma SameSelf(frames: seq<Frame>, r: Reply)
    requires Proper(frames)
    ensures Same(frames, r, frames, r)
  {
  }

  lemma SameLast(frames: seq<Frame>, r: Reply, outer: seq<Frame>, f: Frame, x: Reply)
    requires Proper(frames) && Proper(outer + [f]) && |f.items| + 1 == f.size && Same(frames, r, outer + [f], x)
    ensures Proper(outer) && Same(frames, r, outer, Array(f.items + [x]))
  {
    hide Unwind;
    LastElement(outer, f, x, "");
    forall s ensures Unwind(frames, r, s) == Unwind(outer, Array(f.items + [x]), s) { LastElement(outer, f, x, s); }
  }

  /** The arrays below have taken the item in. */
  ghost predicate Settled(frames: seq<Frame>, r: Reply, m: Machine)
    requires Proper(frames) && Sensible(m)
  {
    forall more :: Unwind(frames, r, m.unread + more) == Meaning(m, more)
  }

  lemma SettledRoot(frames: seq<Frame>, r: Reply, x: Reply, u: string)
    requires Proper(frames) && Same(frames, r, [], x)
    ensures Settled(frames, r, Ready(x, u))
  {
  }

  lemma SettledNext(frames: seq<Frame>, r: Reply, outer: seq<Frame>, f: Frame, x: Reply, u: string)
    requires Proper(frames) && Proper(outer + [f]) && |f.items| + 1 < f.size && Same(frames, r, outer + [f], x)
    ensures Proper(outer + [Frame(f.size, f.items + [x])])
    ensures Settled(frames, r, Busy(outer + [Frame(f.size, f.items + [x])], None, u))
  {
    hide Unwind, Continue, ReadItem;
    NextElement(outer, f, x, "");
    forall more
      ensures Unwind(frames, r, u + more) == Meaning(Busy(outer + [Frame(f.size, f.items + [x])], None, u), more)
    {
      NextElement(outer, f, x, u + more);
    }
  }

  lemma GivesThenSettles(m: Machine, frames: seq<Frame>, r: Reply, n: Machine)
    requires Sensible(m) && Proper(frames) && Sensible(n) && Gives(m, frames, r, n.unread) && Settled(frames, r, n)
    ensures Leads(m, n)
  {
    hide Meaning, Unwind;
    forall more ensures Meaning(m, more) == Meaning(n, more) {
      assert Meaning(m, more) == Unwind(frames, r, n.unread + more);
    }
  }

  // ---------------------------------------------------------------- the reader

  /** A slot of the task stack. `items` stands for the elements that have been put into the
      array object of the task. */
  datatype Task = Task(kind: Option<Kind>, elements: int, idx: int, items: seq<Reply>)

  const FRESH := Task(None, -1, -1, [])

  ghost function Frames(tasks: seq<Task>): (fs: seq<Frame>)
    ensures |fs| == |tasks|
  {
    seq(|tasks|, i requires 0 <= i < |tasks| => Frame(tasks[i].elements, tasks[i].items))
  }

  /** What holds of the stack: every task below the top is an array with elements, and each
      task knows its place in the array below. */
  ghost predicate Stacked(tasks: seq<Task>, ridx: int) {
    && |tasks| == 9 && 0 <= ridx <= 8
    && (forall i :: 0 <= i < ridx ==>
          tasks[i].kind == Some(MultiBulk) && 0 < tasks[i].elements <= INT_MAX && |tasks[i].items| < tasks[i].elements)
    && (forall i :: 0 < i <= ridx ==> tasks[i].idx == |tasks[i - 1].items|)
  }

  lemma StackedIsProper(tasks: seq<Task>, ridx: int)
    requires Stacked(tasks, ridx)
    ensures Proper(Frames(tasks[..ridx]))
  {
  }

  /** seekNewline, for buffers shorter than 2^31 bytes. */
  method SeekNewline(s: string) returns (r: Option<nat>)
    ensures r == Newline(s)
  {
    var pos, last := 0, |s| - 1;
    while pos < last
      invariant 0 <= pos && (pos <= last || pos == 0)
      invariant forall i :: 0 <= i < pos ==> !NewlineAt(s, i)
    {
      while pos < last && s[pos] != CR
        invariant 0 <= pos <= last
        invariant forall i :: 0 <= i < pos ==> !NewlineAt(s, i)
      {
        pos := pos + 1;
      }
      if pos == last {
        return None;
      } else if s[pos + 1] == LF {
        NewlineIs(s, pos);
        return Some(pos);
      } else {
        pos := pos + 1;
      }
    }
    return None;
  }

  /** The array below the current task has taken `r` in. */
  ghost function Taken(tasks: seq<Task>, ridx: int, r: Reply): seq<Task>
    requires Stacked(tasks, ridx) && ridx > 0
  {
    tasks[ridx - 1 := tasks[ridx - 1].(items := tasks[ridx - 1].items + [r])]
  }

  ghost function Below(tasks: seq<Task>, ridx: int): Frame
    requires Stacked(tasks, ridx) && ridx > 0
  {
    Frame(tasks[ridx - 1].elements, tasks[ridx - 1].items)
  }

  lemma FramesBelow(tasks: seq<Task>, ridx: int)
    requires Stacked(tasks, ridx) && ridx > 0
    ensures Frames(tasks[..ridx]) == Frames(tasks[..ridx - 1]) + [Below(tasks, ridx)]
    ensures |Below(tasks, ridx).items| == tasks[ridx].idx
  {
  }

  lemma StackPops(tasks: seq<Task>, ridx: int, r: Reply)
    requires Stacked(tasks, ridx) && ridx > 0
    ensures var tasks' := Taken(tasks, ridx, r);
            Stacked(tasks', ridx - 1) && Frames(tasks'[..ridx - 1]) == Frames(tasks[..ridx - 1])
  {
  }

  lemma StackMoves(tasks: seq<Task>, ridx: int, r: Reply)
    requires Stacked(tasks, ridx) && ridx > 0 && tasks[ridx].idx != tasks[ridx - 1].elements - 1
    ensures var tasks' := Taken(tasks, ridx, r)[ridx := Task(None, -1, tasks[ridx].idx + 1, [])];
            Stacked(tasks', ridx) &&
            Frames(tasks'[..ridx]) ==
              Frames(tasks[..ridx - 1]) + [Frame(tasks[ridx - 1].elements, tasks[ridx - 1].items + [r])]
  {
  }

  class Reader {
    var err: Option<Flaw>
    var buf: string
    var pos: nat
    var len: nat
    const rstack: array<Task>
    var ridx: int
    var reply: Option<Reply>
    /** Fed and not yet returned as part of a reply. */
    ghost var pending: string

    ghost predicate Buffered()
      reads this
    {
      pos <= len == |buf| && rstack.Length == 9
    }

    /** Inside a call. */
    ghost predicate Running()
      reads this, rstack
    {
      && Buffered() && err == None && -1 <= ridx <= 8
      && (if ridx == -1 then reply.Some? else Stacked(rstack[..], ridx) && reply == None)
    }

    ghost function View(): (m: Machine)
      requires Running()
      reads this, rstack
      ensures Sensible(m)
    {
      if ridx == -1 then Ready(reply.value, buf[pos..])
      else
        StackedIsProper(rstack[..], ridx);
        Busy(Frames(rstack[..ridx]), rstack[ridx].kind, buf[pos..])
    }

    ghost predicate Valid()
      reads this, rstack
    {
      && Buffered() && reply == None
      && (err.Some? ==> buf == "" && ridx == -1)
      && (err == None && ridx == -1 ==> pending == buf[pos..])
      && (err == None && ridx != -1 ==>
            Running() && Leads(Busy([], None, pending), View()) && !(ridx == 8 && rstack[8].kind == Some(MultiBulk)))
    }

    constructor ()
      ensures Valid() && err == None && pending == "" && fresh(rstack)
    {
      err, buf, pos, len, ridx, reply, pending := None, "", 0, 0, -1, None, "";
      rstack := new Task[9](_ => FRESH);
    }

    /** __redisReaderSetError. */
    method SetError(e: Flaw)
      requires Running()
      modifies this
      ensures Buffered() && err == Some(e) && buf == "" && ridx == -1 && reply == None && pending == old(pending)
    {
      reply := None;
      buf, pos, len := "", 0, 0;
      ridx := -1;
      err := Some(e);
    }

    /** moveToNextTask, once the current task has given `obj`. */
    method MoveToNextTask(obj: Reply)
      requires Running() && ridx >= 0
      modifies this`ridx, this`reply, rstack
      ensures Running() && Settled(old(View().frames), obj, View())
    {
      hide Unwind, Meaning, Continue, Stacked, Same, Settled, Proper, Frames;
      ghost var frames := Frames(rstack[..ridx]);
      assert rstack[..ridx] == rstack[..][..ridx];
      StackedIsProper(rstack[..], ridx);
      SameSelf(frames, obj);
      var r := obj;
      while ridx >= 0
        invariant 0 <= ridx <= 8 && Buffered() && reply == None && Stacked(rstack[..], ridx)
        invariant rstack[..ridx] == rstack[..][..ridx]
        invariant Proper(Frames(rstack[..ridx])) && Same(frames, obj, Frames(rstack[..ridx]), r)
      {
        if ridx == 0 {
          assert rstack[..0] == [];
          ridx := -1;
          reply := Some(r);
          SettledRoot(frames, obj, r, buf[pos..]);
          return;
        }
        ghost var tasks := rstack[..];
        ghost var outer, f := Frames(tasks[..ridx - 1]), Below(tasks, ridx);
        FramesBelow(tasks, ridx);
        var cur, prv := rstack[ridx], rstack[ridx - 1];
        rstack[ridx - 1] := prv.(items := prv.items + [r]);
        assert rstack[..] == Taken(tasks, ridx, r);
        if cur.idx == prv.elements - 1 {
          StackPops(tasks, ridx, r);
          SameLast(frames, obj, outer, f, r);
          ridx := ridx - 1;
          assert rstack[..ridx] == rstack[..][..ridx];
          r := Array(prv.items + [r]);
        } else {
          StackMoves(tasks, ridx, r);
          rstack[ridx] := Task(None, -1, cur.idx + 1, []);
          assert rstack[..] == Taken(tasks, ridx, r)[ridx := Task(None, -1, cur.idx + 1, [])];
          assert rstack[..ridx] == rstack[..][..ridx];
          SettledNext(frames, obj, outer, f, r, buf[pos..]);
          return;
        }
      }
    }

    /** How a step of the reader may leave things. */
    ghost predicate Stepped(m: Machine, ok: bool)
      requires Sensible(m)
      reads this, rstack
    {
      if err.Some? then !ok && Cleared() && Breaks(m, err.value)
      else if ok then Running() && Leads(m, View())
      else Running() && ridx >= 0 && View() == m && Meaning(m, "") == Need
    }

    ghost predicate Cleared()
      reads this
    {
      Buffered() && buf == "" && ridx == -1 && reply == None
    }

    /** readLine. */
    method ReadLine() returns (line: Option<string>)
      requires Buffered()
      modifies this`pos
      ensures Buffered()
      ensures match Newline(old(buf[pos..]))
              case None => line == None && pos == old(pos)
              case Some(i) => line == Some(old(buf[pos..])[..i]) && buf[pos..] == old(buf[pos..])[i + 2..]
                              && pos == old(pos) + i + 2
    {
      var p := buf[pos..];
      var s := SeekNewline(p);
      match s {
        case None => line := None;
        case Some(i) =>
          pos := pos + i + 2;
          line := Some(p[..i]);
      }
    }

    /** A finished item goes to the arrays below it. */
    method Give(obj: Reply, ghost m: Machine)
      requires Running() && ridx >= 0 && Sensible(m) && m.Busy?
      requires m.frames == View().frames && Gives(m, m.frames, obj, buf[pos..])
      modifies this`ridx, this`reply, rstack
      ensures Running() && Leads(m, View())
    {
      MoveToNextTask(obj);
      GivesThenSettles(m, m.frames, obj, View());
    }

    method ProcessLineItem() returns (ok: bool)
      requires Running() && ridx >= 0 && rstack[ridx].kind in {Some(StatusLine), Some(ErrorLine), Some(IntegerLine)}
      modifies this, rstack
      ensures Stepped(old(View()), ok) && pending == old(pending)
      ensures ok ==> pos > old(pos) && buf == old(buf)
    {
      hide Gives, Leads, Breaks, Meaning, Newline, ToLongLong;
      ghost var m := View();
      var kind := rstack[ridx].kind;
      ItemRead(m.frames, kind.value, m.unread);
      var p := ReadLine();
      if p == None { return false; }
      var obj;
      if kind == Some(IntegerLine) {
        var v := String2Ll(p.value);
        if v == None {
          SetError(BadInteger);
          return false;
        }
        obj := Integer(v.value);
      } else {
        obj := if kind == Some(StatusLine) then Status(p.value) else Error(p.value);
      }
      Give(obj, m);
      return true;
    }

    method ProcessBulkItem() returns (ok: bool)
      requires Running() && ridx >= 0 && rstack[ridx].kind == Some(BulkString)
      modifies this, rstack
      ensures Stepped(old(View()), ok) && pending == old(pending)
      ensures ok ==> pos > old(pos) && buf == old(buf)
    {
      hide Gives, Leads, Breaks, Meaning, Newline, ToLongLong, Stacked, Frames;
      ghost var m := View();
      ItemRead(m.frames, BulkString, m.unread);
      var p := buf[pos..];
      var s := SeekNewline(p);
      if s == None { return false; }
      var byteLen := s.value + 2;
      var n := String2Ll(p[..byteLen - 2]);
      if n == None {
        SetError(BadBulkLength);
        return false;
      }
      var obj;
      if n.value < -1 {
        SetError(BulkLengthRange);
        return false;
      } else if n.value == -1 {
        obj := Nil;
      } else {
        byteLen := byteLen + n.value + 2;
        if pos + byteLen > len { return false; }
        obj := Bulk(p[s.value + 2..s.value + 2 + n.value]);
        assert p[s.value + 2..][..n.value] == p[s.value + 2..s.value + 2 + n.value];
        assert p[s.value + 2..][n.value + 2..] == p[byteLen..];
      }
      pos := pos + byteLen;
      assert buf[pos..] == p[byteLen..];
      Give(obj, m);
      return true;
    }

    method ProcessMultiBulkItem() returns (ok: bool)
      requires Running() && ridx >= 0 && rstack[ridx].kind == Some(MultiBulk)
      modifies this, rstack
      ensures Stepped(old(View()), ok) && pending == old(pending)
      ensures ok ==> pos > old(pos) && buf == old(buf)
    {
      hide Gives, Leads, Breaks, Meaning, Newline, ToLongLong;
      ghost var m := View();
      ItemRead(m.frames, MultiBulk, m.unread);
      if ridx == 8 {
        SetError(TooDeep);
        return false;
      }
      var p := ReadLine();
      if p == None { return false; }
      var elements := String2Ll(p.value);
      if elements == None {
        SetError(BadMultiBulkLength);
        return false;
      }
      if elements.value < -1 || elements.value > INT_MAX {
        SetError(MultiBulkLengthRange);
        return false;
      }
      if elements.value == -1 {
        Give(Nil, m);
      } else if elements.value > 0 {
        OpenArray(elements.value);
        ArrayOpened(m.frames, m.unread, |p.value|, elements.value);
      } else {
        Give(Array([]), m);
      }
      return true;
    }

    /** The task stack grows by one. */
    method OpenArray(elements: nat)
      requires Running() && 0 <= ridx < 8 && rstack[ridx].kind == Some(MultiBulk) && 0 < elements <= INT_MAX
      modifies this`ridx, rstack
      ensures Running() && View() == Busy(old(View().frames) + [Frame(elements, [])], None, buf[pos..])
    {
      rstack[ridx] := rstack[ridx].(elements := elements, items := []);
      rstack[ridx + 1] := Task(None, -1, 0, []);
      ridx := ridx + 1;
    }

    /** processItem, first half: the type byte, unless it was read before. */
    method ReadType() returns (ok: bool)
      requires Running() && ridx >= 0
      modifies this, rstack
      ensures pending == old(pending)
      ensures if ok then Running() && ridx >= 0 && Leads(old(View()), View()) && rstack[ridx].kind.Some?
              else Stepped(old(View()), false)
      ensures ok ==> pos >= old(pos) && buf == old(buf)
    {
      hide Leads, Breaks, Meaning, KindOf;
      ghost var m := View();
      LeadsSelf(m);
      if rstack[ridx].kind == None {
        if len - pos >= 1 {
          TypeByteRead(m.frames, m.unread);
          var byte := buf[pos];
          pos := pos + 1;
          match KindOf(byte) {
            case None =>
              SetError(TypeByte(byte));
              return false;
            case Some(k) =>
              SetKind(k);
          }
        } else {
          NothingToRead(m.frames);
          return false;
        }
      }
      return true;
    }

    method SetKind(k: Kind)
      requires Running() && ridx >= 0 && rstack[ridx].kind == None
      modifies rstack
      ensures Running() && ridx >= 0 && View() == Busy(old(View().frames), Some(k), buf[pos..])
        && rstack[ridx].kind == Some(k)
    {
      rstack[ridx] := rstack[ridx].(kind := Some(k));
      assert rstack[..ridx] == old(rstack[..ridx]);
    }

    method ProcessItem() returns (ok: bool)
      requires Running() && ridx >= 0
      modifies this, rstack
      ensures pending == old(pending)
      ensures if err == None && !ok then
                Running() && ridx >= 0 && Leads(old(View()), View()) && Meaning(View(), "") == Need
              else Stepped(old(View()), ok)
      ensures ok ==> pos > old(pos) && buf == old(buf)
    {
      hide Leads, Breaks, Meaning;
      ghost var m := View();
      LeadsSelf(m);
      ok := ReadType();
      if !ok { return; }
      ghost var n := View();
      LeadsSelf(n);
      match rstack[ridx].kind.value {
        case BulkString => ok := ProcessBulkItem();
        case MultiBulk => ok := ProcessMultiBulkItem();
        case _ => ok := ProcessLineItem();
      }
      if err.Some? {
        BreaksAfter(m, n, err.value);
      } else {
        LeadsTo(m, n, View());
      }
    }

    /** redisReaderFeed. */
    method Feed(data: string) returns (ok: bool)
      requires Valid()
      modifies this
      ensures Valid() && err == old(err) && ok == (err == None)
      ensures pending == if ok then old(pending) + data else old(pending)
    {
      hide Leads, Stacked, Meaning;
      if err.Some? { return false; }
      if ridx != -1 {
        LeadsMore(pending, View().frames, View().kind, View().unread, data);
      }
      assert (buf + data)[pos..] == buf[pos..] + data;
      buf := buf + data;
      len := |buf|;
      pending := pending + data;
      return true;
    }

    /** redisReaderGetReply: exactly what the grammar makes of the pending text. */
    method GetReply() returns (ok: bool, r: Option<Reply>)
      requires Valid()
      modifies this, rstack
      ensures Valid()
      ensures old(err).Some? ==> !ok && r == None && err == old(err) && pending == old(pending)
      ensures old(err) == None ==>
        match ReadItem(old(pending), 0)
        case Done(x, rest) => ok && r == Some(x) && err == None && pending == rest
        case Need => ok && r == None && err == None && pending == old(pending)
        case Fail(e) => !ok && r == None && err == Some(e) && pending == old(pending)
    {
      hide Leads, Breaks, Meaning;
      if err.Some? { return false, None; }
      if len == 0 {
        Idle();
        return true, None;
      }
      Start();
      ghost var root := Busy([], None, pending);
      ProcessItems(root);
      if err.Some? {
        LeadsNow(pending, root);
        return false, None;
      }
      LeadsNow(pending, View());
      Discard();
      if ridx == -1 {
        ReadyNow(View());
        r := reply;
        reply := None;
        pending := buf[pos..];
      } else {
        if rstack[ridx].kind == Some(MultiBulk) { WaitingIsShallow(View().frames, View().unread); }
        r := None;
      }
      return true, r;
    }

    /** The loop over the items of a reply. */
    method ProcessItems(ghost root: Machine)
      requires Running() && ridx >= 0 && Sensible(root) && Leads(root, View())
      modifies this, rstack
      ensures pending == old(pending)
      ensures if err.Some? then Cleared() && Breaks(root, err.value)
              else Running() && Leads(root, View()) && (ridx >= 0 ==> Meaning(View(), "") == Need)
    {
      hide Leads, Breaks, Meaning, Stacked;
      while ridx >= 0
        invariant Running() && Leads(root, View()) && pending == old(pending)
        decreases |buf| - pos
      {
        ghost var m := View();
        var ok := ProcessItem();
        if err.Some? { BreaksAfter(root, m, err.value); break; }
        LeadsTo(root, m, View());
        if !ok { break; }
      }
    }

    /** Consumed text is dropped now and then. */
    method Discard()
      requires Running()
      modifies this`buf, this`pos, this`len
      ensures Running() && View() == old(View())
    {
      hide Stacked;
      if pos >= 1024 {
        buf := buf[pos..];
        pos := 0;
        len := |buf|;
      }
    }

    /** Nothing to read, and nothing to say. */
    lemma Idle()
      requires Valid() && err == None && len == 0
      ensures ReadItem(pending, 0) == Need
    {
      if ridx != -1 {
        LeadsNow(pending, View());
        WaitsForMore(View().frames, View().kind);
      }
    }

    /** The first item, when the stack is empty. */
    method Start()
      requires Valid() && err == None
      modifies this`ridx, rstack
      ensures Running() && ridx >= 0 && Leads(Busy([], None, pending), View())
    {
      hide Leads;
      if ridx == -1 {
        rstack[0] := Task(None, -1, -1, []);
        ridx := 0;
        assert Frames(rstack[..0]) == [];
        LeadsNow(pending, View());
      }
    }
  }
}
