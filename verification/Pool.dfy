/** The connection pools of mysql/db_pool.cc and redis/cache_pool.cc: one protocol of a lock and a
    condition variable, with different initial sizes (1 and 2), for which there is a parameter. A
    step is what one thread does while it holds the lock. */
module Pool {
  import opened Options

  type Connection = nat
  type Thread = nat

  // ---------------------------------------------------------------- the pool object

  /** What a thread leaves the lock with. */
  datatype Got = Lent(c: Connection) | Null | MustWait

  class ConnPool {
    var freeList: seq<Connection>
    var curConnCnt: nat
    const maxConnCnt: int
    var abortRequest: bool

    constructor (minimum: nat, maximum: int)
      ensures freeList == [] && curConnCnt == minimum && maxConnCnt == maximum && !abortRequest
    {
      freeList, curConnCnt, abortRequest := [], minimum, false;
      maxConnCnt := maximum;
    }

    ghost function View(): Fields
      reads this
    {
      Fields(freeList, curConnCnt, maxConnCnt, abortRequest)
    }

    /** Init: connections `first`, `first + 1`, ... are made, up to the first that cannot be. */
    method Init(first: Connection, works: Connection -> bool) returns (ok: bool)
      requires freeList == []
      modifies this`freeList
      ensures ok <==> forall c :: c in Range(first, curConnCnt) ==> works(c)
      ensures ok ==> freeList == Range(first, curConnCnt)
    {
      for i := 0 to curConnCnt
        invariant freeList == Range(first, i) && forall c :: c in Range(first, i) ==> works(c)
      {
        RangeSnoc(first, i, curConnCnt);
        if !works(first + i) { return false; }
        freeList := freeList + [first + i];
      }
      return true;
    }

    /** GetDBConn, from the start: until it returns or waits. `made` is what a new connection would
        be, if it can be made. */
    method Get(made: Option<Connection>) returns (r: Got)
      modifies this`freeList, this`curConnCnt
      ensures (r, View()) == Enter(old(View()), made)
      ensures r == MustWait <==> !abortRequest && old(freeList) == [] && old(curConnCnt) >= maxConnCnt
      ensures r.Lent? <==>
        !abortRequest && (old(freeList) != [] || (old(curConnCnt) < maxConnCnt && made.Some?))
      ensures r.Lent? ==>
        if old(freeList) != [] then [r.c] + freeList == old(freeList) && curConnCnt == old(curConnCnt)
        else r.c == made.value && freeList == [] && curConnCnt == old(curConnCnt) + 1
      ensures !r.Lent? ==> freeList == old(freeList) && curConnCnt == old(curConnCnt)
    {
      if abortRequest { return Null; }
      if freeList == [] {
        if curConnCnt >= maxConnCnt {
          return MustWait;
        } else if made == None {
          return Null;
        } else {
          freeList := freeList + [made.value];
          curConnCnt := curConnCnt + 1;
        }
      }
      var c := freeList[0];
      freeList := freeList[1..];
      assert old(freeList) == [] ==> freeList == [];
      return Lent(c);
    }

    /** GetDBConn, when a waiting thread has the lock again: the condition is tested first, and
        with a timeout that has expired it is not waited for any longer. */
    method GetAgain(timed: bool, expired: bool) returns (r: Got)
      requires expired ==> timed
      modifies this`freeList
      ensures (r, View()) == Reenter(old(View()), expired)
      ensures r == MustWait <==> !abortRequest && old(freeList) == [] && !expired
      ensures r.Lent? <==> !abortRequest && old(freeList) != []
      ensures if r.Lent? then [r.c] + freeList == old(freeList) else freeList == old(freeList)
    {
      if !(freeList != [] || abortRequest) && !expired { return MustWait; }
      if timed && freeList == [] { return Null; }
      if abortRequest { return Null; }
      var c := freeList[0];
      freeList := freeList[1..];
      return Lent(c);
    }

    /** RelDBConn: a connection that is already free is not put back again. */
    method Release(c: Connection) returns (notify: bool)
      modifies this`freeList
      ensures (notify, View()) == GiveBack(old(View()), c)
      ensures notify <==> c !in old(freeList)
      ensures freeList == if notify then old(freeList) + [c] else old(freeList)
    {
      var i := 0;
      while i < |freeList|
        invariant 0 <= i <= |freeList| && c !in freeList[..i]
      {
        if freeList[i] == c { break; }
        i := i + 1;
      }
      if i == |freeList| {
        freeList := freeList + [c];
        notify := true;
      } else {
        notify := false;
      }
    }
  }

  // ---------------------------------------------------------------- its fields, as a value

  datatype Fields = Fields(free: seq<Connection>, cur: nat, max: int, abort: bool)

  function Range(first: nat, n: nat): (r: seq<nat>)
    ensures |r| == n
  {
    seq(n, i requires 0 <= i < n => first + i)
  }

  lemma RangeSnoc(first: nat, i: nat, n: nat)
    requires i < n
    ensures Range(first, i + 1) == Range(first, i) + [first + i] && first + i in Range(first, n)
  {
    assert Range(first, n)[i] == first + i;
  }

  function TakeFirst(p: Fields): (Got, Fields)
    requires p.free != []
  {
    (Lent(p.free[0]), p.(free := p.free[1..]))
  }

  function Enter(p: Fields, made: Option<Connection>): (Got, Fields) {
    if p.abort then (Null, p)
    else if p.free != [] then TakeFirst(p)
    else if p.cur >= p.max then (MustWait, p)
    else if made == None then (Null, p)
    else (Lent(made.value), p.(cur := p.cur + 1))
  }

  function Reenter(p: Fields, expired: bool): (Got, Fields) {
    if p.free == [] && !p.abort && !expired then (MustWait, p)
    else if p.abort || p.free == [] then (Null, p)
    else TakeFirst(p)
  }

  function GiveBack(p: Fields, c: Connection): (bool, Fields) {
    if c in p.free then (false, p) else (true, p.(free := p.free + [c]))
  }

  // ---------------------------------------------------------------- all threads together

  /** A thread may be waiting (to be notified) or woken (to get the lock again): by a
      notification, by its timeout, or for no reason. */
  datatype Status = Running | Waiting(timed: bool) | Woken(timed: bool, expired: bool, notified: bool)

  /** The pool, the threads, and who has been lent what. Connections below `made` exist. */
  datatype State = State(pool: Fields, threads: map<Thread, Status>, lent: map<Connection, Thread>, made: nat)

  ghost predicate WaitingIn(s: State, t: Thread) { t in s.threads && s.threads[t].Waiting? }

  ghost predicate WokenIn(s: State, t: Thread) { t in s.threads && s.threads[t].Woken? }

  ghost predicate NotifiedIn(s: State, t: Thread) { WokenIn(s, t) && s.threads[t].notified }

  /** Those that have been notified and have not run since. */
  ghost function NotifiedSet(s: State): set<Thread> { set t | t in s.threads && NotifiedIn(s, t) }

  /** What getting does to the thread. */
  function Outcome(s: State, t: Thread, timed: bool, r: (Got, Fields)): State {
    match r.0
    case Lent(c) => s.(pool := r.1, threads := s.threads[t := Running], lent := s.lent[c := t])
    case Null => s.(pool := r.1, threads := s.threads[t := Running])
    case MustWait => s.(pool := r.1, threads := s.threads[t := Waiting(timed)])
  }

  datatype Step =
    | GetStep(t: Thread, timed: bool, works: bool)
    | AgainStep(t: Thread)
    | ReleaseStep(t: Thread, c: Connection, woken: Option<Thread>)
    | WakeStep(t: Thread, expired: bool)
    | AbortStep

  /** When a step can be taken. Threads give back what they hold, or (without effect) what is
      free already; a notification goes to any one of those waiting. */
  ghost predicate Enabled(s: State, step: Step) {
    match step
    case GetStep(t, _, _) => t in s.threads && s.threads[t] == Running
    case AgainStep(t) => WokenIn(s, t)
    case ReleaseStep(t, c, woken) =>
      && t in s.threads && s.threads[t] == Running && (c in s.pool.free || (c in s.lent && s.lent[c] == t))
      && (if woken.Some? then WaitingIn(s, woken.value) else forall w :: !WaitingIn(s, w))
    case WakeStep(t, expired) => WaitingIn(s, t) && (expired ==> s.threads[t].timed)
    case AbortStep => true
  }

  function Wake(s: State, t: Thread, expired: bool, notified: bool): State
    requires t in s.threads && s.threads[t].Waiting?
  {
    s.(threads := s.threads[t := Woken(s.threads[t].timed, expired, notified)])
  }

  ghost function Next(s: State, step: Step): State
    requires Enabled(s, step)
  {
    match step
    case GetStep(t, timed, works) =>
      var made := if works then Some(s.made) else None;
      Outcome(s.(made := s.made + 1), t, timed, Enter(s.pool, made))
    case AgainStep(t) =>
      var w := s.threads[t];
      Outcome(s, t, w.timed, Reenter(s.pool, w.expired))
    case ReleaseStep(t, c, woken) =>
      var (notify, pool) := GiveBack(s.pool, c);
      var s' := s.(pool := pool, lent := s.lent - {c});
      if notify && woken.Some? then Wake(s', woken.value, false, true) else s'
    case WakeStep(t, expired) => Wake(s, t, expired, false)
    case AbortStep =>
      State(s.pool.(free := [], abort := true),
            map t | t in s.threads :: if s.threads[t].Waiting? then Woken(s.threads[t].timed, false, true) else s.threads[t],
            s.lent, s.made)
  }

  // ---------------------------------------------------------------- invariants

  ghost predicate Distinct(cs: seq<Connection>) { forall i, j :: 0 <= i < j < |cs| ==> cs[i] != cs[j] }

  /** No connection is lent twice, or lent and free; and none is lost. */
  ghost predicate Exclusive(s: State, minimum: nat) {
    && Distinct(s.pool.free)
    && (forall c :: c in s.pool.free ==> c !in s.lent && c < s.made)
    && (forall c :: c in s.lent ==> c < s.made)
    && (!s.pool.abort ==> |s.pool.free| + |s.lent| == s.pool.cur)
    && (s.pool.cur <= s.pool.max || s.pool.cur <= minimum)
  }

  /** No wake-up is lost: while a thread still waits, there is a notified one, yet to run, for every
      free connection. */
  ghost predicate Awake(s: State) {
    (exists t :: WaitingIn(s, t)) ==> !s.pool.abort && |s.pool.free| <= |NotifiedSet(s)|
  }

  ghost predicate Inv(s: State, minimum: nat) { Exclusive(s, minimum) && Awake(s) }

  /** After Init, with all threads outside. */
  ghost predicate Initial(s: State, minimum: nat) {
    && s.pool.free == Range(0, minimum) && s.pool.cur == minimum && !s.pool.abort
    && s.lent == map[] && s.made == minimum && forall t :: t in s.threads ==> s.threads[t] == Running
  }

  lemma InitialInv(s: State, minimum: nat)
    requires Initial(s, minimum)
    ensures Inv(s, minimum)
  {
  }

  lemma StatusChange(s: State, s': State, t: Thread)
    requires t in s.threads && s'.threads.Keys == s.threads.Keys
    requires forall u :: u in s.threads && u != t ==> s'.threads[u] == s.threads[u]
    ensures NotifiedSet(s') == if NotifiedIn(s', t) then NotifiedSet(s) + {t} else NotifiedSet(s) - {t}
    ensures forall u :: u != t ==> (WaitingIn(s', u) <==> WaitingIn(s, u))
  {
  }

  lemma GetKeeps(s: State, t: Thread, timed: bool, works: bool, minimum: nat)
    requires Inv(s, minimum) && Enabled(s, GetStep(t, timed, works))
    ensures Inv(Next(s, GetStep(t, timed, works)), minimum)
  {
    GetAwake(s, t, timed, works);
    var s' := Next(s, GetStep(t, timed, works));
    hide Awake, Distinct;
    if s.pool.free != [] { FirstTaken(s.pool.free); }
    if !s.pool.abort && (s.pool.free != [] || s.pool.cur < s.pool.max) && s'.lent != s.lent {
      LentOneMore(s.lent, if s.pool.free != [] then s.pool.free[0] else s.made, t);
    }
  }

  lemma GetAwake(s: State, t: Thread, timed: bool, works: bool)
    requires Awake(s) && Enabled(s, GetStep(t, timed, works))
    ensures Awake(Next(s, GetStep(t, timed, works)))
  {
    var s' := Next(s, GetStep(t, timed, works));
    StatusChange(s, s', t);
    assert NotifiedSet(s') == NotifiedSet(s);
    if s'.threads[t] == Running {
      forall u | WaitingIn(s', u) ensures WaitingIn(s, u) {}
    }
  }

  lemma FirstTaken(free: seq<Connection>)
    requires free != [] && Distinct(free)
    ensures Distinct(free[1..]) && free[0] in free && free[0] !in free[1..]
    ensures forall c :: c in free[1..] ==> c in free
  {
  }

  lemma LentOneMore(lent: map<Connection, Thread>, c: Connection, t: Thread)
    requires c !in lent
    ensures |lent[c := t]| == |lent| + 1
  {
    assert lent[c := t].Keys == lent.Keys + {c};
  }

  lemma LentOneLess(lent: map<Connection, Thread>, c: Connection)
    requires c in lent
    ensures |lent - {c}| == |lent| - 1
  {
    assert (lent - {c}).Keys == lent.Keys - {c};
  }

  lemma AgainKeeps(s: State, t: Thread, minimum: nat)
    requires Inv(s, minimum) && Enabled(s, AgainStep(t))
    ensures Inv(Next(s, AgainStep(t)), minimum)
  {
    AgainAwake(s, t);
    hide Awake, Distinct;
    if s.pool.free != [] { FirstTaken(s.pool.free); }
    var s' := Next(s, AgainStep(t));
    if s'.lent != s.lent { LentOneMore(s.lent, s.pool.free[0], t); }
  }

  lemma AgainAwake(s: State, t: Thread)
    requires Awake(s) && Enabled(s, AgainStep(t))
    ensures Awake(Next(s, AgainStep(t)))
  {
    var s' := Next(s, AgainStep(t));
    StatusChange(s, s', t);
    assert !NotifiedIn(s', t);
    assert t in NotifiedSet(s) ==> |NotifiedSet(s) - {t}| == |NotifiedSet(s)| - 1;
    assert t !in NotifiedSet(s) ==> NotifiedSet(s) - {t} == NotifiedSet(s);
    if s'.threads[t] == Running {
      forall u | WaitingIn(s', u) ensures WaitingIn(s, u) {}
    }
  }

  lemma ReleaseKeeps(s: State, t: Thread, c: Connection, woken: Option<Thread>, minimum: nat)
    requires Inv(s, minimum) && Enabled(s, ReleaseStep(t, c, woken))
    ensures Inv(Next(s, ReleaseStep(t, c, woken)), minimum)
  {
    var s' := Next(s, ReleaseStep(t, c, woken));
    if c in s.pool.free {
      assert s.lent - {c} == s.lent;
    } else {
      LentOneLess(s.lent, c);
      if woken.Some? {
        StatusChange(s, s', woken.value);
        assert woken.value !in NotifiedSet(s);
      } else {
        forall u ensures !WaitingIn(s', u) { assert !WaitingIn(s, u); }
      }
    }
  }

  lemma WakeKeeps(s: State, t: Thread, expired: bool, minimum: nat)
    requires Inv(s, minimum) && Enabled(s, WakeStep(t, expired))
    ensures Inv(Next(s, WakeStep(t, expired)), minimum)
  {
    var s' := Next(s, WakeStep(t, expired));
    StatusChange(s, s', t);
    assert t !in NotifiedSet(s) && NotifiedSet(s') == NotifiedSet(s);
    if exists u :: WaitingIn(s', u) {
      var u :| WaitingIn(s', u);
      assert WaitingIn(s, t);
    }
  }

  lemma AbortKeeps(s: State, minimum: nat)
    requires Inv(s, minimum)
    ensures Inv(Next(s, AbortStep), minimum)
  {
    var s' := Next(s, AbortStep);
    forall u ensures !WaitingIn(s', u) {}
  }

  lemma NextKeeps(s: State, step: Step, minimum: nat)
    requires Inv(s, minimum) && Enabled(s, step)
    ensures Inv(Next(s, step), minimum)
  {
    match step
    case GetStep(t, timed, works) => GetKeeps(s, t, timed, works, minimum);
    case AgainStep(t) => AgainKeeps(s, t, minimum);
    case ReleaseStep(t, c, woken) => ReleaseKeeps(s, t, c, woken, minimum);
    case WakeStep(t, expired) => WakeKeeps(s, t, expired, minimum);
    case AbortStep => AbortKeeps(s, minimum);
  }

  /** A run: some steps, each of them possible where it is taken. */
  ghost predicate Runs(s: State, steps: seq<Step>, s': State)
    decreases |steps|
  {
    if steps == [] then s' == s else Enabled(s, steps[0]) && Runs(Next(s, steps[0]), steps[1..], s')
  }

  /** Over every run of any number of threads. */
  lemma {:induction false} RunsKeep(s: State, steps: seq<Step>, s': State, minimum: nat)
    requires Inv(s, minimum) && Runs(s, steps, s')
    ensures Inv(s', minimum)
    decreases |steps|
  {
    hide Inv, Enabled, Next;
    if steps != [] {
      NextKeeps(s, steps[0], minimum);
      RunsKeep(Next(s, steps[0]), steps[1..], s', minimum);
    }
  }

  /** Safety: what is lent is not free and is lent to one thread; nothing is lost; the size is
      bounded; and while a thread sleeps on, there is a notified one for every free connection, so
      that all are lent if no notified one is yet to run. */
  lemma Safety(s0: State, steps: seq<Step>, s: State, minimum: nat)
    requires Initial(s0, minimum) && Runs(s0, steps, s)
    ensures Distinct(s.pool.free) && forall c :: c in s.pool.free ==> c !in s.lent
    ensures !s.pool.abort ==> |s.pool.free| + |s.lent| == s.pool.cur
    ensures s.pool.cur <= s.pool.max || s.pool.cur <= minimum
    ensures (exists t :: WaitingIn(s, t)) ==> !s.pool.abort && |s.pool.free| <= |NotifiedSet(s)|
    ensures (exists t :: WaitingIn(s, t)) && NotifiedSet(s) == {} ==> s.pool.free == [] && |s.lent| == s.pool.cur
  {
    InitialInv(s0, minimum);
    RunsKeep(s0, steps, s, minimum);
  }

  /** After every run, a thread that asks waits exactly if the pool is full and every connection is
      lent; otherwise it has one at once, a free one or one more, unless that cannot be made. */
  lemma WaitsOnlyIfAllAreLent(s0: State, steps: seq<Step>, s: State, minimum: nat, t: Thread, timed: bool, works: bool)
    requires Initial(s0, minimum) && Runs(s0, steps, s) && Enabled(s, GetStep(t, timed, works)) && !s.pool.abort
    ensures var s' := Next(s, GetStep(t, timed, works));
      && (WaitingIn(s', t) <==> |s.lent| == s.pool.cur && s.pool.cur >= s.pool.max)
      && (!WaitingIn(s', t) && (works || |s.lent| < s.pool.cur) ==>
            |s'.lent| == |s.lent| + 1 && exists c: Connection :: c !in s.lent && s'.lent == s.lent[c := t])
      && s'.pool.cur == s.pool.cur + if |s.lent| == s.pool.cur < s.pool.max && works then 1 else 0
  {
    InitialInv(s0, minimum);
    RunsKeep(s0, steps, s, minimum);
    assert s.pool.free == [] <==> |s.lent| == s.pool.cur;
    var s' := Next(s, GetStep(t, timed, works));
    hide Runs, Initial, Awake, Distinct;
    if s.pool.free != [] {
      LentOneMore(s.lent, s.pool.free[0], t);
    } else if s.pool.cur < s.pool.max && works {
      LentOneMore(s.lent, s.made, t);
    }
  }

  /** After every run, a woken thread waits on exactly if all is lent and its time is not up; and has
      a connection exactly if one is free. */
  lemma WaitsOnIfAllAreLent(s0: State, steps: seq<Step>, s: State, minimum: nat, t: Thread)
    requires Initial(s0, minimum) && Runs(s0, steps, s) && WokenIn(s, t) && !s.pool.abort
    ensures var s' := Next(s, AgainStep(t));
      && (WaitingIn(s', t) <==> |s.lent| == s.pool.cur && !s.threads[t].expired)
      && if |s.lent| < s.pool.cur then |s'.lent| == |s.lent| + 1 && exists c: Connection :: c !in s.lent && s'.lent == s.lent[c := t]
         else s'.lent == s.lent
  {
    InitialInv(s0, minimum);
    RunsKeep(s0, steps, s, minimum);
    assert s.pool.free == [] <==> |s.lent| == s.pool.cur;
    hide Runs, Initial, Awake, Distinct;
    if s.pool.free != [] { LentOneMore(s.lent, s.pool.free[0], t); }
  }

  // ---------------------------------------------------------------- notified threads are served

  /** The given threads, one after the other, with the lock again. */
  function Resume(ts: seq<Thread>): (steps: seq<Step>)
    ensures |steps| == |ts|
  {
    seq(|ts|, i requires 0 <= i < |ts| => AgainStep(ts[i]))
  }

  ghost predicate AllNotified(s: State, ts: seq<Thread>) {
    && (forall i, j :: 0 <= i < j < |ts| ==> ts[i] != ts[j])
    && (forall t :: t in ts ==> NotifiedIn(s, t))
  }

  /** Each thread has been lent one of the connections, in order. */
  function LentTo(lent: map<Connection, Thread>, free: seq<Connection>, ts: seq<Thread>): map<Connection, Thread>
    requires |ts| == |free|
    decreases |ts|
  {
    if ts == [] then lent else LentTo(lent[free[0] := ts[0]], free[1..], ts[1..])
  }

  lemma NotifiedOnes(s: State, n: nat) returns (ts: seq<Thread>)
    requires n <= |NotifiedSet(s)|
    ensures |ts| == n && AllNotified(s, ts)
  {
    ts := Enumerate(NotifiedSet(s), n);
    forall t | t in ts ensures NotifiedIn(s, t) {}
  }

  lemma {:induction false} Enumerate(all: set<Thread>, n: nat) returns (ts: seq<Thread>)
    requires n <= |all|
    ensures |ts| == n && (forall t :: t in ts ==> t in all)
    ensures forall i, j :: 0 <= i < j < |ts| ==> ts[i] != ts[j]
  {
    if n == 0 {
      ts := [];
    } else {
      var t :| t in all;
      var rest := Enumerate(all - {t}, n - 1);
      ts := [t] + rest;
    }
  }

  lemma {:induction false} ServedInTurn(s: State, ts: seq<Thread>, s': State)
    requires |ts| == |s.pool.free| && AllNotified(s, ts) && !s.pool.abort
    requires s' == After(s, ts)
    ensures Runs(s, Resume(ts), s') && s'.pool.free == [] && s'.lent == LentTo(s.lent, s.pool.free, ts)
    decreases |ts|
  {
    if ts == [] {
      assert Resume(ts) == [];
    } else {
      var t, rest := ts[0], ts[1..];
      assert t in ts && NotifiedIn(s, t);
      var next := Next(s, AgainStep(t));
      assert next == Served(s, t);
      forall u | u in rest ensures NotifiedIn(next, u) && u in ts {
        var i :| 0 <= i < |rest| && rest[i] == u;
        assert u == ts[i + 1] && ts[i + 1] in ts && u != t;
        assert NotifiedIn(s, u);
      }
      assert Resume(ts)[1..] == Resume(rest);
      ServedInTurn(next, rest, s');
    }
  }

  function Served(s: State, t: Thread): State
    requires s.pool.free != []
  {
    s.(pool := s.pool.(free := s.pool.free[1..]), threads := s.threads[t := Running],
       lent := s.lent[s.pool.free[0] := t])
  }

  function After(s: State, ts: seq<Thread>): State
    requires |ts| == |s.pool.free|
    decreases |ts|
  {
    if ts == [] then s else After(Served(s, ts[0]), ts[1..])
  }

  /** From every state that any run leads to with a thread still waiting, the free connections can be
      handed out at once, each to another thread that has been notified. */
  lemma NoneSleepsBeside(s0: State, steps: seq<Step>, s: State, minimum: nat)
    returns (ts: seq<Thread>, s': State)
    requires Initial(s0, minimum) && Runs(s0, steps, s) && exists t :: WaitingIn(s, t)
    ensures |ts| == |s.pool.free| && AllNotified(s, ts)
    ensures Runs(s, Resume(ts), s') && s'.pool.free == [] && s'.lent == LentTo(s.lent, s.pool.free, ts)
  {
    Safety(s0, steps, s, minimum);
    ts := NotifiedOnes(s, |s.pool.free|);
    s' := After(s, ts);
    ServedInTurn(s, ts, s');
  }

  // ---------------------------------------------------------------- careless releases

  /** Any release, by whoever. */
  function Stray(s: State, c: Connection): State {
    var (notify, pool) := GiveBack(s.pool, c);
    s.(pool := pool)
  }

  /** After every run: giving back a connection that the thread does not hold leaves the pool as it
      should be exactly if the connection is free, and then nothing changes. It makes something free
      and lent at once exactly if somebody else holds it. */
  lemma StrayIsHarmlessIf(s0: State, steps: seq<Step>, s: State, c: Connection, minimum: nat)
    requires Initial(s0, minimum) && Runs(s0, steps, s) && !s.pool.abort
    ensures Exclusive(Stray(s, c), minimum) <==> c in s.pool.free
    ensures c in s.pool.free ==> Stray(s, c) == s
    ensures (forall d :: d in Stray(s, c).pool.free ==> d !in s.lent) <==> c !in s.lent
  {
    InitialInv(s0, minimum);
    RunsKeep(s0, steps, s, minimum);
    if c in s.lent { assert c in Stray(s, c).pool.free; }
  }
}
