/** Any number of downloads of one shared file at the same time: handlePvFile of
    api_deal_sharefile.cc as steps, one for each statement or command. The row lock of
    `select ... for update` is held from the select to the commit or the rollback. */
module PvRuns {
  import opened Options

  datatype Phase =
    | Start
    | Selected(pv: int)   // inside the transaction, the row locked
    | Updated(pv: int)    // the new value written, not committed
    | Committed(pv: int)
    | Checked(pv: int, present: bool)   // after ZsetExist
    | Done
    | Failed

  /** `pv` is the committed value of the row, `score` what the sorted set holds for the file. */
  datatype State = State(pv: int, score: Option<int>, lock: Option<nat>, runs: map<nat, Phase>)

  datatype Step = Arrive | Select | Update | Commit | Rollback | Check | Publish

  predicate Can(s: State, t: nat, step: Step) {
    match step
    case Arrive => t !in s.runs
    case Select => t in s.runs && s.runs[t].Start? && s.lock == None
    case Update => t in s.runs && s.runs[t].Selected?
    case Commit => t in s.runs && s.runs[t].Updated?
    case Rollback => t in s.runs && (s.runs[t].Selected? || s.runs[t].Updated?)
    case Check => t in s.runs && s.runs[t].Committed?
    case Publish => t in s.runs && s.runs[t].Checked?
  }

  function Next(s: State, t: nat, step: Step): State
    requires Can(s, t, step)
  {
    match step
    case Arrive => s.(runs := s.runs[t := Start])
    case Select => s.(lock := Some(t), runs := s.runs[t := Selected(s.pv)])
    case Update => s.(runs := s.runs[t := Updated(s.runs[t].pv)])
    case Commit => s.(pv := s.runs[t].pv + 1, lock := None, runs := s.runs[t := Committed(s.runs[t].pv)])
    case Rollback => s.(lock := None, runs := s.runs[t := Failed])
    case Check => s.(runs := s.runs[t := Checked(s.runs[t].pv, s.score.Some?)])
    case Publish =>
      var score :=
        if s.runs[t].present then (if s.score.Some? then s.score.value else 0) + 1   // ZINCRBY
        else s.runs[t].pv + 1;   // ZADD
      s.(score := Some(score), runs := s.runs[t := Done])
  }

  predicate InTransaction(p: Phase) { p.Selected? || p.Updated? }

  /** Counted in the table and not yet in the sorted set. */
  predicate Owing(p: Phase) { p.Committed? || p.Checked? }

  function OwedBy(runs: map<nat, Phase>): set<nat> { set t | t in runs && Owing(runs[t]) }

  function Owed(s: State): set<nat> { OwedBy(s.runs) }

  /** The lock is held by the run inside its transaction, whose value is the committed one. */
  ghost predicate Locked(s: State) {
    && (s.lock.Some? ==> s.lock.value in s.runs && InTransaction(s.runs[s.lock.value]))
    && (forall t :: t in s.runs && InTransaction(s.runs[t]) ==> s.lock == Some(t) && s.runs[t].pv == s.pv)
  }

  /** The file is in the sorted set, and every run that looked has seen it there. */
  ghost predicate Present(s: State) {
    s.score.Some? && forall t :: t in s.runs && s.runs[t].Checked? ==> s.runs[t].present
  }

  /** How far the sorted set will be from the table once everything owed has been added. */
  function Gap(s: State): int
    requires s.score.Some?
  {
    s.pv - s.score.value - |Owed(s)|
  }

  lemma OneMoves(runs: map<nat, Phase>, t: nat, p: Phase)
    ensures OwedBy(runs[t := p]) == if Owing(p) then OwedBy(runs) + {t} else OwedBy(runs) - {t}
  {}

  lemma OnlyOneMoves(s: State, t: nat, step: Step)
    requires Can(s, t, step)
    ensures var s' := Next(s, t, step);
      t in s'.runs && s'.runs == s.runs[t := s'.runs[t]]
      && (t in OwedBy(s.runs) <==> step.Check? || step.Publish?)
      && (Owing(s'.runs[t]) <==> step.Commit? || step.Check?)
  {}

  lemma OwedMoves(s: State, t: nat, step: Step)
    requires Can(s, t, step)
    ensures |Owed(Next(s, t, step))| == |Owed(s)| + if step.Commit? then 1 else if step.Publish? then -1 else 0
  {
    OnlyOneMoves(s, t, step);
    hide Next, Can, OwedBy, Owing;
    var p, owed := Next(s, t, step).runs[t], OwedBy(s.runs);
    OneMoves(s.runs, t, p);
    if t in owed {
      assert owed + {t} == owed;
    } else {
      assert owed - {t} == owed;
    }
  }

  lemma StepKeeps(s: State, t: nat, step: Step)
    requires Can(s, t, step) && Locked(s)
    ensures Locked(Next(s, t, step))
    ensures Present(s) ==> Present(Next(s, t, step)) && Gap(Next(s, t, step)) == Gap(s)
  {
    OwedMoves(s, t, step);
  }

  ghost predicate Run(s: State, steps: seq<(nat, Step)>, s': State)
    decreases |steps|
  {
    if steps == [] then s' == s
    else Can(s, steps[0].0, steps[0].1) && Run(Next(s, steps[0].0, steps[0].1), steps[1..], s')
  }

  /** Over every interleaving of any number of downloads of a file in the ranking, failed ones
      included, the score and what is owed to it stay as far from the table as they were. */
  lemma {:induction false} RunKeeps(s: State, steps: seq<(nat, Step)>, s': State)
    requires Run(s, steps, s') && Locked(s) && Present(s)
    ensures Locked(s') && Present(s') && Gap(s') == Gap(s)
    decreases |steps|
  {
    if steps != [] {
      StepKeeps(s, steps[0].0, steps[0].1);
      RunKeeps(Next(s, steps[0].0, steps[0].1), steps[1..], s');
    }
  }

  predicate Settled(s: State) { forall t :: t in s.runs ==> s.runs[t].Done? || s.runs[t].Failed? }

  function Commits(steps: seq<(nat, Step)>): nat {
    if steps == [] then 0 else (if steps[0].1.Commit? then 1 else 0) + Commits(steps[1..])
  }

  /** No download is lost: the row counts each committed run once. */
  lemma {:induction false} EachCounted(s: State, steps: seq<(nat, Step)>, s': State)
    requires Run(s, steps, s') && Locked(s)
    ensures s'.pv == s.pv + Commits(steps)
    decreases |steps|
  {
    if steps != [] {
      StepKeeps(s, steps[0].0, steps[0].1);
      EachCounted(Next(s, steps[0].0, steps[0].1), steps[1..], s');
    }
  }

  /** From a quiet start, the sorted set agrees with the table when all runs are over exactly if it
      did so at the start. */
  lemma QuietAgain(s: State, steps: seq<(nat, Step)>, s': State)
    requires s.runs == map[] && s.lock == None && s.score.Some?
    requires Run(s, steps, s') && Settled(s')
    ensures s'.score.Some? && s'.score.value == s.score.value + Commits(steps)
    ensures s'.score.value == s'.pv <==> s.score.value == s.pv
  {
    RunKeeps(s, steps, s');
    EachCounted(s, steps, s');
    assert Owed(s) == {} && Owed(s') == {};
  }

  lemma {:induction false} RunOn(s: State, steps: seq<(nat, Step)>, mid: State, more: seq<(nat, Step)>, s': State)
    requires Run(s, steps, mid) && Run(mid, more, s')
    ensures Run(s, steps + more, s')
    decreases |steps|
  {
    if steps == [] {
      assert steps + more == more;
    } else {
      RunOn(Next(s, steps[0].0, steps[0].1), steps[1..], mid, more, s');
      assert (steps + more)[1..] == steps[1..] + more;
    }
  }

  lemma OneMore(s: State, steps: seq<(nat, Step)>, mid: State, t: nat, step: Step)
    requires Run(s, steps, mid) && Can(mid, t, step)
    ensures Run(s, steps + [(t, step)], Next(mid, t, step))
  {
    assert [(t, step)][1..] == [];
    RunOn(s, steps, mid, [(t, step)], Next(mid, t, step));
  }

  function Download(t: nat): seq<(nat, Step)> { [(t, Arrive)] + [(t, Select)] + [(t, Update)] + [(t, Commit)] }

  /** The transaction of a run that nobody gets in the way of. */
  lemma Counts(s: State, t: nat)
    requires s.lock == None && t !in s.runs
    ensures Run(s, Download(t), s.(pv := s.pv + 1, runs := s.runs[t := Committed(s.pv)]))
  {
    var s1 := Next(s, t, Arrive);
    var s2 := Next(s1, t, Select);
    var s3 := Next(s2, t, Update);
    assert [] + [(t, Arrive)] == [(t, Arrive)];
    OneMore(s, [], s, t, Arrive);
    OneMore(s, [(t, Arrive)], s1, t, Select);
    OneMore(s, [(t, Arrive)] + [(t, Select)], s2, t, Update);
    OneMore(s, [(t, Arrive)] + [(t, Select)] + [(t, Update)], s3, t, Commit);
    assert Next(s3, t, Commit).runs == s.runs[t := Committed(s.pv)];
  }

  /** What one download alone does to the score: one more, or the row's value if there was none. */
  function ScoreAfter(s: State): int { if s.score.Some? then s.score.value + 1 else s.pv + 1 }

  function Whole(t: nat): seq<(nat, Step)> { Download(t) + [(t, Check)] + [(t, Publish)] }

  /** One download alone keeps the score right, and puts a missing file back. */
  lemma Alone(s: State, t: nat)
    requires s.lock == None && t !in s.runs
    ensures Run(s, Whole(t), State(s.pv + 1, Some(ScoreAfter(s)), None, s.runs[t := Done]))
    ensures ScoreAfter(s) == s.pv + 1 <==> s.score == None || s.score == Some(s.pv)
  {
    Counts(s, t);
    var s4 := s.(pv := s.pv + 1, runs := s.runs[t := Committed(s.pv)]);
    var s5 := Next(s4, t, Check);
    OneMore(s, Download(t), s4, t, Check);
    OneMore(s, Download(t) + [(t, Check)], s5, t, Publish);
    assert Next(s5, t, Publish).runs == s.runs[t := Done];
  }

  function Race(): seq<(nat, Step)> {
    Download(1) + Download(2) + [(1, Check)] + [(2, Check)] + [(2, Publish)] + [(1, Publish)]
  }

  lemma BothCounted(pv: int)
    ensures Run(State(pv, None, None, map[]), Download(1) + Download(2),
                State(pv + 2, None, None, map[1 := Committed(pv), 2 := Committed(pv + 1)]))
  {
    hide Run, Download;
    var s := State(pv, None, None, map[]);
    Counts(s, 1);
    var a := State(pv + 1, None, None, map[1 := Committed(pv)]);
    assert s.runs[1 := Committed(pv)] == map[1 := Committed(pv)];
    Counts(a, 2);
    var b := State(pv + 2, None, None, map[1 := Committed(pv), 2 := Committed(pv + 1)]);
    assert a.runs[2 := Committed(pv + 1)] == b.runs;
    RunOn(s, Download(1), a, Download(2), b);
  }

  lemma BothLook(pv: int, s: State, steps: seq<(nat, Step)>)
    requires Run(s, steps, State(pv + 2, None, None, map[1 := Committed(pv), 2 := Committed(pv + 1)]))
    ensures Run(s, steps + [(1, Check)] + [(2, Check)],
                State(pv + 2, None, None, map[1 := Checked(pv, false), 2 := Checked(pv + 1, false)]))
  {
    hide Run;
    var b := State(pv + 2, None, None, map[1 := Committed(pv), 2 := Committed(pv + 1)]);
    var c := State(pv + 2, None, None, map[1 := Checked(pv, false), 2 := Committed(pv + 1)]);
    assert Next(b, 1, Check).runs == c.runs;
    OneMore(s, steps, b, 1, Check);
    OneMore(s, steps + [(1, Check)], c, 2, Check);
    assert Next(c, 2, Check).runs == map[1 := Checked(pv, false), 2 := Checked(pv + 1, false)];
  }

  /** A file that is missing from the sorted set: two downloads can leave it there with one of them
      not counted, because the one that writes last may have the older value. */
  lemma MissingFileRace(pv: int)
    ensures var s' := State(pv + 2, Some(pv + 1), None, map[1 := Done, 2 := Done]);
      Run(State(pv, None, None, map[]), Race(), s') && Settled(s')
  {
    hide Run, Download;
    var s := State(pv, None, None, map[]);
    BothCounted(pv);
    BothLook(pv, s, Download(1) + Download(2));
    var d := State(pv + 2, None, None, map[1 := Checked(pv, false), 2 := Checked(pv + 1, false)]);
    var e := State(pv + 2, Some(pv + 2), None, map[1 := Checked(pv, false), 2 := Done]);
    assert Next(d, 2, Publish).runs == e.runs;
    OneMore(s, Download(1) + Download(2) + [(1, Check)] + [(2, Check)], d, 2, Publish);
    OneMore(s, Download(1) + Download(2) + [(1, Check)] + [(2, Check)] + [(2, Publish)], e, 1, Publish);
    assert Next(e, 1, Publish).runs == map[1 := Done, 2 := Done];
  }

  // ---------------------------------------------------------------- exactly when the score is right

  lemma {:induction false} CommitsOfBoth(a: seq<(nat, Step)>, b: seq<(nat, Step)>)
    ensures Commits(a + b) == Commits(a) + Commits(b)
  {
    if a == [] {
      assert a + b == b;
    } else {
      assert (a + b)[1..] == a[1..] + b;
      CommitsOfBoth(a[1..], b);
    }
  }

  lemma DownloadCommits(t: nat, more: seq<(nat, Step)>)
    ensures Commits(Download(t) + more) == 1 + Commits(more)
  {
    CommitsOfBoth(Download(t), more);
    CommitsOfBoth([(t, Arrive)] + [(t, Select)] + [(t, Update)], [(t, Commit)]);
    CommitsOfBoth([(t, Arrive)] + [(t, Select)], [(t, Update)]);
    CommitsOfBoth([(t, Arrive)], [(t, Select)]);
  }

  /** However many downloads there are and however they interleave, the score is right in the end. */
  ghost predicate Always(s: State) {
    forall steps: seq<(nat, Step)>, s' ::
      Run(s, steps, s') && Settled(s') && Commits(steps) > 0 ==> s'.score == Some(s'.pv)
  }

  lemma RaceCommits()
    ensures Commits(Race()) > 0
  {
    var more := Download(2) + [(1, Check)] + [(2, Check)] + [(2, Publish)] + [(1, Publish)];
    assert Race() == Download(1) + more;
    DownloadCommits(1, more);
  }

  lemma Fails(s: State, steps: seq<(nat, Step)>, s': State)
    requires Run(s, steps, s') && Settled(s') && Commits(steps) > 0 && s'.score != Some(s'.pv)
    ensures !Always(s)
  {
    hide Run, Settled, Commits;
  }

  lemma MissingFails(s: State)
    requires s.runs == map[] && s.lock == None && s.score == None
    ensures !Always(s)
  {
    hide Run, Always, Race, Commits;
    RaceCommits();
    MissingFileRace(s.pv);
    assert s == State(s.pv, None, None, map[]);
    Fails(s, Race(), State(s.pv + 2, Some(s.pv + 1), None, map[1 := Done, 2 := Done]));
  }

  lemma WrongFails(s: State)
    requires s.runs == map[] && s.lock == None && s.score.Some? && s.score.value != s.pv
    ensures !Always(s)
  {
    hide Run, Always, Commits, Download;
    Alone(s, 1);
    DownloadCommits(1, [(1, Check)] + [(1, Publish)]);
    assert Whole(1) == Download(1) + ([(1, Check)] + [(1, Publish)]);
    Fails(s, Whole(1), State(s.pv + 1, Some(ScoreAfter(s)), None, s.runs[1 := Done]));
  }

  /** That is so exactly if the file is in the sorted set, with the row's own value. */
  lemma AlwaysIff(s: State)
    requires s.runs == map[] && s.lock == None
    ensures Always(s) <==> s.score == Some(s.pv)
  {
    hide Run, Commits;
    if s.score == None {
      MissingFails(s);
    } else if s.score.value != s.pv {
      WrongFails(s);
    } else {
      forall steps: seq<(nat, Step)>, s' | Run(s, steps, s') && Settled(s') ensures s'.score == Some(s'.pv) {
        QuietAgain(s, steps, s');
      }
    }
  }
}
