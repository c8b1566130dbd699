/** Tag limits over whole runs of racing claims: what holds, under conditions on the run alone, and
    the runs in which the code exceeds a limit. */
module ClaimRaceRuns {
  import opened ClaimRace

  function Max0(n: int): nat { if n > 0 then n else 0 }

  /** No job of the tag is claimed without checks in the run. */
  predicate GatedRun(l: Limits, s: State, actions: seq<Action>, tag: Tag)
    decreases |actions|
  {
    actions != [] ==> !Ungates(s, actions[0], tag) && GatedRun(l, Step(l, s, actions[0]), actions[1..], tag)
  }

  lemma StartIsSafe(l: Limits, tag: Tag)
    ensures Inv(l, START, tag)
  {
    assert RunningWith(START.db, tag) == {};
    forall lo ensures RateKept(l, START.db, tag, lo) {
      if RateLimited(l, tag) { assert Starts(START.db, tag, lo, lo + l.rates[tag].value.window) == {}; }
    }
  }

  lemma {:induction false} RunKeeps(l: Limits, s: State, actions: seq<Action>, tag: Tag)
    requires Inv(l, s, tag) && GatedRun(l, s, actions, tag)
    ensures Inv(l, Run(l, s, actions), tag)
    decreases |actions|
  {
    if actions != [] {
      StepKeeps(l, s, actions[0], tag);
      RunKeeps(l, Step(l, s, actions[0]), actions[1..], tag);
    }
  }

  // ---------------------------------------------------------------------------------
  // Concurrency
  // ---------------------------------------------------------------------------------

  /** The jobs of a tag that are executing: those with an open attempt. */
  function OpenWith(db: DB, tag: Tag): set<JobId> {
    set j | j in db.jobs && tag in db.jobs[j].tags && HasOpen(db, j)
  }

  /** Those among them that are marked as shutting down while their body still runs. */
  function ShuttingDownWith(db: DB, tag: Tag): set<JobId> {
    set j | j in OpenWith(db, tag) && db.jobs[j].stored == ShuttingDown
  }

  lemma OpenIsRunningOrShuttingDown(db: DB, tag: Tag)
    requires RowsGood(db)
    ensures OpenWith(db, tag) == RunningWith(db, tag) + ShuttingDownWith(db, tag)
    ensures |OpenWith(db, tag)| <= |RunningWith(db, tag)| + |ShuttingDownWith(db, tag)|
  {
    assert OpenWith(db, tag) == RunningWith(db, tag) + ShuttingDownWith(db, tag);
  }

  /** In every run in which no job of the tag is claimed without checks: no job has two open attempts,
      and the jobs of the tag that execute exceed its limit by at most those that are shutting
      down; so they do not exceed it while none is. A limit of zero or less admits none. */
  lemma ReachableWithinConcurrency(l: Limits, actions: seq<Action>, tag: Tag)
    requires GatedRun(l, START, actions, tag)
    ensures var db := Run(l, START, actions).db;
            && OneOpen(db)
            && (tag in l.concurrency ==>
                  |OpenWith(db, tag)| <= Max0(l.concurrency[tag]) + |ShuttingDownWith(db, tag)|)
  {
    StartIsSafe(l, tag);
    RunKeeps(l, START, actions, tag);
    OpenIsRunningOrShuttingDown(Run(l, START, actions).db, tag);
  }

  // ---------------------------------------------------------------------------------
  // Rates
  // ---------------------------------------------------------------------------------

  /** Every start with a tag in a closed window. */
  function AllStarts(db: DB, tag: Tag, lo: Time, hi: Time): set<int> {
    set i | 0 <= i < |db.attempts| && Carries(db, db.attempts[i].job, tag) && lo <= db.attempts[i].claimedAt <= hi
  }

  function DroppedStarts(db: DB, tag: Tag, lo: Time, hi: Time): set<int> {
    set i | i in AllStarts(db, tag, lo, hi) && db.attempts[i].dropped
  }

  /** In every run in which no job of the tag is claimed without checks, any window holds at most
      `count` starts beyond those that were dropped from the count. */
  lemma ReachableWithinRate(l: Limits, actions: seq<Action>, tag: Tag, lo: Time)
    requires RateLimited(l, tag) && GatedRun(l, START, actions, tag)
    ensures var db := Run(l, START, actions).db;
            var hi := lo + l.rates[tag].value.window;
            |AllStarts(db, tag, lo, hi)| <= Max0(l.rates[tag].value.count) + |DroppedStarts(db, tag, lo, hi)|
  {
    StartIsSafe(l, tag);
    RunKeeps(l, START, actions, tag);
    var db := Run(l, START, actions).db;
    var hi := lo + l.rates[tag].value.window;
    assert RateKept(l, db, tag, lo);
    assert AllStarts(db, tag, lo, hi) == Starts(db, tag, lo, hi) + DroppedStarts(db, tag, lo, hi);
  }

  /** The steps after which a start is no longer counted: the job is archived for its retry, its attempt
      is abandoned, or it is marked as shutting down. */
  predicate TakesOutOfCount(a: Action, job: JobId) {
    a == Finish(job, Archived) || a == Release(job) || a == ShutDown(job)
  }

  lemma CountedSurvives(a: DB, b: DB, i: int)
    requires Counted(a, i) && |b.attempts| == |a.attempts|
    requires forall k :: 0 <= k < |a.attempts| ==> b.attempts[k].job == a.attempts[k].job
    requires a.attempts[i].job in b.jobs && CountsAsStarted(Shown(b, a.attempts[i].job))
    ensures Counted(b, i)
  {
  }

  lemma FinishDrops(l: Limits, s: State, job: JobId, status: Status, i: int)
    requires RowsGood(s.db) && 0 <= i < |s.db.attempts| && !s.db.attempts[i].dropped
    requires Step(l, s, Finish(job, status)).db.attempts[i].dropped
    ensures status == Archived && job == s.db.attempts[i].job
  {
    var written := s.db.(jobs := s.db.jobs[job := s.db.jobs[job].(stored := status)]);
    var closed := CloseAll(written, job);
    var own := s.db.attempts[i].job;
    assert Counted(s.db, i);
    CloseAllOpens(written, job, own);
    SameOpen(s.db, written, own);
    if own != job || status != Archived {
      CountedSurvives(s.db, closed, i);
    }
  }

  lemma ReleaseDrops(l: Limits, s: State, job: JobId, i: int)
    requires RowsGood(s.db) && 0 <= i < |s.db.attempts| && !s.db.attempts[i].dropped
    requires Step(l, s, Release(job)).db.attempts[i].dropped
    ensures job == s.db.attempts[i].job
  {
    var own := s.db.attempts[i].job;
    assert Counted(s.db, i);
    CloseAllOpens(s.db, job, own);
    if own != job {
      CountedSurvives(s.db, CloseAll(s.db, job), i);
    }
  }

  lemma ShutDownDrops(l: Limits, s: State, job: JobId, i: int)
    requires RowsGood(s.db) && 0 <= i < |s.db.attempts| && !s.db.attempts[i].dropped
    requires Step(l, s, ShutDown(job)).db.attempts[i].dropped
    ensures job == s.db.attempts[i].job
  {
    var written := s.db.(jobs := s.db.jobs[job := s.db.jobs[job].(stored := ShuttingDown)]);
    var own := s.db.attempts[i].job;
    assert Counted(s.db, i);
    SameOpen(s.db, written, own);
    if own != job {
      CountedSurvives(s.db, written, i);
    }
  }

  /** A start is dropped from the count only by one of those steps on its own job. */
  lemma DroppedOnlyBy(l: Limits, s: State, a: Action, i: int)
    requires RowsGood(s.db) && 0 <= i < |s.db.attempts| && !s.db.attempts[i].dropped
    ensures i < |Step(l, s, a).db.attempts| && Step(l, s, a).db.attempts[i].job == s.db.attempts[i].job
    ensures Step(l, s, a).db.attempts[i].dropped ==> TakesOutOfCount(a, s.db.attempts[i].job)
  {
    if Step(l, s, a).db.attempts[i].dropped {
      match a
      case Finish(job, status) => FinishDrops(l, s, job, status, i);
      case Release(job) => ReleaseDrops(l, s, job, i);
      case ShutDown(job) => ShutDownDrops(l, s, job, i);
      case _ =>
    }
  }

  predicate Started(db: DB, job: JobId) {
    exists i :: 0 <= i < |db.attempts| && db.attempts[i].job == job
  }

  /** The run takes no started job of the tag out of the count. */
  predicate CalmRun(l: Limits, s: State, actions: seq<Action>, tag: Tag)
    decreases |actions|
  {
    actions != [] ==>
      && (forall j :: j in s.db.jobs && tag in s.db.jobs[j].tags && Started(s.db, j) ==> !TakesOutOfCount(actions[0], j))
      && CalmRun(l, Step(l, s, actions[0]), actions[1..], tag)
  }

  ghost predicate NoneDropped(db: DB, tag: Tag) {
    forall i :: 0 <= i < |db.attempts| && Carries(db, db.attempts[i].job, tag) ==> !db.attempts[i].dropped
  }

  lemma TagsAreFixed(l: Limits, s: State, a: Action, j: JobId)
    requires j in s.db.jobs
    ensures j in Step(l, s, a).db.jobs && Step(l, s, a).db.jobs[j].tags == s.db.jobs[j].tags
  {
  }

  lemma NewAttemptsAreCounted(l: Limits, s: State, a: Action, i: int)
    requires |s.db.attempts| <= i < |Step(l, s, a).db.attempts|
    ensures !Step(l, s, a).db.attempts[i].dropped
  {
  }

  lemma CalmStep(l: Limits, s: State, a: Action, tag: Tag)
    requires RowsGood(s.db) && NoneDropped(s.db, tag)
    requires forall j :: j in s.db.jobs && tag in s.db.jobs[j].tags && Started(s.db, j) ==> !TakesOutOfCount(a, j)
    ensures NoneDropped(Step(l, s, a).db, tag)
  {
    var b := Step(l, s, a).db;
    forall i | 0 <= i < |b.attempts| && Carries(b, b.attempts[i].job, tag) ensures !b.attempts[i].dropped {
      if i < |s.db.attempts| {
        var j := s.db.attempts[i].job;
        assert j in s.db.jobs && Started(s.db, j);
        TagsAreFixed(l, s, a, j);
        if !s.db.attempts[i].dropped {
          DroppedOnlyBy(l, s, a, i);
        } else {
          AttemptsKeepJobs(l, s, a, i);
        }
      } else {
        NewAttemptsAreCounted(l, s, a, i);
      }
    }
  }

  lemma AttemptsKeepJobs(l: Limits, s: State, a: Action, i: int)
    requires 0 <= i < |s.db.attempts|
    ensures i < |Step(l, s, a).db.attempts| && Step(l, s, a).db.attempts[i].job == s.db.attempts[i].job
  {
  }

  lemma {:induction false} CalmRunDropsNothing(l: Limits, s: State, actions: seq<Action>, tag: Tag)
    requires Inv(l, s, tag) && GatedRun(l, s, actions, tag) && CalmRun(l, s, actions, tag) && NoneDropped(s.db, tag)
    ensures NoneDropped(Run(l, s, actions).db, tag)
    decreases |actions|
  {
    if actions != [] {
      StepKeeps(l, s, actions[0], tag);
      CalmStep(l, s, actions[0], tag);
      CalmRunDropsNothing(l, Step(l, s, actions[0]), actions[1..], tag);
    }
  }

  /** The sliding window as promised: in every run that claims no job of the tag without checks and
      archives, abandons and shuts down none that was started, no window ever holds more than `count`
      starts. */
  lemma CalmRunsKeepTheRate(l: Limits, actions: seq<Action>, tag: Tag, lo: Time)
    requires RateLimited(l, tag) && GatedRun(l, START, actions, tag) && CalmRun(l, START, actions, tag)
    ensures |AllStarts(Run(l, START, actions).db, tag, lo, lo + l.rates[tag].value.window)| <= Max0(l.rates[tag].value.count)
  {
    StartIsSafe(l, tag);
    CalmRunDropsNothing(l, START, actions, tag);
    var db := Run(l, START, actions).db;
    assert DroppedStarts(db, tag, lo, lo + l.rates[tag].value.window) == {};
    ReachableWithinRate(l, actions, tag, lo);
  }
}
