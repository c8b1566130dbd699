/** Runs in which the code exceeds a tag limit, for every limit: by a shutdown, by a start taken out of
    the count, and by a claim that applies no checks. */
module ClaimRaceWitnesses {
  import opened ClaimRace
  import opened ClaimRaceRuns

  // ---------------------------------------------------------------------------------
  // Reachability by gated runs
  // ---------------------------------------------------------------------------------

  /** Some run that claims no job of the tag without checks leads from one state to the other. */
  ghost predicate Reaches(l: Limits, s: State, s': State, tag: Tag) {
    exists actions :: Run(l, s, actions) == s' && GatedRun(l, s, actions, tag)
  }

  lemma {:induction false} RunAppend(l: Limits, s: State, xs: seq<Action>, ys: seq<Action>, tag: Tag)
    requires GatedRun(l, s, xs, tag)
    ensures Run(l, s, xs + ys) == Run(l, Run(l, s, xs), ys)
    ensures GatedRun(l, Run(l, s, xs), ys, tag) ==> GatedRun(l, s, xs + ys, tag)
    decreases |xs|
  {
    if xs == [] {
      assert xs + ys == ys;
    } else {
      assert (xs + ys)[0] == xs[0] && (xs + ys)[1..] == xs[1..] + ys;
      RunAppend(l, Step(l, s, xs[0]), xs[1..], ys, tag);
    }
  }

  lemma ReachesItself(l: Limits, s: State, tag: Tag)
    ensures Reaches(l, s, s, tag)
  {
    assert Run(l, s, []) == s && GatedRun(l, s, [], tag);
  }

  lemma ReachesByStep(l: Limits, s: State, mid: State, a: Action, tag: Tag)
    requires Reaches(l, s, mid, tag) && !Ungates(mid, a, tag)
    ensures Reaches(l, s, Step(l, mid, a), tag)
  {
    var xs :| Run(l, s, xs) == mid && GatedRun(l, s, xs, tag);
    assert [a][1..] == [];
    assert GatedRun(l, Step(l, mid, a), [], tag) && Run(l, mid, [a]) == Run(l, Step(l, mid, a), []);
    RunAppend(l, s, xs, [a], tag);
    assert Run(l, s, xs + [a]) == Step(l, mid, a);
  }

  // ---------------------------------------------------------------------------------
  // One gated claim
  // ---------------------------------------------------------------------------------

  function PassedConcurrency(l: Limits, tag: Tag): set<Tag> { if tag in l.concurrency then {tag} else {} }

  function PassedRate(l: Limits, tag: Tag, now: Time): map<Tag, Time> {
    if RateLimited(l, tag) then map[tag := now] else map[]
  }

  /** The job may be claimed now, with its one tag below every limit it has. */
  predicate Fits(l: Limits, db: DB, job: JobId, tag: Tag, now: Time) {
    && job in db.jobs && db.jobs[job] == Job({tag}, Queued) && !HasOpen(db, job)
    && (tag in l.concurrency ==> |RunningWith(db, tag)| < l.concurrency[tag])
    && (RateLimited(l, tag) ==> |StartedWith(db, tag, now - l.rates[tag].value.window)| < l.rates[tag].value.count)
  }

  lemma ClaimerConsiders(l: Limits, s: State, db: DB, job: JobId, tag: Tag)
    requires Reaches(l, s, State(db, map[]), tag) && job in db.jobs && db.jobs[job].tags == {tag}
    ensures Reaches(l, s, State(db, map[0 := Tx({tag}, None, Checking(job, {}, map[]))]), tag)
  {
    var s0 := State(db, map[]);
    var s1 := State(db, map[0 := Tx({}, None, Scanning)]);
    assert Step(l, s0, Begin(0)) == s1;
    ReachesByStep(l, s, s0, Begin(0), tag);
    var s2 := State(db, map[0 := Tx({tag}, None, Scanning)]);
    assert {} + {tag} == {tag};
    assert s1.txs[0].(locks := s1.txs[0].locks + {tag}) == s2.txs[0];
    assert Step(l, s1, LockTags(0, {tag})) == s2;
    ReachesByStep(l, s, s1, LockTags(0, {tag}), tag);
    assert Step(l, s2, Consider(0, job)) == State(db, map[0 := Tx({tag}, None, Checking(job, {}, map[]))]);
    ReachesByStep(l, s, s2, Consider(0, job), tag);
  }

  lemma ClaimerChecks(l: Limits, s: State, db: DB, job: JobId, tag: Tag, now: Time)
    requires Reaches(l, s, State(db, map[]), tag) && Fits(l, db, job, tag, now)
    ensures Reaches(l, s, State(db, map[0 := Tx({tag}, None, Checking(job, PassedConcurrency(l, tag), PassedRate(l, tag, now)))]), tag)
  {
    ClaimerConsiders(l, s, db, job, tag);
    var s3 := State(db, map[0 := Tx({tag}, None, Checking(job, {}, map[]))]);
    var s4 := State(db, map[0 := Tx({tag}, None, Checking(job, PassedConcurrency(l, tag), map[]))]);
    assert {} + {tag} == {tag};
    assert Step(l, s3, CheckConcurrency(0, tag)) == s4;
    ReachesByStep(l, s, s3, CheckConcurrency(0, tag), tag);
    var s5 := State(db, map[0 := Tx({tag}, None, Checking(job, PassedConcurrency(l, tag), PassedRate(l, tag, now)))]);
    assert Step(l, s4, CheckRate(0, tag, now)) == s5;
    ReachesByStep(l, s, s4, CheckRate(0, tag, now), tag);
  }

  lemma ClaimerInserts(l: Limits, s: State, db: DB, job: JobId, tag: Tag, now: Time)
    requires Reaches(l, s, State(db, map[]), tag) && Fits(l, db, job, tag, now)
    ensures Reaches(l, s, State(db, map[0 := Tx({tag}, Some(job), Inserted(job, PassedConcurrency(l, tag), PassedRate(l, tag, now), now))]), tag)
  {
    ClaimerChecks(l, s, db, job, tag, now);
    var conc, rate := PassedConcurrency(l, tag), PassedRate(l, tag, now);
    var s5 := State(db, map[0 := Tx({tag}, None, Checking(job, conc, rate))]);
    var s6 := State(db, map[0 := Tx({tag}, Some(job), Checking(job, conc, rate))]);
    assert Step(l, s5, LockRow(0)) == s6;
    ReachesByStep(l, s, s5, LockRow(0), tag);
    assert Step(l, s6, Insert(0, now)) == State(db, map[0 := Tx({tag}, Some(job), Inserted(job, conc, rate, now))]);
    ReachesByStep(l, s, s6, Insert(0, now), tag);
  }

  lemma ClaimerCommits(l: Limits, s: State, db: DB, job: JobId, tag: Tag, now: Time)
    requires Reaches(l, s, State(db, map[]), tag) && Fits(l, db, job, tag, now)
    ensures Reaches(l, s, State(WithAttempt(db, job, now), map[]), tag)
  {
    ClaimerInserts(l, s, db, job, tag, now);
    var s7 := State(db, map[0 := Tx({tag}, Some(job), Inserted(job, PassedConcurrency(l, tag), PassedRate(l, tag, now), now))]);
    assert s7.txs - {0} == map[];
    assert Step(l, s7, Commit(0)) == State(WithAttempt(db, job, now), map[]);
    ReachesByStep(l, s, s7, Commit(0), tag);
  }

  // ---------------------------------------------------------------------------------
  // A tag filled to its limit
  // ---------------------------------------------------------------------------------

  predicate Below(i: int, n: nat) { 0 <= i < n }

  function UpTo(n: nat): set<int> { set i | 0 <= i < n && Below(i, n) }

  lemma {:induction false} UpToSize(n: nat)
    ensures |UpTo(n)| == n
  {
    if n > 0 {
      UpToSize(n - 1);
      assert UpTo(n) == UpTo(n - 1) + {n - 1};
    }
  }

  /** `n` jobs of the tag run, all claimed at `t`. */
  function FullDB(tag: Tag, n: nat, t: Time): DB {
    DB(map j | j in UpTo(n) :: Job({tag}, Queued), seq(n, i => Attempt(i, t, true, false)))
  }

  function Enqueued(db: DB, job: JobId, tag: Tag): DB {
    db.(jobs := db.jobs[job := Job({tag}, Queued)])
  }

  /** The limits of the tag admit `n` jobs. */
  predicate Admits(l: Limits, tag: Tag, n: int) {
    (tag in l.concurrency ==> n <= l.concurrency[tag]) && (RateLimited(l, tag) ==> n <= l.rates[tag].value.count)
  }

  /** The jobs counted as running or as started are among `jobs`. */
  lemma FitsAmong(l: Limits, db: DB, job: JobId, tag: Tag, now: Time, jobs: set<JobId>, n: nat)
    requires job in db.jobs && db.jobs[job] == Job({tag}, Queued) && !HasOpen(db, job)
    requires forall j :: j in db.jobs && CountsAsStarted(Shown(db, j)) ==> j in jobs
    requires |jobs| < n && Admits(l, tag, n)
    ensures Fits(l, db, job, tag, now)
  {
    assert RunningWith(db, tag) <= jobs;
    SubsetCard(RunningWith(db, tag), jobs);
    if RateLimited(l, tag) {
      var started := StartedWith(db, tag, now - l.rates[tag].value.window);
      assert started <= jobs;
      SubsetCard(started, jobs);
    }
  }

  /** Jobs 0 .. n-1 exist with the tag, each with one attempt, claimed at `t`. */
  ghost predicate Shaped(db: DB, tag: Tag, n: nat, t: Time) {
    && db.jobs.Keys == UpTo(n) && (forall j :: j in db.jobs ==> db.jobs[j].tags == {tag})
    && |db.attempts| == n && forall i :: 0 <= i < n ==> db.attempts[i].job == i && db.attempts[i].claimedAt == t
  }

  lemma EnqueueOpens(db: DB, job: JobId, tag: Tag, j: JobId)
    ensures HasOpen(Enqueued(db, job, tag), j) <==> HasOpen(db, j)
  {
    SameOpen(db, Enqueued(db, job, tag), j);
  }

  /** One more job is enqueued and claimed while fewer than `n` of those there count. */
  lemma NewcomerClaimed(l: Limits, s: State, db: DB, tag: Tag, n: nat, t: Time, now: Time, jobs: set<JobId>, bound: nat)
    requires Reaches(l, s, State(db, map[]), tag) && Shaped(db, tag, n, t)
    requires forall j :: j in db.jobs && CountsAsStarted(Shown(db, j)) ==> j in jobs
    requires |jobs| < bound && Admits(l, tag, bound)
    ensures Reaches(l, s, State(WithAttempt(Enqueued(db, n, tag), n, now), map[]), tag)
  {
    var queued := Enqueued(db, n, tag);
    assert n !in UpTo(n);
    assert Step(l, State(db, map[]), Enqueue(n, {tag})) == State(queued, map[]);
    ReachesByStep(l, s, State(db, map[]), Enqueue(n, {tag}), tag);
    forall j ensures HasOpen(queued, j) <==> HasOpen(db, j) { EnqueueOpens(db, n, tag, j); }
    assert !HasOpen(db, n);
    forall j | j in queued.jobs && CountsAsStarted(Shown(queued, j)) ensures j in jobs {
      assert j != n;
      assert Shown(queued, j) == Shown(db, j);
    }
    FitsAmong(l, queued, n, tag, now, jobs, bound);
    ClaimerCommits(l, s, queued, n, tag, now);
  }

  lemma FullIsShaped(tag: Tag, n: nat, t: Time)
    ensures Shaped(FullDB(tag, n, t), tag, n, t)
    ensures forall j :: HasOpen(FullDB(tag, n, t), j) <==> 0 <= j < n
  {
    var db := FullDB(tag, n, t);
    forall j ensures HasOpen(db, j) <==> 0 <= j < n {
      if 0 <= j < n { assert OpenAt(db, j, j); }
    }
  }

  lemma FullGrows(tag: Tag, n: nat, t: Time)
    ensures WithAttempt(Enqueued(FullDB(tag, n, t), n, tag), n, t) == FullDB(tag, n + 1, t)
  {
    var grown, full := WithAttempt(Enqueued(FullDB(tag, n, t), n, tag), n, t), FullDB(tag, n + 1, t);
    assert UpTo(n + 1) == UpTo(n) + {n};
    assert grown.jobs == full.jobs;
    assert grown.attempts == full.attempts;
  }

  lemma FullTakesOneMore(l: Limits, tag: Tag, n: nat, t: Time)
    requires Admits(l, tag, n + 1) && Reaches(l, START, State(FullDB(tag, n, t), map[]), tag)
    ensures Reaches(l, START, State(FullDB(tag, n + 1, t), map[]), tag)
  {
    FullIsShaped(tag, n, t);
    UpToSize(n);
    NewcomerClaimed(l, START, FullDB(tag, n, t), tag, n, t, t, UpTo(n), n + 1);
    FullGrows(tag, n, t);
  }

  lemma {:induction false} TagFills(l: Limits, tag: Tag, n: nat, t: Time)
    requires Admits(l, tag, n)
    ensures Reaches(l, START, State(FullDB(tag, n, t), map[]), tag)
  {
    if n == 0 {
      assert FullDB(tag, 0, t) == START.db;
      ReachesItself(l, START, tag);
    } else {
      TagFills(l, tag, n - 1, t);
      FullTakesOneMore(l, tag, n - 1, t);
    }
  }

  // ---------------------------------------------------------------------------------
  // Taking a start out of the count
  // ---------------------------------------------------------------------------------

  datatype How = ByShutDown | ByRelease | ByArchive

  /** The rows after job 0 of a full tag is shut down, abandoned, or failed and archived. */
  function Loosened(tag: Tag, n: nat, t: Time, how: How): DB
    requires n >= 1
  {
    var db := FullDB(tag, n, t);
    match how
    case ByShutDown => MarkDropped(db.(jobs := db.jobs[0 := Job({tag}, ShuttingDown)]))
    case ByRelease => MarkDropped(CloseAll(db, 0))
    case ByArchive =>
      var failed := MarkDropped(CloseAll(db.(jobs := db.jobs[0 := Job({tag}, Failed)]), 0));
      MarkDropped(CloseAll(failed.(jobs := failed.jobs[0 := Job({tag}, Archived)]), 0))
  }

  lemma ArchivedIsReached(l: Limits, tag: Tag, n: nat, t: Time)
    requires n >= 1 && Reaches(l, START, State(FullDB(tag, n, t), map[]), tag)
    ensures Reaches(l, START, State(Loosened(tag, n, t, ByArchive), map[]), tag)
  {
    var s := State(FullDB(tag, n, t), map[]);
    assert 0 in s.db.jobs && s.db.jobs[0] == Job({tag}, Queued);
    var failed := Step(l, s, Finish(0, Failed));
    ReachesByStep(l, START, s, Finish(0, Failed), tag);
    assert failed.db.jobs[0] == Job({tag}, Failed) && failed.txs == map[];
    assert Step(l, failed, Finish(0, Archived)) == State(Loosened(tag, n, t, ByArchive), map[]);
    ReachesByStep(l, START, failed, Finish(0, Archived), tag);
  }

  lemma LoosenedIsReached(l: Limits, tag: Tag, n: nat, t: Time, how: How)
    requires n >= 1 && Admits(l, tag, n)
    ensures Reaches(l, START, State(Loosened(tag, n, t, how), map[]), tag)
  {
    TagFills(l, tag, n, t);
    var s := State(FullDB(tag, n, t), map[]);
    assert 0 in s.db.jobs && s.db.jobs[0] == Job({tag}, Queued);
    match how
    case ByShutDown =>
      assert Step(l, s, ShutDown(0)) == State(Loosened(tag, n, t, how), map[]);
      ReachesByStep(l, START, s, ShutDown(0), tag);
    case ByRelease =>
      assert Step(l, s, Release(0)) == State(Loosened(tag, n, t, how), map[]);
      ReachesByStep(l, START, s, Release(0), tag);
    case ByArchive => ArchivedIsReached(l, tag, n, t);
  }

  /** Job 0 is no longer counted; after a shutdown it still executes. */
  lemma LoosenedShape(tag: Tag, n: nat, t: Time, how: How)
    requires n >= 1
    ensures var db := Loosened(tag, n, t, how);
            Shaped(db, tag, n, t) && !CountsAsStarted(Shown(db, 0)) && (how == ByShutDown ==> forall j :: 0 <= j < n ==> HasOpen(db, j))
  {
    var db := Loosened(tag, n, t, how);
    FullIsShaped(tag, n, t);
    if how == ByShutDown {
      forall j | 0 <= j < n ensures HasOpen(db, j) { assert OpenAt(db, j, j); }
    }
  }

  /** The rows once one more job was claimed in its place. */
  function Overfull(tag: Tag, n: nat, t: Time, how: How, now: Time): DB
    requires n >= 1
  {
    WithAttempt(Enqueued(Loosened(tag, n, t, how), n, tag), n, now)
  }

  lemma OverfullIsReached(l: Limits, tag: Tag, n: nat, t: Time, how: How, now: Time)
    requires n >= 1 && Admits(l, tag, n)
    ensures Reaches(l, START, State(Overfull(tag, n, t, how, now), map[]), tag)
  {
    var db := Loosened(tag, n, t, how);
    LoosenedIsReached(l, tag, n, t, how);
    LoosenedShape(tag, n, t, how);
    UpToSize(n);
    assert 0 in UpTo(n);
    assert |UpTo(n) - {0}| == n - 1;
    NewcomerClaimed(l, START, db, tag, n, t, now, UpTo(n) - {0}, n);
  }

  /** A shaped table with one more job claimed holds one start more. */
  lemma StartsOfShaped(db: DB, tag: Tag, n: nat, t: Time, now: Time, lo: Time, hi: Time)
    requires Shaped(db, tag, n, t) && lo <= t <= hi && lo <= now <= hi
    ensures |AllStarts(WithAttempt(Enqueued(db, n, tag), n, now), tag, lo, hi)| == n + 1
  {
    var after := WithAttempt(Enqueued(db, n, tag), n, now);
    forall i | 0 <= i < n + 1 ensures i in AllStarts(after, tag, lo, hi) {
      assert i < n ==> i in db.jobs;
    }
    assert AllStarts(after, tag, lo, hi) == UpTo(n + 1);
    UpToSize(n + 1);
  }

  lemma OpenOfShaped(db: DB, tag: Tag, n: nat, t: Time, now: Time)
    requires Shaped(db, tag, n, t) && forall j :: 0 <= j < n ==> HasOpen(db, j)
    ensures |OpenWith(WithAttempt(Enqueued(db, n, tag), n, now), tag)| == n + 1
  {
    var queued := Enqueued(db, n, tag);
    var after := WithAttempt(queued, n, now);
    forall j | 0 <= j < n + 1 ensures j in OpenWith(after, tag) {
      EnqueueOpens(db, n, tag, j);
      CommitOpens(queued, n, now, j);
      assert j < n ==> j in db.jobs;
    }
    assert OpenWith(after, tag) == UpTo(n + 1);
    UpToSize(n + 1);
  }

  // ---------------------------------------------------------------------------------
  // The witnesses
  // ---------------------------------------------------------------------------------

  lemma OverfullStarts(tag: Tag, n: nat, t: Time, how: How, now: Time, lo: Time, hi: Time)
    requires n >= 1 && lo <= t <= hi && lo <= now <= hi
    ensures |AllStarts(Overfull(tag, n, t, how, now), tag, lo, hi)| == n + 1
  {
    LoosenedShape(tag, n, t, how);
    StartsOfShaped(Loosened(tag, n, t, how), tag, n, t, now, lo, hi);
  }

  lemma OverfullOpen(tag: Tag, n: nat, t: Time, now: Time)
    requires n >= 1
    ensures |OpenWith(Overfull(tag, n, t, ByShutDown, now), tag)| == n + 1
  {
    LoosenedShape(tag, n, t, ByShutDown);
    OpenOfShaped(Loosened(tag, n, t, ByShutDown), tag, n, t, now);
  }

  lemma ReachedOpen(l: Limits, db: DB, tag: Tag, k: nat)
    requires Reaches(l, START, State(db, map[]), tag) && |OpenWith(db, tag)| == k
    ensures exists actions :: GatedRun(l, START, actions, tag) && |OpenWith(Run(l, START, actions).db, tag)| == k
  {
    var actions :| Run(l, START, actions) == State(db, map[]) && GatedRun(l, START, actions, tag);
    assert Run(l, START, actions).db == db;
  }

  lemma ReachedStarts(l: Limits, db: DB, tag: Tag, lo: Time, hi: Time, k: nat)
    requires Reaches(l, START, State(db, map[]), tag) && |AllStarts(db, tag, lo, hi)| == k
    ensures exists actions :: GatedRun(l, START, actions, tag) && |AllStarts(Run(l, START, actions).db, tag, lo, hi)| == k
  {
    var actions :| Run(l, START, actions) == State(db, map[]) && GatedRun(l, START, actions, tag);
    assert Run(l, START, actions).db == db;
  }

  /** For every concurrency limit of at least one, a run of gated claims with one job more executing: a
      job that is shutting down still runs but is not counted. */
  lemma ShutDownExceedsConcurrency(l: Limits, tag: Tag, t: Time)
    requires tag in l.concurrency && l.concurrency[tag] >= 1 && Admits(l, tag, l.concurrency[tag])
    ensures exists actions :: GatedRun(l, START, actions, tag) && |OpenWith(Run(l, START, actions).db, tag)| == l.concurrency[tag] + 1
  {
    var n := l.concurrency[tag];
    OverfullIsReached(l, tag, n, t, ByShutDown, t);
    OverfullOpen(tag, n, t, t);
    ReachedOpen(l, Overfull(tag, n, t, ByShutDown, t), tag, n + 1);
  }

  /** For every rate of at least one start per window, and each way of taking a start out of the count, a
      run of gated claims with one start more in a window. */
  lemma DroppedStartExceedsRate(l: Limits, tag: Tag, how: How, t: Time, now: Time)
    requires RateLimited(l, tag) && l.rates[tag].value.count >= 1 && Admits(l, tag, l.rates[tag].value.count)
    requires t <= now <= t + l.rates[tag].value.window
    ensures exists actions :: GatedRun(l, START, actions, tag) &&
              |AllStarts(Run(l, START, actions).db, tag, t, t + l.rates[tag].value.window)| == l.rates[tag].value.count + 1
  {
    var n, hi := l.rates[tag].value.count, t + l.rates[tag].value.window;
    OverfullIsReached(l, tag, n, t, how, now);
    OverfullStarts(tag, n, t, how, now, t, hi);
    ReachedStarts(l, Overfull(tag, n, t, how, now), tag, t, hi, n + 1);
  }

  /** After any gated run, a claim without checks takes an idle queued job. */
  lemma DirectClaimTaken(l: Limits, db: DB, job: JobId, tag: Tag, now: Time)
    requires Reaches(l, START, State(db, map[]), tag)
    requires job in db.jobs && db.jobs[job].stored == Queued && !HasOpen(db, job)
    ensures exists actions :: Run(l, START, actions).db == WithAttempt(db, job, now)
  {
    var s := State(db, map[]);
    var actions :| Run(l, START, actions) == s && GatedRun(l, START, actions, tag);
    RunAppend(l, START, actions, [ClaimDirect(job, now)], tag);
    assert Step(l, s, ClaimDirect(job, now)) == State(WithAttempt(db, job, now), map[]);
    assert [ClaimDirect(job, now)][1..] == [];
    assert Run(l, s, [ClaimDirect(job, now)]) == Run(l, State(WithAttempt(db, job, now), map[]), []);
    assert Run(l, START, actions + [ClaimDirect(job, now)]).db == WithAttempt(db, job, now);
  }

  /** For every number of jobs the limits admit, one claim without checks goes beyond it, in jobs that
      execute and in starts of the window. */
  lemma DirectClaimExceedsLimits(l: Limits, tag: Tag, n: nat, t: Time, hi: Time)
    requires Admits(l, tag, n) && t <= hi
    ensures exists actions ::
      |OpenWith(Run(l, START, actions).db, tag)| == n + 1 && |AllStarts(Run(l, START, actions).db, tag, t, hi)| == n + 1
  {
    var db := FullDB(tag, n, t);
    TagFills(l, tag, n, t);
    FullIsShaped(tag, n, t);
    var queued := Enqueued(db, n, tag);
    assert Step(l, State(db, map[]), Enqueue(n, {tag})) == State(queued, map[]);
    ReachesByStep(l, START, State(db, map[]), Enqueue(n, {tag}), tag);
    EnqueueOpens(db, n, tag, n);
    DirectClaimTaken(l, queued, n, tag, t);
    OpenOfShaped(db, tag, n, t, t);
    StartsOfShaped(db, tag, n, t, t, t, hi);
    var actions :| Run(l, START, actions).db == WithAttempt(queued, n, t);
    assert |OpenWith(Run(l, START, actions).db, tag)| == n + 1;
  }
}
