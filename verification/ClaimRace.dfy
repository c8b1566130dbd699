/** Claims racing at statement level: any number of claiming transactions, each taking tag locks,
    counting per tag, locking the job row, inserting an attempt and committing, interleaved with
    each other, with claims that apply no check at all, and with completions, releases and
    shutdowns. Reads see committed rows only. */
module ClaimRace {

  type JobId = int
  type TxId = int
  type Time = int
  type Tag = string

  datatype Option<T> = None | Some(value: T)

  /** At most `count` starts in any `window`. */
  datatype Rate = Rate(count: int, window: int)

  /** The configured limits; a rate that does not parse is `None` and limits nothing. */
  datatype Limits = Limits(concurrency: map<Tag, int>, rates: map<Tag, Option<Rate>>)

  predicate Limited(l: Limits, tag: Tag) { tag in l.concurrency || tag in l.rates }

  predicate RateLimited(l: Limits, tag: Tag) { tag in l.rates && l.rates[tag].Some? }

  // ---------------------------------------------------------------------------------
  // Committed rows
  // ---------------------------------------------------------------------------------

  datatype Status = Queued | Running | ShuttingDown | Success | Failed | Archived

  datatype Job = Job(tags: set<Tag>, stored: Status)

  /** An attempt; `dropped` records that its start has at some time not been counted. */
  datatype Attempt = Attempt(job: JobId, claimedAt: Time, open: bool, dropped: bool)

  datatype DB = DB(jobs: map<JobId, Job>, attempts: seq<Attempt>)

  predicate OpenAt(db: DB, i: int, job: JobId) {
    0 <= i < |db.attempts| && db.attempts[i].job == job && db.attempts[i].open
  }

  predicate HasOpen(db: DB, job: JobId) {
    exists i :: 0 <= i < |db.attempts| && OpenAt(db, i, job)
  }

  /** The status the `sqlery_job_all` view shows. */
  function Shown(db: DB, job: JobId): Status
    requires job in db.jobs
  {
    if db.jobs[job].stored == Queued && HasOpen(db, job) then Running else db.jobs[job].stored
  }

  predicate Carries(db: DB, job: JobId, tag: Tag) {
    job in db.jobs && tag in db.jobs[job].tags
  }

  predicate IsNewest(db: DB, i: int) {
    && 0 <= i < |db.attempts|
    && forall k :: i < k < |db.attempts| ==> db.attempts[k].job != db.attempts[i].job
  }

  /** `count_running_with_tag`. */
  function RunningWith(db: DB, tag: Tag): set<JobId> {
    set j | j in db.jobs && tag in db.jobs[j].tags && Shown(db, j) == Running
  }

  predicate CountsAsStarted(s: Status) { s == Running || s == Success || s == Failed }

  /** The start of a job is that of its newest attempt. */
  predicate StartedSince(db: DB, job: JobId, since: Time) {
    exists i :: 0 <= i < |db.attempts| && IsNewest(db, i) && db.attempts[i].job == job && since <= db.attempts[i].claimedAt
  }

  /** `count_started_with_tag_since`. */
  function StartedWith(db: DB, tag: Tag, since: Time): set<JobId> {
    set j | j in db.jobs && tag in db.jobs[j].tags && CountsAsStarted(Shown(db, j)) && StartedSince(db, j, since)
  }

  // ---------------------------------------------------------------------------------
  // Transactions in flight
  // ---------------------------------------------------------------------------------

  /** What a claimer has established: per tag, that the concurrency count passed, and when its
      rate count passed. `Inserted` holds an attempt not yet committed. */
  datatype Phase =
    | Scanning
    | Checking(job: JobId, conc: set<Tag>, rate: map<Tag, Time>)
    | Inserted(job: JobId, conc: set<Tag>, rate: map<Tag, Time>, claimedAt: Time)

  datatype Tx = Tx(locks: set<Tag>, row: Option<JobId>, phase: Phase)

  datatype State = State(db: DB, txs: map<TxId, Tx>)

  datatype Action =
    | Begin(tx: TxId)
    | LockTags(tx: TxId, tags: set<Tag>)
    | Consider(tx: TxId, job: JobId)
    | CheckConcurrency(tx: TxId, tag: Tag)
    | CheckRate(tx: TxId, tag: Tag, now: Time)
    | LockRow(tx: TxId)
    | Insert(tx: TxId, now: Time)
    | Skip(tx: TxId)
    | Commit(tx: TxId)
    | Rollback(tx: TxId)
    | ClaimDirect(job: JobId, now: Time)
    | Enqueue(job: JobId, tags: set<Tag>)
    | Finish(job: JobId, status: Status)
    | Release(job: JobId)
    | ShutDown(job: JobId)

  predicate TagFree(s: State, tx: TxId, tag: Tag) {
    forall o :: o in s.txs && o != tx ==> tag !in s.txs[o].locks
  }

  predicate RowFree(s: State, tx: Option<TxId>, job: JobId) {
    forall o :: o in s.txs && tx != Some(o) ==> s.txs[o].row != Some(job)
  }

  /** Every limited tag of the job is locked and every check it calls for has passed. */
  predicate ChecksDone(l: Limits, db: DB, p: Phase)
    requires p.Checking? || p.Inserted?
  {
    p.job in db.jobs &&
    forall t :: t in db.jobs[p.job].tags ==> (t in l.concurrency ==> t in p.conc) && (RateLimited(l, t) ==> t in p.rate)
  }

  /** A start stays counted only while its attempt is the newest and its job is shown running,
      succeeded or failed. */
  predicate Counted(db: DB, i: int) {
    && IsNewest(db, i)
    && db.attempts[i].job in db.jobs
    && CountsAsStarted(Shown(db, db.attempts[i].job))
  }

  function MarkDropped(db: DB): DB {
    db.(attempts := seq(|db.attempts|, i requires 0 <= i < |db.attempts| =>
      db.attempts[i].(dropped := db.attempts[i].dropped || !Counted(db, i))))
  }

  function CloseAll(db: DB, job: JobId): DB {
    db.(attempts := seq(|db.attempts|, i requires 0 <= i < |db.attempts| =>
      if db.attempts[i].job == job then db.attempts[i].(open := false) else db.attempts[i]))
  }

  /** The committed rows after a claim commits. */
  function WithAttempt(db: DB, job: JobId, claimedAt: Time): DB {
    db.(attempts := db.attempts + [Attempt(job, claimedAt, true, false)])
  }

  function SetPhase(s: State, tx: TxId, p: Phase): State
    requires tx in s.txs
  {
    s.(txs := s.txs[tx := s.txs[tx].(phase := p)])
  }

  /** A finished job is final; only a failed one can still be archived, for its retry. */
  predicate MayFinish(stored: Status, status: Status) {
    if status == Archived then stored == Failed
    else (status == Success || status == Failed) && stored != Success && stored != Archived
  }

  /** One statement of one transaction; a statement that is not enabled changes nothing. */
  function Step(l: Limits, s: State, a: Action): State {
    match a
    case Begin(tx) =>
      if tx in s.txs then s else s.(txs := s.txs[tx := Tx({}, None, Scanning)])
    case LockTags(tx, tags) =>
      if tx in s.txs && s.txs[tx].phase.Scanning? && forall t :: t in tags ==> TagFree(s, tx, t)
      then s.(txs := s.txs[tx := s.txs[tx].(locks := s.txs[tx].locks + tags)]) else s
    case Consider(tx, job) =>
      if tx in s.txs && s.txs[tx].phase.Scanning? && job in s.db.jobs &&
         forall t :: t in s.db.jobs[job].tags && Limited(l, t) ==> t in s.txs[tx].locks
      then SetPhase(s, tx, Checking(job, {}, map[])) else s
    case CheckConcurrency(tx, tag) =>
      if tx in s.txs && s.txs[tx].phase.Checking? && Carries(s.db, s.txs[tx].phase.job, tag) && tag in l.concurrency &&
         |RunningWith(s.db, tag)| < l.concurrency[tag]
      then var p := s.txs[tx].phase; SetPhase(s, tx, Checking(p.job, p.conc + {tag}, p.rate)) else s
    case CheckRate(tx, tag, now) =>
      if tx in s.txs && s.txs[tx].phase.Checking? && Carries(s.db, s.txs[tx].phase.job, tag) && RateLimited(l, tag) &&
         |StartedWith(s.db, tag, now - l.rates[tag].value.window)| < l.rates[tag].value.count
      then var p := s.txs[tx].phase; SetPhase(s, tx, Checking(p.job, p.conc, p.rate[tag := now])) else s
    case LockRow(tx) =>
      if tx in s.txs && s.txs[tx].phase.Checking? && RowFree(s, Some(tx), s.txs[tx].phase.job)
      then s.(txs := s.txs[tx := s.txs[tx].(row := Some(s.txs[tx].phase.job))]) else s
    case Insert(tx, now) =>
      if tx in s.txs && s.txs[tx].phase.Checking? && ChecksDone(l, s.db, s.txs[tx].phase) &&
         s.txs[tx].row == Some(s.txs[tx].phase.job) &&
         s.db.jobs[s.txs[tx].phase.job].stored == Queued && !HasOpen(s.db, s.txs[tx].phase.job) &&
         forall t :: t in s.txs[tx].phase.rate ==> s.txs[tx].phase.rate[t] <= now
      then var p := s.txs[tx].phase; SetPhase(s, tx, Inserted(p.job, p.conc, p.rate, now)) else s
    case Skip(tx) =>
      if tx in s.txs && s.txs[tx].phase.Checking? then SetPhase(s, tx, Scanning) else s
    case Commit(tx) =>
      if tx !in s.txs then s
      else if s.txs[tx].phase.Inserted?
      then var p := s.txs[tx].phase;
           State(WithAttempt(s.db, p.job, p.claimedAt), s.txs - {tx})
      else s.(txs := s.txs - {tx})
    case Rollback(tx) =>
      s.(txs := s.txs - {tx})
    case ClaimDirect(job, now) =>
      // a claim by id, or by the async backend: one transaction, no tag lock and no check
      if job in s.db.jobs && RowFree(s, None, job) && s.db.jobs[job].stored == Queued && !HasOpen(s.db, job)
      then s.(db := WithAttempt(s.db, job, now)) else s
    case Enqueue(job, tags) =>
      if job in s.db.jobs then s else s.(db := s.db.(jobs := s.db.jobs[job := Job(tags, Queued)]))
    case Finish(job, status) =>
      if job in s.db.jobs && RowFree(s, None, job) && MayFinish(s.db.jobs[job].stored, status)
      then s.(db := MarkDropped(CloseAll(s.db.(jobs := s.db.jobs[job := s.db.jobs[job].(stored := status)]), job))) else s
    case Release(job) =>
      if job in s.db.jobs then s.(db := MarkDropped(CloseAll(s.db, job))) else s
    case ShutDown(job) =>
      if job in s.db.jobs && RowFree(s, None, job) && s.db.jobs[job].stored != Success && s.db.jobs[job].stored != Archived
      then s.(db := MarkDropped(s.db.(jobs := s.db.jobs[job := s.db.jobs[job].(stored := ShuttingDown)]))) else s
  }

  function Run(l: Limits, s: State, actions: seq<Action>): State
    decreases |actions|
  {
    if actions == [] then s else Run(l, Step(l, s, actions[0]), actions[1..])
  }

  const START := State(DB(map[], []), map[])

  // ---------------------------------------------------------------------------------
  // The invariant, for one tag
  // ---------------------------------------------------------------------------------

  ghost predicate OneOpen(db: DB) {
    forall i, j, id :: OpenAt(db, i, id) && OpenAt(db, j, id) ==> i == j
  }

  ghost predicate AttemptsOfJobs(db: DB) {
    forall i :: 0 <= i < |db.attempts| ==> db.attempts[i].job in db.jobs
  }

  /** A job with an open attempt is stored as queued, or as shutting down. */
  ghost predicate OpenStored(db: DB) {
    forall j :: j in db.jobs && HasOpen(db, j) ==> db.jobs[j].stored == Queued || db.jobs[j].stored == ShuttingDown
  }

  ghost predicate NoneRunningStored(db: DB) {
    forall j :: j in db.jobs ==> db.jobs[j].stored != Running
  }

  ghost predicate UndroppedCounted(db: DB) {
    forall i :: 0 <= i < |db.attempts| && !db.attempts[i].dropped ==> Counted(db, i)
  }

  /** Starts with a tag, never dropped, in a closed time window. */
  function Starts(db: DB, tag: Tag, lo: Time, hi: Time): set<int> {
    set i | 0 <= i < |db.attempts| && !db.attempts[i].dropped && Carries(db, db.attempts[i].job, tag) &&
            lo <= db.attempts[i].claimedAt <= hi
  }

  function StartsSince(db: DB, tag: Tag, lo: Time): set<int> {
    set i | 0 <= i < |db.attempts| && !db.attempts[i].dropped && Carries(db, db.attempts[i].job, tag) &&
            lo <= db.attempts[i].claimedAt
  }

  ghost predicate ConcurrencyKept(l: Limits, db: DB, t: Tag) {
    t in l.concurrency ==> RunningWith(db, t) == {} || |RunningWith(db, t)| <= l.concurrency[t]
  }

  ghost predicate RateKept(l: Limits, db: DB, t: Tag, lo: Time) {
    RateLimited(l, t) ==>
      var w := Starts(db, t, lo, lo + l.rates[t].value.window);
      w == {} || |w| <= l.rates[t].value.count
  }

  ghost predicate ConcurrencyHolds(l: Limits, db: DB, t: Tag) {
    t in l.concurrency && |RunningWith(db, t)| < l.concurrency[t]
  }

  ghost predicate RateHolds(l: Limits, db: DB, t: Tag, now: Time) {
    RateLimited(l, t) && |StartsSince(db, t, now - l.rates[t].value.window)| < l.rates[t].value.count
  }

  /** What a transaction has checked about the tag is still true, because it holds the tag's lock. */
  ghost predicate ChecksHold(l: Limits, db: DB, tx: Tx, tag: Tag) {
    var p := tx.phase;
    p.Scanning? ||
    (&& p.job in db.jobs
     && (tag in db.jobs[p.job].tags && Limited(l, tag) ==> tag in tx.locks)
     && (tag in p.conc ==> tag in tx.locks && ConcurrencyHolds(l, db, tag))
     && (tag in p.rate ==> tag in tx.locks && RateHolds(l, db, tag, p.rate[tag]))
     && (p.Inserted? ==> ReadyToCommit(l, db, tx)))
  }

  ghost predicate ReadyToCommit(l: Limits, db: DB, tx: Tx)
    requires tx.phase.Inserted?
  {
    var p := tx.phase;
    && ChecksDone(l, db, p)
    && tx.row == Some(p.job)
    && db.jobs[p.job].stored == Queued && !HasOpen(db, p.job)
    && (forall t :: t in p.rate ==> p.rate[t] <= p.claimedAt)
  }

  ghost predicate LocksExclusive(s: State) {
    forall a, b :: a in s.txs && b in s.txs && a != b ==>
      && s.txs[a].locks !! s.txs[b].locks
      && (s.txs[a].row.Some? ==> s.txs[a].row != s.txs[b].row)
  }

  /** What holds of the rows whoever claims. */
  ghost predicate RowsGood(db: DB) {
    OneOpen(db) && AttemptsOfJobs(db) && OpenStored(db) && NoneRunningStored(db) && UndroppedCounted(db)
  }

  ghost predicate Safe(l: Limits, db: DB, tag: Tag) {
    RowsGood(db) && ConcurrencyKept(l, db, tag) && forall lo :: RateKept(l, db, tag, lo)
  }

  ghost predicate Inv(l: Limits, s: State, tag: Tag) {
    && Safe(l, s.db, tag)
    && LocksExclusive(s)
    && forall t :: t in s.txs ==> ChecksHold(l, s.db, s.txs[t], tag)
  }

  // ---------------------------------------------------------------------------------
  // Counting
  // ---------------------------------------------------------------------------------

  lemma {:induction false} SubsetCard<T>(a: set<T>, b: set<T>)
    requires a <= b
    ensures |a| <= |b|
  {
    if a != {} {
      var x :| x in a;
      SubsetCard(a - {x}, b - {x});
    }
  }

  /** An injection into a set bounds the size. */
  lemma {:induction false} InjectionCard<A, B>(a: set<A>, b: set<B>, f: A -> B)
    requires forall x :: x in a ==> f(x) in b
    requires forall x, y :: x in a && y in a && f(x) == f(y) ==> x == y
    ensures |a| <= |b|
  {
    if a != {} {
      var x :| x in a;
      InjectionCard(a - {x}, b - {f(x)}, f);
    }
  }

  function JobAt(db: DB, i: int): JobId {
    if 0 <= i < |db.attempts| then db.attempts[i].job else 0
  }

  /** The rate count of the source covers every start that was never dropped. */
  lemma CountCoversStarts(db: DB, tag: Tag, since: Time)
    requires UndroppedCounted(db)
    ensures |StartsSince(db, tag, since)| <= |StartedWith(db, tag, since)|
  {
    var a := StartsSince(db, tag, since);
    forall i | i in a ensures db.attempts[i].job in StartedWith(db, tag, since) {
      assert Counted(db, i);
    }
    forall i, j | i in a && j in a && db.attempts[i].job == db.attempts[j].job ensures i == j {
      assert Counted(db, i) && Counted(db, j);
    }
    InjectionCard(a, StartedWith(db, tag, since), i => JobAt(db, i));
  }

  // ---------------------------------------------------------------------------------
  // Steps that shrink what is counted
  // ---------------------------------------------------------------------------------

  /** The rows changed so that nothing new runs and no start appears. */
  ghost predicate Shrinks(a: DB, b: DB) {
    && a.jobs.Keys == b.jobs.Keys
    && (forall j :: j in a.jobs ==> a.jobs[j].tags == b.jobs[j].tags)
    && |a.attempts| == |b.attempts|
    && (forall i :: 0 <= i < |a.attempts| ==>
          && a.attempts[i].job == b.attempts[i].job && a.attempts[i].claimedAt == b.attempts[i].claimedAt
          && (b.attempts[i].open ==> a.attempts[i].open)
          && (a.attempts[i].dropped ==> b.attempts[i].dropped))
    && (forall j :: j in b.jobs && b.jobs[j].stored in {Queued, Running} ==> a.jobs[j].stored == b.jobs[j].stored)
  }

  lemma ShrinksOpen(a: DB, b: DB, j: JobId)
    requires Shrinks(a, b)
    ensures HasOpen(b, j) ==> HasOpen(a, j)
  {
    if HasOpen(b, j) {
      var i :| 0 <= i < |b.attempts| && OpenAt(b, i, j);
      assert OpenAt(a, i, j);
    }
  }

  lemma ShrinksCounts(a: DB, b: DB, t: Tag)
    requires Shrinks(a, b)
    ensures RunningWith(b, t) <= RunningWith(a, t) && |RunningWith(b, t)| <= |RunningWith(a, t)|
    ensures forall lo :: StartsSince(b, t, lo) <= StartsSince(a, t, lo) && |StartsSince(b, t, lo)| <= |StartsSince(a, t, lo)|
    ensures forall lo, hi :: Starts(b, t, lo, hi) <= Starts(a, t, lo, hi) && |Starts(b, t, lo, hi)| <= |Starts(a, t, lo, hi)|
  {
    forall j ensures HasOpen(b, j) ==> HasOpen(a, j) { ShrinksOpen(a, b, j); }
    assert RunningWith(b, t) <= RunningWith(a, t);
    SubsetCard(RunningWith(b, t), RunningWith(a, t));
    forall lo ensures StartsSince(b, t, lo) <= StartsSince(a, t, lo) && |StartsSince(b, t, lo)| <= |StartsSince(a, t, lo)| {
      assert StartsSince(b, t, lo) <= StartsSince(a, t, lo);
      SubsetCard(StartsSince(b, t, lo), StartsSince(a, t, lo));
    }
    forall lo, hi ensures Starts(b, t, lo, hi) <= Starts(a, t, lo, hi) && |Starts(b, t, lo, hi)| <= |Starts(a, t, lo, hi)| {
      assert Starts(b, t, lo, hi) <= Starts(a, t, lo, hi);
      SubsetCard(Starts(b, t, lo, hi), Starts(a, t, lo, hi));
    }
  }

  lemma MarkedAreCounted(db: DB)
    ensures var m := MarkDropped(db);
            && m.jobs == db.jobs && |m.attempts| == |db.attempts|
            && (forall i :: 0 <= i < |db.attempts| ==> m.attempts[i] == db.attempts[i].(dropped := m.attempts[i].dropped))
            && (forall i :: 0 <= i < |db.attempts| && db.attempts[i].dropped ==> m.attempts[i].dropped)
            && UndroppedCounted(m)
  {
    var m := MarkDropped(db);
    forall i | 0 <= i < |m.attempts| && !m.attempts[i].dropped ensures Counted(m, i) {
      assert Counted(db, i);
      SameOpen(db, m, db.attempts[i].job);
    }
  }

  /** Open attempts do not depend on the dropped marks. */
  lemma SameOpen(a: DB, b: DB, j: JobId)
    requires |a.attempts| == |b.attempts|
    requires forall i :: 0 <= i < |a.attempts| ==> b.attempts[i] == a.attempts[i].(dropped := b.attempts[i].dropped)
    ensures HasOpen(a, j) <==> HasOpen(b, j)
  {
    if HasOpen(a, j) {
      var i :| 0 <= i < |a.attempts| && OpenAt(a, i, j);
      assert OpenAt(b, i, j);
    }
    if HasOpen(b, j) {
      var i :| 0 <= i < |b.attempts| && OpenAt(b, i, j);
      assert OpenAt(a, i, j);
    }
  }

  lemma ShrinkKeepsSafe(l: Limits, a: DB, b: DB, tag: Tag)
    requires Safe(l, a, tag) && Shrinks(a, b) && UndroppedCounted(b) && OpenStored(b)
    ensures Safe(l, b, tag)
  {
    forall i, j, id | OpenAt(b, i, id) && OpenAt(b, j, id) ensures i == j {
      assert OpenAt(a, i, id) && OpenAt(a, j, id);
    }
    ShrinksCounts(a, b, tag);
    forall lo ensures RateKept(l, b, tag, lo) {
      assert RateKept(l, a, tag, lo);
    }
  }

  /** A step of the environment on one job whose row no claimer holds, or that leaves the row as
      it is, keeps everything. */
  lemma EnvironmentKeeps(l: Limits, s: State, changed: DB, tag: Tag)
    requires Inv(l, s, tag) && Shrinks(s.db, changed) && OpenStored(changed)
    requires forall t :: t in s.txs && s.txs[t].row.Some? && s.txs[t].row.value in s.db.jobs ==>
      changed.jobs[s.txs[t].row.value].stored == s.db.jobs[s.txs[t].row.value].stored
    ensures Inv(l, s.(db := MarkDropped(changed)), tag)
  {
    var m := MarkDropped(changed);
    MarkedAreCounted(changed);
    assert Shrinks(s.db, m);
    forall j ensures HasOpen(m, j) <==> HasOpen(changed, j) { SameOpen(changed, m, j); }
    ShrinkKeepsSafe(l, s.db, m, tag);
    forall x | x in s.txs ensures ChecksHold(l, m, s.txs[x], tag) {
      ChecksSurvive(l, s.db, m, s.txs[x], tag);
    }
  }

  lemma ChecksSurvive(l: Limits, a: DB, b: DB, tx: Tx, tag: Tag)
    requires ChecksHold(l, a, tx, tag) && Shrinks(a, b)
    requires tx.row.Some? && tx.row.value in a.jobs ==> b.jobs[tx.row.value].stored == a.jobs[tx.row.value].stored
    ensures ChecksHold(l, b, tx, tag)
  {
    if !tx.phase.Scanning? {
      ShrinksCounts(a, b, tag);
      ShrinksOpen(a, b, tx.phase.job);
    }
  }

  /** Closing every attempt of a job leaves the others as they are. */
  lemma CloseAllOpens(db: DB, job: JobId, j: JobId)
    ensures HasOpen(CloseAll(db, job), j) <==> HasOpen(db, j) && j != job
  {
    var b := CloseAll(db, job);
    if HasOpen(db, j) && j != job {
      var i :| 0 <= i < |db.attempts| && OpenAt(db, i, j);
      assert OpenAt(b, i, j);
    }
    if HasOpen(b, j) {
      var i :| 0 <= i < |b.attempts| && OpenAt(b, i, j);
      assert OpenAt(db, i, j);
    }
  }

  // ---------------------------------------------------------------------------------
  // Enqueue
  // ---------------------------------------------------------------------------------

  lemma EnqueueKeepsRows(db: DB, job: JobId, tags: set<Tag>)
    requires RowsGood(db) && job !in db.jobs
    ensures var b := db.(jobs := db.jobs[job := Job(tags, Queued)]);
            RowsGood(b) && !HasOpen(db, job) && forall j :: HasOpen(b, j) <==> HasOpen(db, j)
  {
    var b := db.(jobs := db.jobs[job := Job(tags, Queued)]);
    forall j ensures HasOpen(b, j) <==> HasOpen(db, j) { SameOpen(db, b, j); }
    forall i, j, id | OpenAt(b, i, id) && OpenAt(b, j, id) ensures i == j {
      assert OpenAt(db, i, id) && OpenAt(db, j, id);
    }
    forall i | 0 <= i < |b.attempts| && !b.attempts[i].dropped ensures Counted(b, i) { assert Counted(db, i); }
  }

  lemma EnqueueKeeps(l: Limits, s: State, job: JobId, tags: set<Tag>, tag: Tag)
    requires Inv(l, s, tag) && job !in s.db.jobs
    ensures Inv(l, Step(l, s, Enqueue(job, tags)), tag)
  {
    var db := s.db;
    var b := Step(l, s, Enqueue(job, tags)).db;
    EnqueueKeepsRows(db, job, tags);
    assert RunningWith(b, tag) == RunningWith(db, tag);
    forall lo ensures StartsSince(b, tag, lo) == StartsSince(db, tag, lo) {}
    forall lo ensures RateKept(l, b, tag, lo) {
      assert RateKept(l, db, tag, lo);
      if RateLimited(l, tag) {
        assert Starts(b, tag, lo, lo + l.rates[tag].value.window) == Starts(db, tag, lo, lo + l.rates[tag].value.window);
      }
    }
    forall x | x in s.txs ensures ChecksHold(l, b, s.txs[x], tag) {
      assert ChecksHold(l, db, s.txs[x], tag);
    }
  }

  // ---------------------------------------------------------------------------------
  // A new attempt, gated or not
  // ---------------------------------------------------------------------------------

  lemma CommitOpens(db: DB, job: JobId, claimedAt: Time, j: JobId)
    ensures HasOpen(WithAttempt(db, job, claimedAt), j) <==> HasOpen(db, j) || j == job
  {
    var b := WithAttempt(db, job, claimedAt);
    if HasOpen(db, j) {
      var i :| 0 <= i < |db.attempts| && OpenAt(db, i, j);
      assert OpenAt(b, i, j);
    }
    if j == job {
      assert OpenAt(b, |db.attempts|, j);
    }
    if HasOpen(b, j) && j != job {
      var i :| 0 <= i < |b.attempts| && OpenAt(b, i, j);
      assert OpenAt(db, i, j);
    }
  }

  lemma CommitCounts(db: DB, job: JobId, claimedAt: Time, t: Tag)
    requires job in db.jobs && db.jobs[job].stored == Queued && !HasOpen(db, job)
    ensures var b := WithAttempt(db, job, claimedAt);
            && RunningWith(b, t) == RunningWith(db, t) + (if t in db.jobs[job].tags then {job} else {})
            && (t !in db.jobs[job].tags ==> forall lo :: StartsSince(b, t, lo) == StartsSince(db, t, lo))
  {
    var b := WithAttempt(db, job, claimedAt);
    forall j ensures HasOpen(b, j) <==> HasOpen(db, j) || j == job { CommitOpens(db, job, claimedAt, j); }
  }

  lemma CommitStarts(db: DB, job: JobId, claimedAt: Time, t: Tag, lo: Time, hi: Time)
    requires job in db.jobs
    ensures !(t in db.jobs[job].tags && lo <= claimedAt <= hi) ==>
      Starts(WithAttempt(db, job, claimedAt), t, lo, hi) == Starts(db, t, lo, hi)
    ensures |Starts(WithAttempt(db, job, claimedAt), t, lo, hi)| <= |Starts(db, t, lo, hi)| + 1
  {
    var added := if t in db.jobs[job].tags && lo <= claimedAt <= hi then {|db.attempts|} else {};
    assert Starts(WithAttempt(db, job, claimedAt), t, lo, hi) == Starts(db, t, lo, hi) + added;
    assert |added| <= 1;
  }

  lemma AttemptKeepsRows(db: DB, job: JobId, claimedAt: Time)
    requires RowsGood(db) && job in db.jobs && db.jobs[job].stored == Queued && !HasOpen(db, job)
    ensures RowsGood(WithAttempt(db, job, claimedAt))
  {
    var b := WithAttempt(db, job, claimedAt);
    forall j ensures HasOpen(b, j) <==> HasOpen(db, j) || j == job { CommitOpens(db, job, claimedAt, j); }
    forall i, j, id | OpenAt(b, i, id) && OpenAt(b, j, id) ensures i == j {
      if i < |db.attempts| { assert OpenAt(db, i, id); }
      if j < |db.attempts| { assert OpenAt(db, j, id); }
    }
    forall i | 0 <= i < |b.attempts| && !b.attempts[i].dropped ensures Counted(b, i) {
      if i < |db.attempts| {
        assert Counted(db, i);
        assert db.attempts[i].job != job;
      }
    }
  }

  /** All undropped starts in a window holding the new start are since the moment of its check. */
  lemma CommitKeepsRate(l: Limits, db: DB, job: JobId, checkedAt: Time, claimedAt: Time, t: Tag, lo: Time)
    requires job in db.jobs && RateKept(l, db, t, lo)
    requires t in db.jobs[job].tags && RateLimited(l, t) ==> RateHolds(l, db, t, checkedAt) && checkedAt <= claimedAt
    ensures RateKept(l, WithAttempt(db, job, claimedAt), t, lo)
  {
    if RateLimited(l, t) {
      var w := l.rates[t].value.window;
      CommitStarts(db, job, claimedAt, t, lo, lo + w);
      if t in db.jobs[job].tags && lo <= claimedAt <= lo + w {
        StartsInWindow(db, t, lo, lo + w, checkedAt - w);
      }
    }
  }

  lemma StartsInWindow(db: DB, t: Tag, lo: Time, hi: Time, since: Time)
    requires since <= lo
    ensures |Starts(db, t, lo, hi)| <= |StartsSince(db, t, since)|
  {
    assert Starts(db, t, lo, hi) <= StartsSince(db, t, since);
    SubsetCard(Starts(db, t, lo, hi), StartsSince(db, t, since));
  }

  /** A new attempt keeps the limits of a tag when the job does not carry it, or its checks hold. */
  lemma AttemptKeepsSafe(l: Limits, db: DB, job: JobId, checkedAt: Time, claimedAt: Time, tag: Tag)
    requires Safe(l, db, tag) && job in db.jobs && db.jobs[job].stored == Queued && !HasOpen(db, job)
    requires tag in db.jobs[job].tags && tag in l.concurrency ==> ConcurrencyHolds(l, db, tag)
    requires tag in db.jobs[job].tags && RateLimited(l, tag) ==> RateHolds(l, db, tag, checkedAt) && checkedAt <= claimedAt
    ensures Safe(l, WithAttempt(db, job, claimedAt), tag)
  {
    AttemptKeepsRows(db, job, claimedAt);
    CommitCounts(db, job, claimedAt, tag);
    forall lo ensures RateKept(l, WithAttempt(db, job, claimedAt), tag, lo) {
      assert RateKept(l, db, tag, lo);
      CommitKeepsRate(l, db, job, checkedAt, claimedAt, tag, lo);
    }
  }

  /** What a transaction has checked survives a new attempt of a job whose row it does not hold,
      when that job does not carry the tag or the transaction does not hold the tag's lock. */
  lemma AttemptKeepsOthers(l: Limits, db: DB, job: JobId, claimedAt: Time, other: Tx, tag: Tag)
    requires job in db.jobs && db.jobs[job].stored == Queued && !HasOpen(db, job)
    requires ChecksHold(l, db, other, tag) && other.row != Some(job)
    requires tag in db.jobs[job].tags && Limited(l, tag) ==> tag !in other.locks
    ensures ChecksHold(l, WithAttempt(db, job, claimedAt), other, tag)
  {
    CommitCounts(db, job, claimedAt, tag);
    if !other.phase.Scanning? {
      CommitOpens(db, job, claimedAt, other.phase.job);
    }
  }

  lemma CommitKeeps(l: Limits, s: State, tx: TxId, tag: Tag)
    requires Inv(l, s, tag) && tx in s.txs && s.txs[tx].phase.Inserted?
    ensures Inv(l, Step(l, s, Commit(tx)), tag)
  {
    var p := s.txs[tx].phase;
    AttemptKeepsSafe(l, s.db, p.job, if tag in p.rate then p.rate[tag] else p.claimedAt, p.claimedAt, tag);
    forall o | o in s.txs && o != tx ensures ChecksHold(l, WithAttempt(s.db, p.job, p.claimedAt), s.txs[o], tag) {
      AttemptKeepsOthers(l, s.db, p.job, p.claimedAt, s.txs[o], tag);
    }
  }

  /** A claim without checks keeps the limits of the tags its job does not carry. */
  lemma DirectKeeps(l: Limits, s: State, job: JobId, now: Time, tag: Tag)
    requires Inv(l, s, tag) && !Carries(s.db, job, tag)
    ensures Inv(l, Step(l, s, ClaimDirect(job, now)), tag)
  {
    if Step(l, s, ClaimDirect(job, now)) != s {
      AttemptKeepsSafe(l, s.db, job, now, now, tag);
      forall o | o in s.txs ensures ChecksHold(l, WithAttempt(s.db, job, now), s.txs[o], tag) {
        AttemptKeepsOthers(l, s.db, job, now, s.txs[o], tag);
      }
    }
  }

  // ---------------------------------------------------------------------------------
  // Every step
  // ---------------------------------------------------------------------------------

  /** A statement that changes one transaction only. */
  lemma TxKeeps(l: Limits, s: State, tx: TxId, next: Tx, tag: Tag)
    requires Inv(l, s, tag) && ChecksHold(l, s.db, next, tag)
    requires forall o :: o in s.txs && o != tx ==>
      next.locks !! s.txs[o].locks && (next.row.Some? ==> next.row != s.txs[o].row)
    ensures Inv(l, s.(txs := s.txs[tx := next]), tag)
  {
  }

  lemma LockTagsKeeps(l: Limits, s: State, tx: TxId, tags: set<Tag>, tag: Tag)
    requires Inv(l, s, tag)
    ensures Inv(l, Step(l, s, LockTags(tx, tags)), tag)
  {
    if tx in s.txs && s.txs[tx].phase.Scanning? && forall t :: t in tags ==> TagFree(s, tx, t) {
      TxKeeps(l, s, tx, s.txs[tx].(locks := s.txs[tx].locks + tags), tag);
    }
  }

  lemma ChecksKeep(l: Limits, s: State, a: Action, tag: Tag)
    requires Inv(l, s, tag)
    requires a.Begin? || a.Consider? || a.CheckConcurrency? || a.LockRow? || a.Insert? || a.Skip?
    ensures Inv(l, Step(l, s, a), tag)
  {
    var after := Step(l, s, a);
    if after != s {
      assert ChecksHold(l, s.db, after.txs[a.tx], tag);
      TxKeeps(l, s, a.tx, after.txs[a.tx], tag);
    }
  }

  lemma CheckRateKeeps(l: Limits, s: State, tx: TxId, t: Tag, now: Time, tag: Tag)
    requires Inv(l, s, tag)
    ensures Inv(l, Step(l, s, CheckRate(tx, t, now)), tag)
  {
    var after := Step(l, s, CheckRate(tx, t, now));
    if after != s {
      CountCoversStarts(s.db, t, now - l.rates[t].value.window);
      assert RateHolds(l, s.db, t, now);
      TxKeeps(l, s, tx, after.txs[tx], tag);
    }
  }

  lemma FinishKeeps(l: Limits, s: State, job: JobId, status: Status, tag: Tag)
    requires Inv(l, s, tag)
    ensures Inv(l, Step(l, s, Finish(job, status)), tag)
  {
    if job in s.db.jobs && RowFree(s, None, job) && MayFinish(s.db.jobs[job].stored, status) {
      var written := s.db.(jobs := s.db.jobs[job := s.db.jobs[job].(stored := status)]);
      forall j ensures HasOpen(CloseAll(written, job), j) ==> HasOpen(s.db, j) && j != job {
        CloseAllOpens(written, job, j);
        SameOpen(s.db, written, j);
      }
      EnvironmentKeeps(l, s, CloseAll(written, job), tag);
    }
  }

  lemma ReleaseKeeps(l: Limits, s: State, job: JobId, tag: Tag)
    requires Inv(l, s, tag) && job in s.db.jobs
    ensures Inv(l, Step(l, s, Release(job)), tag)
  {
    forall j ensures HasOpen(CloseAll(s.db, job), j) ==> HasOpen(s.db, j) { CloseAllOpens(s.db, job, j); }
    EnvironmentKeeps(l, s, CloseAll(s.db, job), tag);
  }

  lemma ShutDownKeeps(l: Limits, s: State, job: JobId, tag: Tag)
    requires Inv(l, s, tag)
    ensures Inv(l, Step(l, s, ShutDown(job)), tag)
  {
    if Step(l, s, ShutDown(job)) != s {
      var written := s.db.(jobs := s.db.jobs[job := s.db.jobs[job].(stored := ShuttingDown)]);
      forall j ensures HasOpen(written, j) <==> HasOpen(s.db, j) { SameOpen(s.db, written, j); }
      EnvironmentKeeps(l, s, written, tag);
    }
  }

  /** Some job of the tag is claimed without checks. */
  predicate Ungates(s: State, a: Action, tag: Tag) {
    a.ClaimDirect? && Carries(s.db, a.job, tag)
  }

  /** Every statement of every transaction keeps the limits of a tag, except the unchecked claim of a
      job that carries it. */
  lemma StepKeeps(l: Limits, s: State, a: Action, tag: Tag)
    requires Inv(l, s, tag) && !Ungates(s, a, tag)
    ensures Inv(l, Step(l, s, a), tag)
  {
    match a
    case LockTags(tx, tags) => LockTagsKeeps(l, s, tx, tags, tag);
    case CheckRate(tx, t, now) => CheckRateKeeps(l, s, tx, t, now, tag);
    case Commit(tx) => if tx in s.txs && s.txs[tx].phase.Inserted? { CommitKeeps(l, s, tx, tag); }
    case Rollback(tx) =>
    case ClaimDirect(job, now) => DirectKeeps(l, s, job, now, tag);
    case Enqueue(job, tags) => if job !in s.db.jobs { EnqueueKeeps(l, s, job, tags, tag); }
    case Finish(job, status) => FinishKeeps(l, s, job, status, tag);
    case Release(job) => if job in s.db.jobs { ReleaseKeeps(l, s, job, tag); }
    case ShutDown(job) => ShutDownKeeps(l, s, job, tag);
    case _ => ChecksKeep(l, s, a, tag);
  }
}
