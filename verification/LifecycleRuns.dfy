/** What holds over whole runs of the lifecycle: any number of transactions, in any order, with
    the ready and blocked tables rewritten arbitrarily in between. */
module LifecycleRuns {
  import opened Lifecycle

  ghost predicate HistoryKept(a: DB, b: DB) {
    forall k :: k in a.history ==> k in b.history && b.history[k] == a.history[k]
  }

  /** The invariant holds in every reachable state; attempts are never reopened and history rows
      never change or vanish. */
  lemma {:induction false} RunKeepsInvariant(db: DB, ops: seq<Op>)
    requires Inv(db)
    ensures Inv(Run(db, ops))
    ensures Extends(db.attempts, Run(db, ops).attempts)
    ensures HistoryKept(db, Run(db, ops))
    decreases |ops|
  {
    if ops != [] {
      EveryStepIsGood(db, ops[0]);
      var next := Step(db, ops[0]).db;
      RunKeepsInvariant(next, ops[1..]);
      ExtendsTransitive(db.attempts, next.attempts, Run(db, ops).attempts);
    }
  }

  lemma ReachableStatesAreSafe(ops: seq<Op>)
    ensures Inv(Run(EMPTY, ops))
  {
    RunKeepsInvariant(EMPTY, ops);
  }

  // ---------------------------------------------------------------------------------
  // Claims
  // ---------------------------------------------------------------------------------

  predicate IsClaimOf(op: Op, id: JobId) {
    (op.ClaimEntry? || op.AtomicClaim? || op.ClaimById?) && op.id == id
  }

  /** While an attempt is open, no claim of the job succeeds, whatever entries the ready table
      holds; a claim that succeeds adds the job's only open attempt. */
  lemma ClaimIsExclusive(db: DB, op: Op, id: JobId)
    requires Inv(db) && IsClaimOf(op, id)
    ensures var e := Step(db, op);
            && (HasOpen(db.attempts, id) ==> e.reply != Accepted && e.db.attempts == db.attempts)
            && (e.reply == Accepted ==>
                  && id in db.live && db.live[id].status == Queued && e.db.live == db.live
                  && |e.db.attempts| == |db.attempts| + 1
                  && forall i :: OpenAt(e.db.attempts, i, id) <==> i == |db.attempts|)
  {
    var e := Step(db, op);
    if e.reply == Accepted {
      assert !HasOpen(db.attempts, id);
      var b := e.db.attempts;
      forall i ensures OpenAt(b, i, id) <==> i == |db.attempts| {
        if 0 <= i < |db.attempts| {
          assert b[i] == db.attempts[i];
          assert !OpenAt(db.attempts, i, id);
        }
      }
    }
  }

  // ---------------------------------------------------------------------------------
  // Completions
  // ---------------------------------------------------------------------------------

  /** A completion is accepted only while its attempt is open, and closes it; any other completion
      leaves every table unchanged. */
  lemma CompletionNeedsOpenAttempt(db: DB, op: Op)
    requires Inv(db) && op.Complete?
    ensures var e := Step(db, op);
            && (e.reply == Accepted ==>
                  && 0 <= op.attempt < |db.attempts| && db.attempts[op.attempt].token == op.token
                  && IsOpen(db.attempts[op.attempt])
                  && op.attempt < |e.db.attempts| && !IsOpen(e.db.attempts[op.attempt]))
            && (e.reply != Accepted ==> e.db == db)
  {
    var e := Step(db, op);
    if op.id in db.live {
      var outcome := if op.success then ClosedSuccess else ClosedFailed;
      CloseExactCloses(db.attempts, op.attempt, op.token, outcome, op.now);
      var closed := CloseExact(db.attempts, op.attempt, op.token, outcome, op.now);
      if closed.rowcount == 1 && e.reply == Accepted {
        ClosingKeeps(db.attempts, closed.attempts);
        GoodCompletion(db.(attempts := closed.attempts), op, closed.attempts, op.id, op.expected, op.success, op.pending, op.now);
        assert Extends(closed.attempts, e.db.attempts);
        assert closed.attempts[op.attempt] == e.db.attempts[op.attempt];
      }
    }
  }

  predicate AcceptedHere(db: DB, op: Op, attempt: int) {
    op.Complete? && op.attempt == attempt && Step(db, op).reply == Accepted
  }

  /** How many completions of one attempt a run accepts. */
  function AcceptedCompletions(db: DB, ops: seq<Op>, attempt: int): nat
    decreases |ops|
  {
    if ops == [] then 0
    else (if AcceptedHere(db, ops[0], attempt) then 1 else 0) + AcceptedCompletions(Step(db, ops[0]).db, ops[1..], attempt)
  }

  lemma {:induction false} ClosedAttemptAcceptsNothing(db: DB, ops: seq<Op>, attempt: int)
    requires Inv(db) && 0 <= attempt < |db.attempts| && !IsOpen(db.attempts[attempt])
    ensures AcceptedCompletions(db, ops, attempt) == 0
    decreases |ops|
  {
    if ops != [] {
      EveryStepIsGood(db, ops[0]);
      if ops[0].Complete? {
        CompletionNeedsOpenAttempt(db, ops[0]);
      }
      ClosedAttemptAcceptsNothing(Step(db, ops[0]).db, ops[1..], attempt);
    }
  }

  /** At most one completion of an attempt is ever accepted. */
  lemma {:induction false} AttemptCompletesAtMostOnce(db: DB, ops: seq<Op>, attempt: int)
    requires Inv(db)
    ensures AcceptedCompletions(db, ops, attempt) <= 1
    decreases |ops|
  {
    if ops != [] {
      EveryStepIsGood(db, ops[0]);
      var next := Step(db, ops[0]).db;
      if AcceptedHere(db, ops[0], attempt) {
        CompletionNeedsOpenAttempt(db, ops[0]);
        ClosedAttemptAcceptsNothing(next, ops[1..], attempt);
      } else {
        AttemptCompletesAtMostOnce(next, ops[1..], attempt);
      }
    }
  }

  /** Once recovery has abandoned a job's attempts, a late completion presenting one of them is
      rejected at any later time and changes nothing. */
  lemma LateCompletionIsRejected(db: DB, job: JobId, at: Time, later: seq<Op>, op: Op)
    requires Inv(db) && op.Complete?
    requires 0 <= op.attempt < |db.attempts| && db.attempts[op.attempt].job == job
    ensures var then_ := Run(Step(db, Abandon(job, at)).db, later);
            Step(then_, op).db == then_ && Step(then_, op).reply != Accepted
  {
    var abandoned := Step(db, Abandon(job, at)).db;
    EveryStepIsGood(db, Abandon(job, at));
    CloseAllCloses(db.attempts, job, ClosedAbandoned, at);
    assert !OpenAt(abandoned.attempts, op.attempt, job);
    RunKeepsInvariant(abandoned, later);
    var then_ := Run(abandoned, later);
    assert abandoned.attempts[op.attempt] == then_.attempts[op.attempt];
    CompletionNeedsOpenAttempt(then_, op);
  }

  // ---------------------------------------------------------------------------------
  // History and conservation
  // ---------------------------------------------------------------------------------

  predicate EntersHistory(db: DB, op: Op, id: JobId) {
    exists k :: k in Step(db, op).db.history && k !in db.history && k.id == id
  }

  function HistoryEntries(db: DB, ops: seq<Op>, id: JobId): nat
    decreases |ops|
  {
    if ops == [] then 0
    else (if EntersHistory(db, ops[0], id) then 1 else 0) + HistoryEntries(Step(db, ops[0]).db, ops[1..], id)
  }

  lemma {:induction false} NoSecondEntry(db: DB, ops: seq<Op>, id: JobId)
    requires Inv(db) && InHistory(db, id)
    ensures HistoryEntries(db, ops, id) == 0
    decreases |ops|
  {
    if ops != [] {
      EveryStepIsGood(db, ops[0]);
      var next := Step(db, ops[0]).db;
      var k :| k in db.history && k.id == id;
      assert k in next.history;
      NoSecondEntry(next, ops[1..], id);
    }
  }

  /** A job enters history at most once in any run. */
  lemma {:induction false} EntersHistoryAtMostOnce(db: DB, ops: seq<Op>, id: JobId)
    requires Inv(db)
    ensures HistoryEntries(db, ops, id) <= 1
    decreases |ops|
  {
    if ops != [] {
      EveryStepIsGood(db, ops[0]);
      var next := Step(db, ops[0]).db;
      if EntersHistory(db, ops[0], id) {
        assert InHistory(next, id);
        NoSecondEntry(next, ops[1..], id);
      } else {
        EntersHistoryAtMostOnce(next, ops[1..], id);
      }
    }
  }

  /** The job was enqueued, and not refused, somewhere in the run. */
  predicate EnqueuedIn(db: DB, ops: seq<Op>, id: JobId)
    decreases |ops|
  {
    ops != [] &&
    ((ops[0].Enqueue? && ops[0].id == id && Step(db, ops[0]).reply == Accepted) ||
     EnqueuedIn(Step(db, ops[0]).db, ops[1..], id))
  }

  /** Conservation: the jobs in the tables are those there at the start and those enqueued since,
      each in exactly one of live and history. */
  lemma {:induction false} JobsAreConserved(db: DB, ops: seq<Op>, id: JobId)
    requires Inv(db)
    ensures var end := Run(db, ops);
            && (Known(end, id) <==> Known(db, id) || EnqueuedIn(db, ops, id))
            && !(id in end.live && InHistory(end, id))
    decreases |ops|
  {
    RunKeepsInvariant(db, ops);
    if ops != [] {
      EveryStepIsGood(db, ops[0]);
      JobsAreConserved(Step(db, ops[0]).db, ops[1..], id);
    }
  }

  // ---------------------------------------------------------------------------------
  // The sqlery_job_all view
  // ---------------------------------------------------------------------------------

  /** A row of the view: a live row joined to one matching open attempt or to none, or a history
      row. Two join partners give two rows. */
  datatype ViewRow = Joined(id: JobId, attempt: int) | Unjoined(id: JobId) | Past(key: HistoryKey)

  /** The ON condition of the LEFT JOIN. */
  predicate JoinsWith(db: DB, id: JobId, i: int) {
    id in db.live && OpenAt(db.attempts, i, id) && db.live[id].status == Queued
  }

  ghost predicate InView(db: DB, v: ViewRow) {
    match v
    case Joined(id, i) => JoinsWith(db, id, i)
    case Unjoined(id) => id in db.live && forall i :: !JoinsWith(db, id, i)
    case Past(k) => k in db.history
  }

  function ViewId(v: ViewRow): JobId {
    match v case Joined(id, _) => id case Unjoined(id) => id case Past(k) => k.id
  }

  /** The row a reader sees: a joined row takes status, start and worker from the attempt. */
  ghost function Shown(db: DB, v: ViewRow): Row
    requires InView(db, v)
  {
    match v
    case Joined(id, i) =>
      var a := db.attempts[i];
      db.live[id].(status := Running, startedAt := Some(a.claimedAt), worker := a.worker)
    case Unjoined(id) => db.live[id]
    case Past(k) => db.history[k]
  }

  /** The status of a job, stated without the view. */
  ghost predicate StatusIs(db: DB, id: JobId, s: Status) {
    || (id in db.live && s == DerivedStatus(db.live[id].status, HasOpen(db.attempts, id)))
    || exists k :: k in db.history && k.id == id && db.history[k].status == s
  }

  ghost predicate OneRowPerJob(db: DB) {
    forall v, w :: InView(db, v) && InView(db, w) && ViewId(v) == ViewId(w) ==> v == w
  }

  /** The view shows one row per job exactly when no queued row has two open attempts. */
  lemma ViewDuplicatesIff(db: DB)
    requires HistoryDisjoint(db)
    ensures OneRowPerJob(db) <==> forall id, i, j :: JoinsWith(db, id, i) && JoinsWith(db, id, j) ==> i == j
  {
    if OneRowPerJob(db) {
      forall id, i, j | JoinsWith(db, id, i) && JoinsWith(db, id, j) ensures i == j {
        assert InView(db, Joined(id, i)) && InView(db, Joined(id, j));
        assert ViewId(Joined(id, i)) == ViewId(Joined(id, j));
      }
    }
  }

  /** In every state of the invariant the view shows every known job exactly once, with the
      derived status. */
  lemma ViewShowsEachJobOnce(db: DB, id: JobId)
    requires Inv(db)
    ensures OneRowPerJob(db)
    ensures Known(db, id) <==> exists v :: InView(db, v) && ViewId(v) == id
    ensures forall v :: InView(db, v) ==> StatusIs(db, ViewId(v), Shown(db, v).status)
  {
    ViewDuplicatesIff(db);
    if id in db.live {
      if i :| JoinsWith(db, id, i) {
        assert InView(db, Joined(id, i)) && ViewId(Joined(id, i)) == id;
      } else {
        assert InView(db, Unjoined(id)) && ViewId(Unjoined(id)) == id;
      }
    } else if InHistory(db, id) {
      var k :| k in db.history && k.id == id;
      assert InView(db, Past(k)) && ViewId(Past(k)) == id;
    }
    forall v | InView(db, v) ensures StatusIs(db, ViewId(v), Shown(db, v).status) {
      match v
      case Joined(x, i) => assert HasOpen(db.attempts, x);
      case Unjoined(x) =>
        if db.live[x].status == Queued && HasOpen(db.attempts, x) {
          var i :| 0 <= i < |db.attempts| && OpenAt(db.attempts, i, x);
          assert JoinsWith(db, x, i);
        }
      case Past(k) =>
    }
  }
}
