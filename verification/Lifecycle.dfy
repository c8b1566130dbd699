/** The life of a job over the shared tables: live rows, execution attempts, insert-only history,
    and the ready / blocked index. Every transaction of the backend is one step, written as the
    SQL statements it runs, with rollback when a row count is not the one demanded. */
module Lifecycle {

  datatype Option<T> = None | Some(value: T)

  type JobId = int
  type Time = int

  // ---------------------------------------------------------------------------------
  // Tables
  // ---------------------------------------------------------------------------------

  datatype Status = Queued | Running | ShuttingDown | Success | Failed | Archived

  datatype CloseOutcome = ClosedSuccess | ClosedFailed | ClosedAbandoned

  /** A row of `sqlery_queued_job` or `sqlery_job_history`; `payload` stands for the columns no
      transaction of the lifecycle writes. */
  datatype Row = Row(status: Status, version: int, createdAt: Time, retryPending: bool,
                     startedAt: Option<Time>, worker: Option<int>, finishedAt: Option<Time>, payload: int)

  /** A row of `sqlery_job_attempt`; its id is its position in the table. */
  datatype Attempt = Attempt(job: JobId, token: int, worker: Option<int>, claimedAt: Time,
                             finishedAt: Option<Time>, outcome: Option<CloseOutcome>)

  datatype ReadyKey = ReadyKey(slot: int, job: JobId)
  datatype BlockedKey = BlockedKey(job: JobId, dependency: JobId)

  /** Primary key of the history table. */
  datatype HistoryKey = HistoryKey(finishedAt: Time, id: JobId)

  datatype DB = DB(live: map<JobId, Row>, attempts: seq<Attempt>, history: map<HistoryKey, Row>,
                   ready: set<ReadyKey>, blocked: set<BlockedKey>)

  const SLOTS := {0, 1, 2}

  predicate IsOpen(a: Attempt) { a.finishedAt.None? }

  predicate OpenAt(attempts: seq<Attempt>, i: int, job: JobId) {
    0 <= i < |attempts| && attempts[i].job == job && IsOpen(attempts[i])
  }

  predicate HasOpen(attempts: seq<Attempt>, job: JobId) {
    exists i :: 0 <= i < |attempts| && OpenAt(attempts, i, job)
  }

  predicate InHistory(db: DB, id: JobId) {
    exists k :: k in db.history && k.id == id
  }

  predicate IsTerminal(s: Status) { s == Success || s == Failed || s == Archived }

  // ---------------------------------------------------------------------------------
  // Decisions of core/attempts.py and core/history.py
  // ---------------------------------------------------------------------------------

  function DerivedStatus(stored: Status, hasOpenAttempt: bool): Status {
    if hasOpenAttempt && stored == Queued then Running else stored
  }

  datatype Verdict = VerdictOk | VerdictStale

  function ClaimVerdict(stored: Status, version: int, expected: Option<int>, hasOpenAttempt: bool): Verdict {
    if stored != Queued then VerdictStale
    else if hasOpenAttempt then VerdictStale
    else if expected.Some? && version != expected.value then VerdictStale
    else VerdictOk
  }

  function SettleStatus(status: Status, retryPending: bool, hasRetry: bool): Option<Status> {
    if status == Success || status == Archived then Some(status)
    else if status != Failed then None
    else if retryPending then None
    else Some(if hasRetry then Archived else Failed)
  }

  // ---------------------------------------------------------------------------------
  // Statements
  // ---------------------------------------------------------------------------------

  function Close(a: Attempt, outcome: CloseOutcome, now: Time): Attempt {
    a.(finishedAt := Some(now), outcome := Some(outcome))
  }

  datatype Closed = Closed(attempts: seq<Attempt>, rowcount: nat)

  /** Compare-and-set close of one attempt on (id, token, still open). */
  function CloseExact(attempts: seq<Attempt>, id: int, token: int, outcome: CloseOutcome, now: Time): Closed {
    if 0 <= id < |attempts| && attempts[id].token == token && IsOpen(attempts[id])
    then Closed(attempts[id := Close(attempts[id], outcome, now)], 1)
    else Closed(attempts, 0)
  }

  function CountOpen(attempts: seq<Attempt>, job: JobId): nat {
    if attempts == [] then 0
    else CountOpen(attempts[..|attempts| - 1], job) +
         (if attempts[|attempts| - 1].job == job && IsOpen(attempts[|attempts| - 1]) then 1 else 0)
  }

  /** Close of every open attempt of a job. */
  function CloseAll(attempts: seq<Attempt>, job: JobId, outcome: CloseOutcome, now: Time): Closed {
    Closed(seq(|attempts|, i requires 0 <= i < |attempts| =>
             if attempts[i].job == job && IsOpen(attempts[i]) then Close(attempts[i], outcome, now) else attempts[i]),
           CountOpen(attempts, job))
  }

  /** The newest attempt of a job, open or not. */
  function Newest(attempts: seq<Attempt>, job: JobId): Option<Attempt> {
    if attempts == [] then None
    else if attempts[|attempts| - 1].job == job then Some(attempts[|attempts| - 1])
    else Newest(attempts[..|attempts| - 1], job)
  }

  /** The fences of the move into history. */
  datatype Fence = Fence(version: Option<int>, statuses: set<Status>, idle: bool)

  const ANY_STATUS := {Queued, Running, ShuttingDown, Success, Failed, Archived}
  const UNFENCED := Fence(None, ANY_STATUS, false)

  predicate FenceHolds(db: DB, id: JobId, f: Fence) {
    && id in db.live
    && (f.version.Some? ==> db.live[id].version == f.version.value)
    && db.live[id].status in f.statuses
    && (f.idle ==> !HasOpen(db.attempts, id))
  }

  /** The history row written for a live row: the new status, the next version, the start and the
      worker of the newest attempt, and a finish time that is never NULL; `settle` clears the
      marker of an owed retry. */
  function HistoryRow(db: DB, id: JobId, status: Status, settle: bool, finishedAt: Option<Time>, now: Time): Row
    requires id in db.live
  {
    var row := db.live[id];
    var newest := Newest(db.attempts, id);
    var finished := if finishedAt.Some? then finishedAt.value
                    else if row.finishedAt.Some? then row.finishedAt.value else now;
    row.(status := status, version := row.version + 1, retryPending := row.retryPending && !settle, finishedAt := Some(finished),
         startedAt := if newest.Some? then Some(newest.value.claimedAt) else row.startedAt,
         worker := if newest.Some? && newest.value.worker.Some? then newest.value.worker else row.worker)
  }

  datatype Moved = NoMatch | KeyTaken | MovedTo(db: DB)

  /** The terminal transition: lock, INSERT .. SELECT into history, DELETE from live, close the
      attempts still open. A taken history key is an integrity error. */
  function FinishIn(db: DB, id: JobId, status: Status, f: Fence, settle: bool, finishedAt: Option<Time>, now: Time): Moved {
    if !FenceHolds(db, id, f) then NoMatch
    else
      var row := HistoryRow(db, id, status, settle, finishedAt, now);
      var key := HistoryKey(row.finishedAt.value, id);
      if key in db.history then KeyTaken
      else
        MovedTo(db.(live := db.live - {id}, history := db.history[key := row],
                    attempts := CloseAll(db.attempts, id,
                                         if status == Success then ClosedSuccess else ClosedAbandoned, now).attempts))
  }

  function DeleteReady(ready: set<ReadyKey>, id: JobId): set<ReadyKey> {
    set k | k in ready && !(k.slot in SLOTS && k.job == id)
  }

  function DeleteBlocked(blocked: set<BlockedKey>, id: JobId): set<BlockedKey> {
    set k | k in blocked && k.job != id
  }

  // ---------------------------------------------------------------------------------
  // Transactions
  // ---------------------------------------------------------------------------------

  datatype Op =
    | Enqueue(id: JobId, createdAt: Time, slot: int, payload: int)
    | ClaimEntry(id: JobId, slot: int, expected: Option<int>, token: int, worker: Option<int>, now: Time)
    | AtomicClaim(id: JobId, expected: Option<int>, token: int, worker: Option<int>, now: Time)
    | ClaimById(id: JobId, token: int, worker: Option<int>, now: Time)
    | Complete(id: JobId, attempt: int, token: int, expected: Option<int>, success: bool, pending: bool, now: Time)
    | CompleteUnfenced(id: JobId, expected: Option<int>, success: bool, pending: bool, now: Time)
    | Abandon(id: JobId, now: Time)
    | FailZombie(id: JobId, now: Time)
    | Release(id: JobId, slot: int, now: Time)
    | FailWaiting(id: JobId, cancelled: bool, now: Time)
    | SettlePending(id: JobId, archived: bool, now: Time)
    | SettleStray(id: JobId, hasRetry: bool, now: Time)
    | CascadeAncestor(id: JobId, status: Status, now: Time)
    | ShutDown(id: JobId)
    | EditRow(id: JobId, payload: int)
    | RewriteIndex(ready: set<ReadyKey>, blocked: set<BlockedKey>)

  /** `Accepted`: the step took effect; `Stale`: JobFencingError, everything rolled back;
      `Idle`: nothing to do. */
  datatype Reply = Accepted | Stale | Idle

  datatype Effect = Effect(db: DB, reply: Reply)

  datatype Started = StartedAttempt(attempts: seq<Attempt>) | Keep | Restore

  /** `_start_attempt`: judge the locked row, insert the attempt only on an `ok` verdict; else say
      whether the deleted entry stays deleted or the transaction is rolled back. */
  function StartAttempt(db: DB, id: JobId, expected: Option<int>, token: int, worker: Option<int>, now: Time): Started {
    if id !in db.live then Restore
    else
      var row := db.live[id];
      var running := HasOpen(db.attempts, id);
      if ClaimVerdict(row.status, row.version, expected, running).VerdictOk?
      then StartedAttempt(db.attempts + [Attempt(id, token, worker, now, None, None)])
      else if row.status != Queued || running then Keep
      else Restore
  }

  /** A claim that has deleted its entries, leaving `ready` and `blocked`. */
  function ClaimWith(db: DB, ready: set<ReadyKey>, blocked: set<BlockedKey>, id: JobId, expected: Option<int>,
                     token: int, worker: Option<int>, now: Time): Effect {
    match StartAttempt(db, id, expected, token, worker, now)
    case StartedAttempt(attempts) => Effect(db.(attempts := attempts, ready := ready, blocked := blocked), Accepted)
    case Keep => Effect(db.(ready := ready, blocked := blocked), Idle)
    case Restore => Effect(db, Idle)
  }

  /** What follows the attempt close in `_fenced_update`: a failure owing a retry is only marked,
      anything else moves to history; no matching row rolls everything back. */
  function RecordCompletion(db: DB, closed: DB, id: JobId, expected: Option<int>, success: bool, pending: bool, now: Time): Effect {
    var fence := UNFENCED.(version := expected);
    var miss := Effect(db, if expected.Some? then Stale else Idle);
    if !success && pending then
      if !FenceHolds(closed, id, fence) then miss
      else
        var row := closed.live[id];
        Effect(closed.(live := closed.live[id := row.(status := Failed, version := row.version + 1,
                                                      retryPending := true, finishedAt := Some(now))]), Accepted)
    else
      match FinishIn(closed, id, if success then Success else Failed, fence, !success, Some(now), now)
      case MovedTo(after) => Effect(after, Accepted)
      case NoMatch => miss
      case KeyTaken => Effect(db, Idle)
  }

  /** A move into history on its own: all of it or none of it. */
  function Move(db: DB, before: DB, id: JobId, status: Status, f: Fence, settle: bool, finishedAt: Option<Time>, now: Time): Effect {
    match FinishIn(before, id, status, f, settle, finishedAt, now)
    case MovedTo(after) => Effect(after, Accepted)
    case _ => Effect(db, Idle)
  }

  function Step(db: DB, op: Op): Effect {
    match op
    case Enqueue(id, createdAt, slot, payload) =>
      if id in db.live || InHistory(db, id) then Effect(db, Idle)
      else Effect(db.(live := db.live[id := Row(Queued, 0, createdAt, false, None, None, None, payload)],
                      ready := db.ready + {ReadyKey(slot, id)}), Accepted)
    case ClaimEntry(id, slot, expected, token, worker, now) =>
      if ReadyKey(slot, id) !in db.ready then Effect(db, Idle)
      else ClaimWith(db, db.ready - {ReadyKey(slot, id)}, db.blocked, id, expected, token, worker, now)
    case AtomicClaim(id, expected, token, worker, now) =>
      if DeleteReady(db.ready, id) == db.ready then Effect(db, Idle)
      else ClaimWith(db, DeleteReady(db.ready, id), db.blocked, id, expected, token, worker, now)
    case ClaimById(id, token, worker, now) =>
      if id !in db.live || db.live[id].status != Queued || HasOpen(db.attempts, id) then Effect(db, Idle)
      else ClaimWith(db, DeleteReady(db.ready, id), DeleteBlocked(db.blocked, id), id,
                     Some(db.live[id].version), token, worker, now)
    case Complete(id, attempt, token, expected, success, pending, now) =>
      if id !in db.live then Effect(db, if InHistory(db, id) then Stale else Idle)
      else
        var closed := CloseExact(db.attempts, attempt, token, if success then ClosedSuccess else ClosedFailed, now);
        if closed.rowcount != 1 then Effect(db, Stale)
        else RecordCompletion(db, db.(attempts := closed.attempts), id, expected, success, pending, now)
    case CompleteUnfenced(id, expected, success, pending, now) =>
      if id !in db.live then Effect(db, if InHistory(db, id) && expected.Some? then Stale else Idle)
      else
        var closed := CloseAll(db.attempts, id, if success then ClosedSuccess else ClosedAbandoned, now);
        RecordCompletion(db, db.(attempts := closed.attempts), id, expected, success, pending, now)
    case Abandon(id, now) =>
      Effect(db.(attempts := CloseAll(db.attempts, id, ClosedAbandoned, now).attempts), Accepted)
    case FailZombie(id, now) =>
      if id !in db.live || db.live[id].status != Queued || CloseAll(db.attempts, id, ClosedAbandoned, now).rowcount < 1
      then Effect(db, Idle)
      else Move(db, db.(attempts := CloseAll(db.attempts, id, ClosedAbandoned, now).attempts), id, Failed, UNFENCED,
                true, Some(now), now)
    case Release(id, slot, now) =>
      if id !in db.live || db.live[id].status != Queued || CloseAll(db.attempts, id, ClosedAbandoned, now).rowcount < 1
      then Effect(db, Idle)
      else Effect(db.(attempts := CloseAll(db.attempts, id, ClosedAbandoned, now).attempts,
                      ready := db.ready + {ReadyKey(slot, id)}), Accepted)
    case FailWaiting(id, cancelled, now) =>
      Move(db, db.(ready := DeleteReady(db.ready, id), blocked := DeleteBlocked(db.blocked, id)), id, Failed,
           Fence(None, {Queued}, true), !cancelled, if cancelled then None else Some(now), now)
    case SettlePending(id, archived, now) =>
      Move(db, db, id, if archived then Archived else Failed, Fence(None, {Failed}, false), true, None, now)
    case SettleStray(id, hasRetry, now) =>
      if id !in db.live then Effect(db, Idle)
      else
        var row := db.live[id];
        (match SettleStatus(row.status, row.retryPending, hasRetry)
         case None => Effect(db, Idle)
         case Some(status) => Move(db, db, id, status, Fence(None, {row.status}, false), true, None, now))
    case CascadeAncestor(id, status, now) =>
      if !IsTerminal(status) then Effect(db, Idle)
      else Move(db, db, id, status, Fence(None, {Queued, Running, Failed, ShuttingDown}, false), false, None, now)
    case ShutDown(id) =>
      if id !in db.live then Effect(db, Idle)
      else Effect(db.(live := db.live[id := db.live[id].(status := ShuttingDown)]), Accepted)
    case EditRow(id, payload) =>
      if id !in db.live then Effect(db, Idle)
      else Effect(db.(live := db.live[id := db.live[id].(payload := payload, version := db.live[id].version + 1)]),
                  Accepted)
    case RewriteIndex(ready, blocked) =>
      Effect(db.(ready := ready, blocked := blocked), Accepted)
  }

  function Run(db: DB, ops: seq<Op>): DB
    decreases |ops|
  {
    if ops == [] then db else Run(Step(db, ops[0]).db, ops[1..])
  }

  const EMPTY := DB(map[], [], map[], {}, {})

  // ---------------------------------------------------------------------------------
  // The invariant
  // ---------------------------------------------------------------------------------

  /** No job has two open attempts. */
  ghost predicate OneOpenAttempt(attempts: seq<Attempt>) {
    forall i, j, id :: OpenAt(attempts, i, id) && OpenAt(attempts, j, id) ==> i == j
  }

  ghost predicate OpenMeansLive(db: DB) {
    forall i, id :: OpenAt(db.attempts, i, id) ==> id in db.live
  }

  /** A job is in history at most once and then not live; a history row is final. */
  ghost predicate HistoryDisjoint(db: DB) {
    && (forall k :: k in db.history ==> k.id !in db.live)
    && (forall k, l :: k in db.history && l in db.history && k.id == l.id ==> k == l)
    && (forall k :: k in db.history ==> IsTerminal(db.history[k].status) && db.history[k].finishedAt == Some(k.finishedAt))
  }

  ghost predicate Inv(db: DB) {
    OneOpenAttempt(db.attempts) && OpenMeansLive(db) && HistoryDisjoint(db)
  }

  /** The ids of every job the tables know. */
  ghost predicate Known(db: DB, id: JobId) {
    id in db.live || InHistory(db, id)
  }

  // ---------------------------------------------------------------------------------
  // Statement lemmas
  // ---------------------------------------------------------------------------------

  /** Attempts only ever get appended or closed. */
  ghost predicate Extends(a: seq<Attempt>, b: seq<Attempt>) {
    && |a| <= |b|
    && forall i :: 0 <= i < |a| ==>
         a[i] == b[i] || (IsOpen(a[i]) && !IsOpen(b[i]) && b[i] == a[i].(finishedAt := b[i].finishedAt, outcome := b[i].outcome))
  }

  lemma ExtendsTransitive(a: seq<Attempt>, b: seq<Attempt>, c: seq<Attempt>)
    requires Extends(a, b) && Extends(b, c)
    ensures Extends(a, c)
  {
  }

  /** Closing attempts keeps what is claimed of open ones. */
  lemma ClosingKeeps(a: seq<Attempt>, b: seq<Attempt>)
    requires Extends(a, b) && |a| == |b| && OneOpenAttempt(a)
    ensures OneOpenAttempt(b)
    ensures forall i, id :: OpenAt(b, i, id) ==> OpenAt(a, i, id)
  {
    forall i, id | OpenAt(b, i, id) ensures OpenAt(a, i, id) {
      assert a[i] == b[i];
    }
  }

  lemma CloseAllCloses(attempts: seq<Attempt>, job: JobId, outcome: CloseOutcome, now: Time)
    ensures var b := CloseAll(attempts, job, outcome, now).attempts;
            Extends(attempts, b) && |b| == |attempts| && forall i :: !OpenAt(b, i, job)
  {
  }

  lemma CloseExactCloses(attempts: seq<Attempt>, id: int, token: int, outcome: CloseOutcome, now: Time)
    ensures var c := CloseExact(attempts, id, token, outcome, now);
            && Extends(attempts, c.attempts) && |c.attempts| == |attempts|
            && (c.rowcount == 1 ==> 0 <= id < |attempts| && IsOpen(attempts[id]) && !IsOpen(c.attempts[id]))
  {
  }

  /** The move into history keeps the invariant whatever its fences. */
  lemma FinishKeeps(db: DB, id: JobId, status: Status, f: Fence, settle: bool, finishedAt: Option<Time>, now: Time)
    requires Inv(db) && IsTerminal(status)
    ensures var m := FinishIn(db, id, status, f, settle, finishedAt, now);
            m.MovedTo? ==>
              && Inv(m.db) && Extends(db.attempts, m.db.attempts) && |db.attempts| == |m.db.attempts|
              && m.db.live == db.live - {id} && id in db.live
              && InHistory(m.db, id)
              && (forall k :: k in db.history ==> k in m.db.history && m.db.history[k] == db.history[k])
              && (forall k :: k in m.db.history ==> k in db.history || k.id == id)
  {
    var m := FinishIn(db, id, status, f, settle, finishedAt, now);
    if m.MovedTo? {
      var outcome := if status == Success then ClosedSuccess else ClosedAbandoned;
      CloseAllCloses(db.attempts, id, outcome, now);
      ClosingKeeps(db.attempts, m.db.attempts);
      var row := HistoryRow(db, id, status, settle, finishedAt, now);
      assert HistoryKey(row.finishedAt.value, id) in m.db.history;
    }
  }

  // ---------------------------------------------------------------------------------
  // One step
  // ---------------------------------------------------------------------------------

  /** What every step does, whoever runs it and whatever the index says: the invariant is kept,
      attempts are appended or closed and never reopened, history rows are never changed, and the
      known jobs grow by exactly the job an accepted enqueue names. */
  ghost predicate GoodStep(db: DB, op: Op, after: DB, reply: Reply) {
    && Inv(after)
    && Extends(db.attempts, after.attempts)
    && (forall k :: k in db.history ==> k in after.history && after.history[k] == db.history[k])
    && (forall id :: Known(after, id) <==> Known(db, id) || (op.Enqueue? && op.id == id && reply == Accepted))
    && (reply != Accepted ==> after.live == db.live && after.attempts == db.attempts && after.history == db.history)
  }

  lemma GoodClaim(db: DB, op: Op, ready: set<ReadyKey>, blocked: set<BlockedKey>, id: JobId, expected: Option<int>,
                  token: int, worker: Option<int>, now: Time)
    requires Inv(db) && !op.Enqueue?
    ensures var e := ClaimWith(db, ready, blocked, id, expected, token, worker, now); GoodStep(db, op, e.db, e.reply)
  {
    var s := StartAttempt(db, id, expected, token, worker, now);
    if s.StartedAttempt? {
      var b := s.attempts;
      assert !HasOpen(db.attempts, id);
      forall i, j, x | OpenAt(b, i, x) && OpenAt(b, j, x) ensures i == j {
        if i < |db.attempts| { assert OpenAt(db.attempts, i, x); }
        if j < |db.attempts| { assert OpenAt(db.attempts, j, x); }
      }
      forall i, x | OpenAt(b, i, x) ensures x in db.live {
        if i < |db.attempts| { assert OpenAt(db.attempts, i, x); }
      }
    }
  }

  lemma GoodMove(db: DB, op: Op, before: DB, id: JobId, status: Status, f: Fence, settle: bool, finishedAt: Option<Time>, now: Time)
    requires Inv(db) && Inv(before) && IsTerminal(status) && !op.Enqueue?
    requires before.live == db.live && before.history == db.history && Extends(db.attempts, before.attempts)
    ensures var e := Move(db, before, id, status, f, settle, finishedAt, now); GoodStep(db, op, e.db, e.reply)
  {
    FinishKeeps(before, id, status, f, settle, finishedAt, now);
    var m := FinishIn(before, id, status, f, settle, finishedAt, now);
    if m.MovedTo? {
      ExtendsTransitive(db.attempts, before.attempts, m.db.attempts);
      KnownAfterMove(db, m.db, id);
    }
  }

  lemma KnownAfterMove(db: DB, after: DB, id: JobId)
    requires id in db.live && after.live == db.live - {id} && InHistory(after, id)
    requires forall k :: k in db.history ==> k in after.history
    requires forall k :: k in after.history ==> k in db.history || k.id == id
    ensures forall x :: Known(after, x) <==> Known(db, x)
  {
    forall x ensures Known(after, x) <==> Known(db, x) {
      if InHistory(after, x) && x != id {
        var k :| k in after.history && k.id == x;
        assert k in db.history;
      }
      if InHistory(db, x) {
        var k :| k in db.history && k.id == x;
        assert k in after.history;
      }
    }
  }

  lemma GoodCompletion(db: DB, op: Op, closed: seq<Attempt>, id: JobId, expected: Option<int>, success: bool, pending: bool, now: Time)
    requires Inv(db) && Extends(db.attempts, closed) && |closed| == |db.attempts| && !op.Enqueue?
    ensures var e := RecordCompletion(db, db.(attempts := closed), id, expected, success, pending, now);
            GoodStep(db, op, e.db, e.reply)
  {
    ClosingKeeps(db.attempts, closed);
    var c := db.(attempts := closed);
    assert Inv(c);
    var fence := UNFENCED.(version := expected);
    if !success && pending {
      if FenceHolds(c, id, fence) {
        GoodInPlace(db, op, RecordCompletion(db, c, id, expected, success, pending, now).db);
      }
    } else {
      GoodMove(db, op, c, id, if success then Success else Failed, fence, !success, Some(now), now);
    }
  }

  /** A step that leaves the keys of live, and history, as they are. */
  lemma GoodInPlace(db: DB, op: Op, after: DB)
    requires Inv(db) && !op.Enqueue?
    requires after.live.Keys == db.live.Keys && after.history == db.history
    requires Extends(db.attempts, after.attempts) && |db.attempts| == |after.attempts|
    ensures GoodStep(db, op, after, Accepted)
  {
    ClosingKeeps(db.attempts, after.attempts);
    assert forall x :: InHistory(after, x) == InHistory(db, x);
  }

  lemma GoodEnqueue(db: DB, op: Op)
    requires Inv(db) && op.Enqueue?
    ensures var e := Step(db, op); GoodStep(db, op, e.db, e.reply)
  {
    var e := Step(db, op);
    if e.reply == Accepted {
      assert forall x :: InHistory(e.db, x) == InHistory(db, x);
    }
  }

  lemma EveryClaimIsGood(db: DB, op: Op)
    requires Inv(db) && (op.ClaimEntry? || op.AtomicClaim? || op.ClaimById?)
    ensures var e := Step(db, op); GoodStep(db, op, e.db, e.reply)
  {
    match op
    case ClaimEntry(id, slot, expected, token, worker, now) =>
      GoodClaim(db, op, db.ready - {ReadyKey(slot, id)}, db.blocked, id, expected, token, worker, now);
    case AtomicClaim(id, expected, token, worker, now) =>
      GoodClaim(db, op, DeleteReady(db.ready, id), db.blocked, id, expected, token, worker, now);
    case ClaimById(id, token, worker, now) =>
      if id in db.live {
        GoodClaim(db, op, DeleteReady(db.ready, id), DeleteBlocked(db.blocked, id), id, Some(db.live[id].version),
                  token, worker, now);
      }
  }

  lemma EveryCompletionIsGood(db: DB, op: Op)
    requires Inv(db) && (op.Complete? || op.CompleteUnfenced?)
    ensures var e := Step(db, op); GoodStep(db, op, e.db, e.reply)
  {
    match op
    case Complete(id, attempt, token, expected, success, pending, now) =>
      var outcome := if success then ClosedSuccess else ClosedFailed;
      CloseExactCloses(db.attempts, attempt, token, outcome, now);
      GoodCompletion(db, op, CloseExact(db.attempts, attempt, token, outcome, now).attempts, id, expected, success, pending, now);
    case CompleteUnfenced(id, expected, success, pending, now) =>
      var outcome := if success then ClosedSuccess else ClosedAbandoned;
      CloseAllCloses(db.attempts, id, outcome, now);
      GoodCompletion(db, op, CloseAll(db.attempts, id, outcome, now).attempts, id, expected, success, pending, now);
  }

  lemma EveryRecoveryIsGood(db: DB, op: Op)
    requires Inv(db) && (op.Abandon? || op.FailZombie? || op.Release?)
    ensures var e := Step(db, op); GoodStep(db, op, e.db, e.reply)
  {
    match op
    case Abandon(id, now) =>
      CloseAllCloses(db.attempts, id, ClosedAbandoned, now);
      GoodInPlace(db, op, Step(db, op).db);
    case FailZombie(id, now) =>
      CloseAllCloses(db.attempts, id, ClosedAbandoned, now);
      var closed := CloseAll(db.attempts, id, ClosedAbandoned, now).attempts;
      ClosingKeeps(db.attempts, closed);
      GoodMove(db, op, db.(attempts := closed), id, Failed, UNFENCED, true, Some(now), now);
    case Release(id, slot, now) =>
      CloseAllCloses(db.attempts, id, ClosedAbandoned, now);
      GoodInPlace(db, op, db.(attempts := CloseAll(db.attempts, id, ClosedAbandoned, now).attempts,
                              ready := db.ready + {ReadyKey(slot, id)}));
  }

  lemma EverySettlementIsGood(db: DB, op: Op)
    requires Inv(db) && (op.FailWaiting? || op.SettlePending? || op.SettleStray? || op.CascadeAncestor?)
    ensures var e := Step(db, op); GoodStep(db, op, e.db, e.reply)
  {
    match op
    case FailWaiting(id, cancelled, now) =>
      GoodMove(db, op, db.(ready := DeleteReady(db.ready, id), blocked := DeleteBlocked(db.blocked, id)), id, Failed,
               Fence(None, {Queued}, true), !cancelled, if cancelled then None else Some(now), now);
    case SettlePending(id, archived, now) =>
      GoodMove(db, op, db, id, if archived then Archived else Failed, Fence(None, {Failed}, false), true, None, now);
    case SettleStray(id, hasRetry, now) =>
      if id in db.live {
        var row := db.live[id];
        var s := SettleStatus(row.status, row.retryPending, hasRetry);
        if s.Some? {
          GoodMove(db, op, db, id, s.value, Fence(None, {row.status}, false), true, None, now);
        }
      }
    case CascadeAncestor(id, status, now) =>
      if IsTerminal(status) {
        GoodMove(db, op, db, id, status, Fence(None, {Queued, Running, Failed, ShuttingDown}, false), false, None, now);
      }
  }

  lemma EveryWriteIsGood(db: DB, op: Op)
    requires Inv(db) && (op.ShutDown? || op.EditRow? || op.RewriteIndex?)
    ensures var e := Step(db, op); GoodStep(db, op, e.db, e.reply)
  {
    match op
    case ShutDown(id) =>
      if id in db.live { GoodInPlace(db, op, Step(db, op).db); }
    case EditRow(id, payload) =>
      if id in db.live { GoodInPlace(db, op, Step(db, op).db); }
    case RewriteIndex(ready, blocked) =>
      GoodInPlace(db, op, Step(db, op).db);
  }

  lemma EveryStepIsGood(db: DB, op: Op)
    requires Inv(db)
    ensures var e := Step(db, op); GoodStep(db, op, e.db, e.reply)
  {
    if op.Enqueue? {
      GoodEnqueue(db, op);
    } else if op.ClaimEntry? || op.AtomicClaim? || op.ClaimById? {
      EveryClaimIsGood(db, op);
    } else if op.Complete? || op.CompleteUnfenced? {
      EveryCompletionIsGood(db, op);
    } else if op.Abandon? || op.FailZombie? || op.Release? {
      EveryRecoveryIsGood(db, op);
    } else if op.ShutDown? || op.EditRow? || op.RewriteIndex? {
      EveryWriteIsGood(db, op);
    } else {
      EverySettlementIsGood(db, op);
    }
  }
}
