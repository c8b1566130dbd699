/** What each transaction of the lifecycle leaves behind, stated on the tables alone: when it takes
    effect, which row and which attempts it writes, and what it leaves as it was. */
module LifecycleOutcomes {
  import opened Lifecycle
  import opened LifecycleRuns

  // ---------------------------------------------------------------------------------
  // Vocabulary
  // ---------------------------------------------------------------------------------

  /** The attempt is the job's latest. */
  ghost predicate LatestOf(attempts: seq<Attempt>, i: int, id: JobId) {
    0 <= i < |attempts| && attempts[i].job == id && forall k :: i < k < |attempts| ==> attempts[k].job != id
  }

  /** Every attempt open for the job is closed now with an outcome; every other attempt is unchanged. */
  ghost predicate ClosesOpen(before: seq<Attempt>, after: seq<Attempt>, id: JobId, outcome: CloseOutcome, now: Time) {
    && |after| == |before|
    && forall i :: 0 <= i < |before| ==>
         after[i] == if OpenAt(before, i, id) then before[i].(finishedAt := Some(now), outcome := Some(outcome)) else before[i]
  }

  /** The finished row of a live row: status, finish time and retry marker as given, one version on, start and
      worker of the latest attempt, everything else as it was. */
  ghost predicate FinishedFrom(row: Row, live: Row, attempts: seq<Attempt>, id: JobId, status: Status, finished: Time, owed: bool) {
    && row.status == status && row.finishedAt == Some(finished) && row.retryPending == owed
    && row.version == live.version + 1 && row.createdAt == live.createdAt && row.payload == live.payload
    && (forall i :: LatestOf(attempts, i, id) ==>
          && row.startedAt == Some(attempts[i].claimedAt)
          && row.worker == if attempts[i].worker.Some? then attempts[i].worker else live.worker)
    && ((forall i :: !LatestOf(attempts, i, id)) ==> row.startedAt == live.startedAt && row.worker == live.worker)
  }

  /** The job leaves the live table for history, as one new row; no other row of either table changes. */
  ghost predicate MovesTo(db: DB, after: DB, id: JobId, status: Status, finished: Time, owed: bool) {
    && id in db.live && after.live == db.live - {id}
    && HistoryKey(finished, id) !in db.history && HistoryKey(finished, id) in after.history
    && after.history == db.history[HistoryKey(finished, id) := after.history[HistoryKey(finished, id)]]
    && FinishedFrom(after.history[HistoryKey(finished, id)], db.live[id], db.attempts, id, status, finished, owed)
  }

  /** The finish time of a transition that brings none of its own. */
  function OwnFinish(row: Row, now: Time): Time {
    if row.finishedAt.Some? then row.finishedAt.value else now
  }

  ghost predicate SameIndex(db: DB, after: DB) { after.ready == db.ready && after.blocked == db.blocked }

  /** The job has no ready entry in any slot, and no blocked entry; the entries of others are untouched. */
  ghost predicate EntriesGone(db: DB, after: DB, id: JobId) {
    && (forall k :: k in after.ready <==> k in db.ready && !(k.job == id && k.slot in {0, 1, 2}))
    && (forall k :: k in after.blocked <==> k in db.blocked && k.job != id)
  }

  // ---------------------------------------------------------------------------------
  // The move into history
  // ---------------------------------------------------------------------------------

  lemma {:induction false} NewestIsLatest(attempts: seq<Attempt>, id: JobId)
    ensures Newest(attempts, id).None? ==> forall i :: !LatestOf(attempts, i, id)
    ensures Newest(attempts, id).Some? ==> exists i :: LatestOf(attempts, i, id)
    ensures forall i :: LatestOf(attempts, i, id) ==> Newest(attempts, id) == Some(attempts[i])
  {
    if attempts != [] {
      var n := |attempts| - 1;
      if attempts[n].job == id {
        assert LatestOf(attempts, n, id);
      } else {
        var init := attempts[..n];
        NewestIsLatest(init, id);
        forall i ensures LatestOf(attempts, i, id) <==> LatestOf(init, i, id) {}
      }
    }
  }

  lemma CloseAllClosesOpen(attempts: seq<Attempt>, id: JobId, outcome: CloseOutcome, now: Time)
    ensures ClosesOpen(attempts, CloseAll(attempts, id, outcome, now).attempts, id, outcome, now)
  {
  }

  /** Under the invariant the fences alone decide, and the history key is never taken. */
  lemma FinishMoves(db: DB, id: JobId, status: Status, f: Fence, settle: bool, finishedAt: Option<Time>, now: Time)
    requires Inv(db)
    ensures var m := FinishIn(db, id, status, f, settle, finishedAt, now);
            && (m.MovedTo? <==> FenceHolds(db, id, f)) && !m.KeyTaken?
            && (m.MovedTo? ==>
                  && MovesTo(db, m.db, id, status, if finishedAt.Some? then finishedAt.value else OwnFinish(db.live[id], now),
                             db.live[id].retryPending && !settle)
                  && ClosesOpen(db.attempts, m.db.attempts, id, if status == Success then ClosedSuccess else ClosedAbandoned, now)
                  && SameIndex(db, m.db))
  {
    NewestIsLatest(db.attempts, id);
    CloseAllClosesOpen(db.attempts, id, if status == Success then ClosedSuccess else ClosedAbandoned, now);
  }

  // ---------------------------------------------------------------------------------
  // Claims
  // ---------------------------------------------------------------------------------

  /** The entry a claim needs: the one it names, any entry of the job, or none. */
  predicate HasEntry(db: DB, op: Op)
    requires op.ClaimEntry? || op.AtomicClaim? || op.ClaimById?
  {
    match op
    case ClaimEntry(id, slot, _, _, _, _) => ReadyKey(slot, id) in db.ready
    case AtomicClaim(id, _, _, _, _) => exists k :: k in db.ready && k.job == id && k.slot in {0, 1, 2}
    case ClaimById(_, _, _, _) => true
  }

  /** A claim is accepted exactly when its entry exists and the job is live, queued, idle and of the version
      the claimer read; it then appends the attempt it hands out, and deletes what entries it owns. */
  lemma ClaimOutcome(db: DB, op: Op)
    requires op.ClaimEntry? || op.AtomicClaim? || op.ClaimById?
    ensures var e := Step(db, op);
            && (e.reply == Accepted <==>
                  && HasEntry(db, op) && op.id in db.live && db.live[op.id].status == Queued && !HasOpen(db.attempts, op.id)
                  && (!op.ClaimById? && op.expected.Some? ==> db.live[op.id].version == op.expected.value))
            && (e.reply == Accepted ==>
                  && e.db.attempts == db.attempts + [Attempt(op.id, op.token, op.worker, op.now, None, None)]
                  && e.db.live == db.live && e.db.history == db.history
                  && (op.ClaimEntry? ==> e.db.ready == db.ready - {ReadyKey(op.slot, op.id)} && e.db.blocked == db.blocked)
                  && (op.AtomicClaim? ==> e.db.blocked == db.blocked && EntriesGone(db, e.db.(blocked := DeleteBlocked(db.blocked, op.id)), op.id))
                  && (op.ClaimById? ==> EntriesGone(db, e.db, op.id)))
  {
    if op.AtomicClaim? && HasEntry(db, op) {
      var k :| k in db.ready && k.job == op.id && k.slot in {0, 1, 2};
      assert k in db.ready && k !in DeleteReady(db.ready, op.id);
    } else if op.AtomicClaim? {
      assert DeleteReady(db.ready, op.id) == db.ready;
    }
  }

  /** The claim that is turned away leaves every entry, except those of a job that is not queued or is
      running already. */
  lemma RefusedClaimOutcome(db: DB, op: Op)
    requires (op.ClaimEntry? || op.AtomicClaim? || op.ClaimById?) && Step(db, op).reply != Accepted
    ensures var e := Step(db, op);
            && e.reply == Idle && e.db.live == db.live && e.db.attempts == db.attempts && e.db.history == db.history
            && (e.db != db ==> op.id in db.live && (db.live[op.id].status != Queued || HasOpen(db.attempts, op.id)))
            && (op.ClaimEntry? && HasEntry(db, op) && op.id in db.live && (db.live[op.id].status != Queued || HasOpen(db.attempts, op.id)) ==>
                  e.db.ready == db.ready - {ReadyKey(op.slot, op.id)} && e.db.blocked == db.blocked)
  {
  }

  // ---------------------------------------------------------------------------------
  // Completions
  // ---------------------------------------------------------------------------------

  /** What an accepted completion records: a success, or a failure that owes no retry, as a row of history
      finished now; a failure that owes its retry on the live row. */
  ghost predicate Recorded(db: DB, after: DB, id: JobId, success: bool, pending: bool, now: Time) {
    if success then
      id in db.live && MovesTo(db, after, id, Success, now, db.live[id].retryPending)
    else if !pending then
      MovesTo(db, after, id, Failed, now, false)
    else
      && id in db.live && after.history == db.history
      && after.live == db.live[id := db.live[id].(status := Failed, version := db.live[id].version + 1,
                                                   retryPending := true, finishedAt := Some(now))]
  }

  /** Start and worker of a finished row do not depend on which attempts are closed. */
  lemma MovesAfterClosing(db: DB, closed: seq<Attempt>, after: DB, id: JobId, status: Status, finished: Time, owed: bool)
    requires Extends(db.attempts, closed) && |closed| == |db.attempts|
    requires MovesTo(db.(attempts := closed), after, id, status, finished, owed)
    ensures MovesTo(db, after, id, status, finished, owed)
  {
    forall i ensures LatestOf(db.attempts, i, id) <==> LatestOf(closed, i, id) {}
  }

  lemma AnyStatusPasses(s: Status)
    ensures s in ANY_STATUS
  {
    match s case _ => assert s == Queued || s == Running || s == ShuttingDown || s == Success || s == Failed || s == Archived;
  }

  /** What a completion records once its attempt is closed, and when. */
  lemma RecordOutcome(db: DB, closed: seq<Attempt>, id: JobId, expected: Option<int>, success: bool, pending: bool, now: Time)
    requires Inv(db) && Extends(db.attempts, closed) && |closed| == |db.attempts| && id in db.live
    ensures var e := RecordCompletion(db, db.(attempts := closed), id, expected, success, pending, now);
            && (e.reply == Accepted <==> (expected.Some? ==> db.live[id].version == expected.value))
            && (e.reply != Accepted ==> e.reply == Stale && e.db == db)
            && (e.reply == Accepted ==>
                  && Recorded(db, e.db, id, success, pending, now) && SameIndex(db, e.db)
                  && (if !success && pending then e.db.attempts == closed
                      else ClosesOpen(closed, e.db.attempts, id, if success then ClosedSuccess else ClosedAbandoned, now)))
  {
    var c := db.(attempts := closed);
    ClosingKeeps(db.attempts, closed);
    assert Inv(c);
    AnyStatusPasses(db.live[id].status);
    if success || !pending {
      var status, fence := if success then Success else Failed, UNFENCED.(version := expected);
      FinishMoves(c, id, status, fence, !success, Some(now), now);
      var m := FinishIn(c, id, status, fence, !success, Some(now), now);
      if m.MovedTo? {
        MovesAfterClosing(db, closed, m.db, id, status, now, db.live[id].retryPending && success);
      }
    }
  }

  /** A completion is accepted exactly when the job is live, the attempt it presents is open with that token, and
      the version matches, if one is given. It then records its outcome and closes that attempt with it; otherwise
      nothing changes, and the caller learns that it is stale unless the job is unknown. */
  lemma CompletionOutcome(db: DB, op: Op)
    requires Inv(db) && op.Complete?
    ensures var e := Step(db, op);
            && (e.reply == Accepted <==>
                  && op.id in db.live && 0 <= op.attempt < |db.attempts| && db.attempts[op.attempt].token == op.token
                  && IsOpen(db.attempts[op.attempt]) && (op.expected.Some? ==> db.live[op.id].version == op.expected.value))
            && (e.reply != Accepted ==> e.db == db && (e.reply == Idle <==> !Known(db, op.id)))
            && (e.reply == Accepted ==>
                  && Recorded(db, e.db, op.id, op.success, op.pending, op.now) && SameIndex(db, e.db)
                  && |e.db.attempts| == |db.attempts|
                  && e.db.attempts[op.attempt] == db.attempts[op.attempt].(finishedAt := Some(op.now),
                                                    outcome := Some(if op.success then ClosedSuccess else ClosedFailed)))
  {
    if op.id in db.live {
      var outcome := if op.success then ClosedSuccess else ClosedFailed;
      CloseExactCloses(db.attempts, op.attempt, op.token, outcome, op.now);
      RecordOutcome(db, CloseExact(db.attempts, op.attempt, op.token, outcome, op.now).attempts, op.id, op.expected, op.success, op.pending, op.now);
    }
  }

  lemma ExactCloseOfOwn(attempts: seq<Attempt>, i: int, id: JobId, outcome: CloseOutcome, now: Time)
    requires OneOpenAttempt(attempts) && OpenAt(attempts, i, id)
    ensures var closed := CloseExact(attempts, i, attempts[i].token, outcome, now).attempts;
            ClosesOpen(attempts, closed, id, outcome, now) && forall k :: !OpenAt(closed, k, id)
  {
    forall k | OpenAt(attempts, k, id) ensures k == i {}
  }

  lemma NothingLeftToClose(closed: seq<Attempt>, after: seq<Attempt>, id: JobId, outcome: CloseOutcome, now: Time)
    requires ClosesOpen(closed, after, id, outcome, now) && forall k :: !OpenAt(closed, k, id)
    ensures after == closed
  {
  }

  /** A completion that presents an attempt of its own job closes that attempt and touches no other. */
  lemma CompletionClosesItsAttempt(db: DB, op: Op)
    requires Inv(db) && op.Complete? && Step(db, op).reply == Accepted
    requires 0 <= op.attempt < |db.attempts| && db.attempts[op.attempt].job == op.id
    ensures ClosesOpen(db.attempts, Step(db, op).db.attempts, op.id, if op.success then ClosedSuccess else ClosedFailed, op.now)
  {
    var outcome := if op.success then ClosedSuccess else ClosedFailed;
    var closed := CloseExact(db.attempts, op.attempt, op.token, outcome, op.now).attempts;
    CompletionOutcome(db, op);
    ExactCloseOfOwn(db.attempts, op.attempt, op.id, outcome, op.now);
    CloseExactCloses(db.attempts, op.attempt, op.token, outcome, op.now);
    RecordOutcome(db, closed, op.id, op.expected, op.success, op.pending, op.now);
    if op.success || !op.pending {
      NothingLeftToClose(closed, Step(db, op).db.attempts, op.id, if op.success then ClosedSuccess else ClosedAbandoned, op.now);
    }
  }

  /** A completion without a handle, from recovery or for a job never claimed: accepted exactly when the job is live
      and of the given version; every open attempt of the job is closed, as abandoned unless it succeeded. */
  lemma UnfencedOutcome(db: DB, op: Op)
    requires Inv(db) && op.CompleteUnfenced?
    ensures var e := Step(db, op);
            && (e.reply == Accepted <==> op.id in db.live && (op.expected.Some? ==> db.live[op.id].version == op.expected.value))
            && (e.reply != Accepted ==> e.db == db && (e.reply == Stale <==> Known(db, op.id) && op.expected.Some?))
            && (e.reply == Accepted ==>
                  && Recorded(db, e.db, op.id, op.success, op.pending, op.now) && SameIndex(db, e.db)
                  && ClosesOpen(db.attempts, e.db.attempts, op.id, if op.success then ClosedSuccess else ClosedAbandoned, op.now))
  {
    if op.id in db.live {
      var outcome := if op.success then ClosedSuccess else ClosedAbandoned;
      CloseAllCloses(db.attempts, op.id, outcome, op.now);
      CloseAllClosesOpen(db.attempts, op.id, outcome, op.now);
      RecordOutcome(db, CloseAll(db.attempts, op.id, outcome, op.now).attempts, op.id, op.expected, op.success, op.pending, op.now);
    }
  }

  // ---------------------------------------------------------------------------------
  // Over runs
  // ---------------------------------------------------------------------------------

  /** The round trip: after an accepted claim, however much later, while its attempt is still open, the completion
      that presents the attempt and the token of the claim, and the version of the job if any, is accepted. */
  lemma ClaimedJobCanBeCompleted(db: DB, claim: Op, later: seq<Op>, op: Op)
    requires Inv(db) && (claim.ClaimEntry? || claim.AtomicClaim? || claim.ClaimById?) && Step(db, claim).reply == Accepted
    requires op.Complete? && op.id == claim.id && op.attempt == |db.attempts| && op.token == claim.token
    requires var at := Run(Step(db, claim).db, later);
             op.attempt < |at.attempts| && IsOpen(at.attempts[op.attempt]) &&
             (op.expected.Some? && op.id in at.live ==> at.live[op.id].version == op.expected.value)
    ensures Step(Run(Step(db, claim).db, later), op).reply == Accepted
  {
    ClaimOutcome(db, claim);
    EveryStepIsGood(db, claim);
    var start := Step(db, claim).db;
    RunKeepsInvariant(start, later);
    var at := Run(start, later);
    assert start.attempts[op.attempt] == at.attempts[op.attempt];
    assert OpenAt(at.attempts, op.attempt, op.id);
    CompletionOutcome(at, op);
  }

  /** After an accepted success the view shows the job once, as succeeded, forever. */
  lemma SuccessIsShownForever(db: DB, op: Op, later: seq<Op>, v: ViewRow)
    requires Inv(db) && (op.Complete? || op.CompleteUnfenced?) && op.success && Step(db, op).reply == Accepted
    requires var at := Run(Step(db, op).db, later); InView(at, v) && ViewId(v) == op.id
    ensures var at := Run(Step(db, op).db, later);
            v == Past(HistoryKey(op.now, op.id)) && Shown(at, v).status == Success && Shown(at, v).finishedAt == Some(op.now)
  {
    if op.Complete? {
      CompletionOutcome(db, op);
    } else {
      UnfencedOutcome(db, op);
    }
    EveryStepIsGood(db, op);
    var start := Step(db, op).db;
    RunKeepsInvariant(start, later);
    var at := Run(start, later);
    var past := Past(HistoryKey(op.now, op.id));
    assert InView(at, past);
    ViewShowsEachJobOnce(at, op.id);
  }

  // ---------------------------------------------------------------------------------
  // The other transactions
  // ---------------------------------------------------------------------------------

  /** A job is enqueued exactly when its id is new: queued, at version zero, never started, with a ready entry. */
  lemma EnqueueOutcome(db: DB, op: Op)
    requires op.Enqueue?
    ensures var e := Step(db, op);
            && (e.reply == Accepted <==> !Known(db, op.id)) && (e.reply != Accepted ==> e.db == db)
            && (e.reply == Accepted ==>
                  e.db == db.(live := db.live[op.id := Row(Queued, 0, op.createdAt, false, None, None, None, op.payload)],
                              ready := db.ready + {ReadyKey(op.slot, op.id)}))
  {
  }

  /** Abandoning closes the open attempts of the job and nothing else; releasing does so for a running job only,
      and gives it a ready entry back. */
  lemma AbandonOutcome(db: DB, op: Op)
    requires op.Abandon? || op.Release?
    ensures var e := Step(db, op);
            && (op.Abandon? ==> e.reply == Accepted && SameIndex(db, e.db))
            && (op.Release? ==> (e.reply == Accepted <==> op.id in db.live && db.live[op.id].status == Queued && HasOpen(db.attempts, op.id)))
            && (op.Release? && e.reply == Accepted ==> e.db.ready == db.ready + {ReadyKey(op.slot, op.id)} && e.db.blocked == db.blocked)
            && (e.reply != Accepted ==> e.db == db) && e.db.live == db.live && e.db.history == db.history
            && (e.reply == Accepted ==> ClosesOpen(db.attempts, e.db.attempts, op.id, ClosedAbandoned, op.now))
  {
    CloseAllClosesOpen(db.attempts, op.id, ClosedAbandoned, op.now);
    OpenIsCounted(db.attempts, op.id);
  }

  lemma {:induction false} OpenIsCounted(attempts: seq<Attempt>, id: JobId)
    ensures CountOpen(attempts, id) >= 1 <==> HasOpen(attempts, id)
  {
    if attempts != [] {
      var n := |attempts| - 1;
      var init := attempts[..n];
      OpenIsCounted(init, id);
      if HasOpen(init, id) {
        var i :| 0 <= i < |init| && OpenAt(init, i, id);
        assert OpenAt(attempts, i, id);
      }
      if attempts[n].job == id && IsOpen(attempts[n]) {
        assert OpenAt(attempts, n, id);
      } else if HasOpen(attempts, id) {
        var i :| 0 <= i < |attempts| && OpenAt(attempts, i, id);
        assert OpenAt(init, i, id);
      }
    }
  }

  /** A zombie is failed exactly when the job is running: it moves to history as failed, owing no retry, and its
      attempt is abandoned. */
  lemma ZombieOutcome(db: DB, op: Op)
    requires Inv(db) && op.FailZombie?
    ensures var e := Step(db, op);
            && (e.reply == Accepted <==> op.id in db.live && db.live[op.id].status == Queued && HasOpen(db.attempts, op.id))
            && (e.reply != Accepted ==> e.db == db)
            && (e.reply == Accepted ==>
                  && MovesTo(db, e.db, op.id, Failed, op.now, false) && SameIndex(db, e.db)
                  && ClosesOpen(db.attempts, e.db.attempts, op.id, ClosedAbandoned, op.now))
  {
    var closed := CloseAll(db.attempts, op.id, ClosedAbandoned, op.now).attempts;
    CloseAllCloses(db.attempts, op.id, ClosedAbandoned, op.now);
    CloseAllClosesOpen(db.attempts, op.id, ClosedAbandoned, op.now);
    OpenIsCounted(db.attempts, op.id);
    ClosingKeeps(db.attempts, closed);
    var c := db.(attempts := closed);
    assert Inv(c);
    FinishMoves(c, op.id, Failed, UNFENCED, true, Some(op.now), op.now);
    var m := FinishIn(c, op.id, Failed, UNFENCED, true, Some(op.now), op.now);
    if m.MovedTo? {
      MovesAfterClosing(db, closed, m.db, op.id, Failed, op.now, false);
    }
  }

  /** The status and the retry marker a job settles with, and when it settles at all: a waiting job fails; a failed
      one leaves as archived or failed with nothing owed; a stray leaves as it is, or archived if its retry exists;
      an ancestor takes the status of the job that succeeded for it. */
  ghost predicate Settles(db: DB, op: Op, status: Status, finished: Time, owed: bool)
    requires op.FailWaiting? || op.SettlePending? || op.SettleStray? || op.CascadeAncestor?
  {
    op.id in db.live &&
    var row := db.live[op.id];
    match op
    case FailWaiting(id, cancelled, now) =>
      && row.status == Queued && !HasOpen(db.attempts, id) && status == Failed
      && (if cancelled then finished == OwnFinish(row, now) && owed == row.retryPending else finished == now && !owed)
    case SettlePending(_, archived, now) =>
      row.status == Failed && (status == if archived then Archived else Failed) && finished == OwnFinish(row, now) && !owed
    case SettleStray(_, hasRetry, now) =>
      && (row.status == Success || row.status == Archived || (row.status == Failed && !row.retryPending))
      && (status == if row.status == Failed && hasRetry then Archived else row.status) && finished == OwnFinish(row, now) && !owed
    case CascadeAncestor(_, to, now) =>
      IsTerminal(to) && row.status != Success && row.status != Archived && status == to && finished == OwnFinish(row, now) && owed == row.retryPending
  }

  lemma SettleOutcome(db: DB, op: Op)
    requires Inv(db) && (op.FailWaiting? || op.SettlePending? || op.SettleStray? || op.CascadeAncestor?)
    ensures SettledBy(db, op)
  {
    match op
    case FailWaiting(id, cancelled, now) => WaitingOutcome(db, id, cancelled, now);
    case SettlePending(id, archived, now) => PendingOutcome(db, id, archived, now);
    case SettleStray(id, hasRetry, now) => StrayOutcome(db, id, hasRetry, now);
    case CascadeAncestor(id, status, now) => CascadeOutcome(db, id, status, now);
  }

  lemma WaitingOutcome(db: DB, id: JobId, cancelled: bool, now: Time)
    requires Inv(db)
    ensures SettledBy(db, FailWaiting(id, cancelled, now))
  {
    var before := db.(ready := DeleteReady(db.ready, id), blocked := DeleteBlocked(db.blocked, id));
    var op, f := FailWaiting(id, cancelled, now), Fence(None, {Queued}, true);
    FinishMoves(before, id, Failed, f, !cancelled, if cancelled then None else Some(now), now);
    if FenceHolds(before, id, f) {
      assert Settles(db, op, Failed, if cancelled then OwnFinish(db.live[id], now) else now, cancelled && db.live[id].retryPending);
    }
  }

  lemma PendingOutcome(db: DB, id: JobId, archived: bool, now: Time)
    requires Inv(db)
    ensures SettledBy(db, SettlePending(id, archived, now))
  {
    var status, f := if archived then Archived else Failed, Fence(None, {Failed}, false);
    FinishMoves(db, id, status, f, true, None, now);
    if FenceHolds(db, id, f) {
      assert Settles(db, SettlePending(id, archived, now), status, OwnFinish(db.live[id], now), false);
    }
  }

  lemma StrayOutcome(db: DB, id: JobId, hasRetry: bool, now: Time)
    requires Inv(db)
    ensures SettledBy(db, SettleStray(id, hasRetry, now))
  {
    if id in db.live {
      var row := db.live[id];
      var status := if row.status == Failed && hasRetry then Archived else row.status;
      FinishMoves(db, id, status, Fence(None, {row.status}, false), true, None, now);
      if row.status == Success || row.status == Archived || (row.status == Failed && !row.retryPending) {
        assert Settles(db, SettleStray(id, hasRetry, now), status, OwnFinish(row, now), false);
      }
    }
  }

  lemma CascadeOutcome(db: DB, id: JobId, status: Status, now: Time)
    requires Inv(db)
    ensures SettledBy(db, CascadeAncestor(id, status, now))
  {
    var f := Fence(None, {Queued, Running, Failed, ShuttingDown}, false);
    FinishMoves(db, id, status, f, false, None, now);
    if IsTerminal(status) && FenceHolds(db, id, f) {
      assert Settles(db, CascadeAncestor(id, status, now), status, OwnFinish(db.live[id], now), db.live[id].retryPending);
    }
  }

  /** The step takes effect exactly when the job settles, and moves it to history accordingly. */
  ghost predicate SettledBy(db: DB, op: Op)
    requires op.FailWaiting? || op.SettlePending? || op.SettleStray? || op.CascadeAncestor?
  {
    var e := Step(db, op);
    && (e.reply == Accepted <==> exists status, finished, owed :: Settles(db, op, status, finished, owed))
    && (e.reply != Accepted ==> e.db == db)
    && (e.reply == Accepted ==> forall status, finished, owed :: Settles(db, op, status, finished, owed) ==>
          && MovesTo(db, e.db, op.id, status, finished, owed)
          && ClosesOpen(db.attempts, e.db.attempts, op.id, if status == Success then ClosedSuccess else ClosedAbandoned, op.now))
    && (e.reply == Accepted ==> if op.FailWaiting? then EntriesGone(db, e.db, op.id) else SameIndex(db, e.db))
  }

  /** Marking a job as shutting down, or editing it, writes that one live row. */
  lemma RowWriteOutcome(db: DB, op: Op)
    requires op.ShutDown? || op.EditRow?
    ensures var e := Step(db, op);
            && (e.reply == Accepted <==> op.id in db.live) && (e.reply != Accepted ==> e.db == db)
            && e.db.history == db.history && e.db.attempts == db.attempts && SameIndex(db, e.db) && e.db.live.Keys == db.live.Keys
            && (forall id :: id in db.live && id != op.id ==> e.db.live[id] == db.live[id])
            && (op.id in db.live ==>
                  e.db.live[op.id] == if op.ShutDown? then db.live[op.id].(status := ShuttingDown)
                                      else db.live[op.id].(payload := op.payload, version := db.live[op.id].version + 1))
  {
  }

  // ---------------------------------------------------------------------------------
  // What a reader sees
  // ---------------------------------------------------------------------------------

  /** A running job is shown with the status running and the start and worker of its open attempt, every other live job as
      stored, a finished one as recorded. */
  lemma ViewContents(db: DB, v: ViewRow)
    requires InView(db, v)
    ensures v.Past? ==> Shown(db, v) == db.history[v.key]
    ensures !v.Past? ==>
      var id := ViewId(v);
      && id in db.live
      && (db.live[id].status == Queued && HasOpen(db.attempts, id) ==>
            exists i :: OpenAt(db.attempts, i, id) &&
              Shown(db, v) == db.live[id].(status := Running, startedAt := Some(db.attempts[i].claimedAt), worker := db.attempts[i].worker))
      && (!(db.live[id].status == Queued && HasOpen(db.attempts, id)) ==> Shown(db, v) == db.live[id])
  {
    match v
    case Joined(id, i) => assert OpenAt(db.attempts, i, id);
    case Unjoined(id) =>
      assert forall i :: OpenAt(db.attempts, i, id) && db.live[id].status == Queued ==> JoinsWith(db, id, i);
    case Past(_) =>
  }
}
