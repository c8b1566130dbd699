/** The switch from rows stored as `running` to the attempt-derived running state
    (`normalize_running_sql`) and back (`denormalize_running_sql`). */
module RunningState {
  import opened Lifecycle

  /** The state the older claim left behind: an open attempt only on a running row, at most one
      each; a row claimed before attempts existed may have none. */
  ghost predicate OldStyle(db: DB) {
    && OneOpenAttempt(db.attempts)
    && forall i, id :: OpenAt(db.attempts, i, id) ==> id in db.live && db.live[id].status == Running
  }

  /** An enumeration of the live rows, in whatever order the scan returns them. */
  ghost predicate Scan(db: DB, order: seq<JobId>) {
    && (forall id :: id in order <==> id in db.live)
    && forall i, j :: 0 <= i < j < |order| ==> order[i] != order[j]
  }

  predicate LacksAttempt(db: DB, id: JobId) {
    id in db.live && db.live[id].status == Running && !HasOpen(db.attempts, id)
  }

  function Coalesce(a: Option<Time>, b: Time): Time {
    if a.Some? then a.value else b
  }

  /** The rows of the INSERT .. SELECT. */
  function BuiltAttempts(db: DB, order: seq<JobId>, token: JobId -> int): seq<Attempt> {
    if order == [] then []
    else
      (if LacksAttempt(db, order[0])
       then var row := db.live[order[0]];
            [Attempt(order[0], token(order[0]), row.worker, Coalesce(row.startedAt, row.createdAt), None, None)]
       else []) + BuiltAttempts(db, order[1..], token)
  }

  function Requeued(live: map<JobId, Row>): map<JobId, Row> {
    map id | id in live :: if live[id].status == Running then live[id].(status := Queued) else live[id]
  }

  /** Both statements of the migration. */
  function Normalize(db: DB, order: seq<JobId>, token: JobId -> int): DB {
    db.(attempts := db.attempts + BuiltAttempts(db, order, token), live := Requeued(db.live))
  }

  /** The newest open attempt of a job. */
  function NewestOpen(attempts: seq<Attempt>, job: JobId): Option<Attempt> {
    if attempts == [] then None
    else
      var a := attempts[|attempts| - 1];
      if a.job == job && IsOpen(a) then Some(a) else NewestOpen(attempts[..|attempts| - 1], job)
  }

  function Remarked(row: Row, open: Option<Attempt>): Row {
    if row.status == Queued && open.Some?
    then row.(status := Running, startedAt := Some(open.value.claimedAt), worker := open.value.worker)
    else row
  }

  /** The reverse migration; attempts stay. */
  function Denormalize(db: DB): DB {
    db.(live := map id | id in db.live :: Remarked(db.live[id], NewestOpen(db.attempts, id)))
  }

  // ---------------------------------------------------------------------------------
  // The built attempts
  // ---------------------------------------------------------------------------------

  /** The attempt the migration builds for a running row that has none. */
  ghost predicate BuiltFrom(db: DB, a: Attempt) {
    && LacksAttempt(db, a.job)
    && IsOpen(a)
    && a.worker == db.live[a.job].worker
    && a.claimedAt == Coalesce(db.live[a.job].startedAt, db.live[a.job].createdAt)
  }

  lemma {:induction false} BuiltShape(db: DB, order: seq<JobId>, token: JobId -> int)
    requires forall i, j :: 0 <= i < j < |order| ==> order[i] != order[j]
    ensures var b := BuiltAttempts(db, order, token);
            && (forall a :: a in b ==> BuiltFrom(db, a) && a.job in order)
            && (forall i, j :: 0 <= i < j < |b| ==> b[i].job != b[j].job)
            && (forall id :: id in order && LacksAttempt(db, id) ==> exists a :: a in b && a.job == id)
  {
    if order != [] {
      var rest := order[1..];
      BuiltShape(db, rest, token);
      assert order == [order[0]] + rest;
      assert order[0] !in rest;
      var t := BuiltAttempts(db, rest, token);
      assert forall i :: 0 <= i < |t| ==> t[i] in t;
      if LacksAttempt(db, order[0]) {
        var b := BuiltAttempts(db, order, token);
        assert b == [b[0]] + t;
        forall id | id in order && LacksAttempt(db, id) ensures exists a :: a in b && a.job == id {
          if id == order[0] {
            assert b[0] in b && b[0].job == id;
          } else {
            var a :| a in t && a.job == id;
            assert a in b;
          }
        }
      } else {
        assert BuiltAttempts(db, order, token) == t;
      }
    }
  }

  /** An open attempt after the migration is one that was open before, or one built for a running
      row that had none. */
  lemma OpenAfter(db: DB, order: seq<JobId>, token: JobId -> int, i: int, id: JobId)
    requires OldStyle(db) && Scan(db, order)
    ensures OpenAt(Normalize(db, order, token).attempts, i, id) <==>
            OpenAt(db.attempts, i, id) ||
            (var b := BuiltAttempts(db, order, token); |db.attempts| <= i < |db.attempts| + |b| && OpenAt(b, i - |db.attempts|, id))
  {
  }

  lemma OneOpenAfter(db: DB, order: seq<JobId>, token: JobId -> int, i: int, j: int, id: JobId)
    requires OldStyle(db) && Scan(db, order)
    requires OpenAt(Normalize(db, order, token).attempts, i, id) && OpenAt(Normalize(db, order, token).attempts, j, id)
    ensures i == j
  {
    BuiltShape(db, order, token);
    OpenAfter(db, order, token, i, id);
    OpenAfter(db, order, token, j, id);
    var b, m := BuiltAttempts(db, order, token), |db.attempts|;
    assert i >= m ==> b[i - m] in b;
    assert j >= m ==> b[j - m] in b;
  }

  lemma OpenAfterIsRunning(db: DB, order: seq<JobId>, token: JobId -> int, i: int, id: JobId)
    requires OldStyle(db) && Scan(db, order) && OpenAt(Normalize(db, order, token).attempts, i, id)
    ensures id in db.live && db.live[id].status == Running
  {
    OpenAfter(db, order, token, i, id);
    BuiltAre(db, order, token, i - |db.attempts|);
  }

  lemma RunningIsOpenAfter(db: DB, order: seq<JobId>, token: JobId -> int, id: JobId)
    requires OldStyle(db) && Scan(db, order) && id in db.live && db.live[id].status == Running
    ensures HasOpen(Normalize(db, order, token).attempts, id)
  {
    var n, b, m := Normalize(db, order, token), BuiltAttempts(db, order, token), |db.attempts|;
    if HasOpen(db.attempts, id) {
      var i :| 0 <= i < |db.attempts| && OpenAt(db.attempts, i, id);
      OpenAfter(db, order, token, i, id);
    } else {
      BuiltShape(db, order, token);
      var a :| a in b && a.job == id;
      var i :| 0 <= i < |b| && b[i] == a;
      BuiltAre(db, order, token, i);
      OpenAfter(db, order, token, m + i, id);
    }
  }

  lemma OpenAfterIffRunning(db: DB, order: seq<JobId>, token: JobId -> int, id: JobId)
    requires OldStyle(db) && Scan(db, order)
    ensures HasOpen(Normalize(db, order, token).attempts, id) <==> id in db.live && db.live[id].status == Running
  {
    var n := Normalize(db, order, token);
    if HasOpen(n.attempts, id) {
      var i :| 0 <= i < |n.attempts| && OpenAt(n.attempts, i, id);
      OpenAfterIsRunning(db, order, token, i, id);
    }
    if id in db.live && db.live[id].status == Running {
      RunningIsOpenAfter(db, order, token, id);
    }
  }

  /** After the migration a row is queued with exactly one open attempt where it was running, and
      open attempts exist for no other row. */
  lemma NormalizedAttempts(db: DB, order: seq<JobId>, token: JobId -> int)
    requires OldStyle(db) && Scan(db, order)
    ensures var n := Normalize(db, order, token);
            && OneOpenAttempt(n.attempts)
            && n.live.Keys == db.live.Keys
            && forall id :: HasOpen(n.attempts, id) <==> id in db.live && db.live[id].status == Running
  {
    var n := Normalize(db, order, token);
    forall i, j, id | OpenAt(n.attempts, i, id) && OpenAt(n.attempts, j, id) ensures i == j {
      OneOpenAfter(db, order, token, i, j, id);
    }
    forall id ensures HasOpen(n.attempts, id) <==> id in db.live && db.live[id].status == Running {
      OpenAfterIffRunning(db, order, token, id);
    }
  }

  /** What the migration writes, row by row: a running row becomes queued and is otherwise as it was, every other row is
      untouched, old attempts and history stay, and a new attempt carries the worker of its row and its start, or the
      row's creation if it recorded none. */
  lemma NormalizedContents(db: DB, order: seq<JobId>, token: JobId -> int, id: JobId, i: int)
    requires OldStyle(db) && Scan(db, order)
    ensures var n := Normalize(db, order, token);
            && n.history == db.history && n.ready == db.ready && n.blocked == db.blocked
            && (id in db.live ==> id in n.live && n.live[id] == if db.live[id].status == Running then db.live[id].(status := Queued) else db.live[id])
            && (0 <= i < |db.attempts| ==> i < |n.attempts| && n.attempts[i] == db.attempts[i])
            && (|db.attempts| <= i < |n.attempts| ==>
                  var a := n.attempts[i];
                  && a.job in db.live && db.live[a.job].status == Running && a.finishedAt == None && a.outcome == None
                  && a.token == token(a.job) && a.worker == db.live[a.job].worker
                  && a.claimedAt == if db.live[a.job].startedAt.Some? then db.live[a.job].startedAt.value else db.live[a.job].createdAt)
  {
    BuiltAre(db, order, token, i - |db.attempts|);
  }

  lemma {:induction false} BuiltAre(db: DB, order: seq<JobId>, token: JobId -> int, i: int)
    ensures var b := BuiltAttempts(db, order, token);
            0 <= i < |b| ==>
              && b[i].job in db.live && db.live[b[i].job].status == Running && b[i].finishedAt == None && b[i].outcome == None
              && b[i].token == token(b[i].job) && b[i].worker == db.live[b[i].job].worker
              && b[i].claimedAt == if db.live[b[i].job].startedAt.Some? then db.live[b[i].job].startedAt.value else db.live[b[i].job].createdAt
    decreases |order|
  {
    if order != [] {
      BuiltAre(db, order[1..], token, if LacksAttempt(db, order[0]) then i - 1 else i);
    }
  }

  // ---------------------------------------------------------------------------------
  // Meaning
  // ---------------------------------------------------------------------------------

  ghost function DerivedOf(db: DB, id: JobId): Status
    requires id in db.live
  {
    DerivedStatus(db.live[id].status, HasOpen(db.attempts, id))
  }

  /** The switch preserves meaning: before it the plain and the derived view agree, and after it
      the derived view shows what the plain view showed before. */
  lemma NormalizePreservesStatus(db: DB, order: seq<JobId>, token: JobId -> int, id: JobId)
    requires OldStyle(db) && Scan(db, order) && id in db.live
    ensures id in Normalize(db, order, token).live
    ensures DerivedOf(db, id) == db.live[id].status
    ensures DerivedOf(Normalize(db, order, token), id) == db.live[id].status
  {
    NormalizedAttempts(db, order, token);
    if HasOpen(db.attempts, id) {
      var i :| 0 <= i < |db.attempts| && OpenAt(db.attempts, i, id);
    }
  }

  lemma {:induction false} NothingToBuild(db: DB, order: seq<JobId>, token: JobId -> int)
    requires forall id :: !LacksAttempt(db, id)
    ensures BuiltAttempts(db, order, token) == []
  {
    if order != [] {
      NothingToBuild(db, order[1..], token);
    }
  }

  /** Running the migration again changes nothing. */
  lemma NormalizeIsIdempotent(db: DB, order: seq<JobId>, token: JobId -> int, again: seq<JobId>, token': JobId -> int)
    requires OldStyle(db) && Scan(db, order)
    ensures var n := Normalize(db, order, token); Normalize(n, again, token') == n
  {
    var n := Normalize(db, order, token);
    assert forall id :: id in n.live ==> n.live[id].status != Running;
    NothingToBuild(n, again, token');
    assert Requeued(n.live) == n.live;
    assert n.attempts + [] == n.attempts;
  }

  lemma {:induction false} NewestOpenIsTheOpen(attempts: seq<Attempt>, job: JobId)
    ensures NewestOpen(attempts, job).Some? <==> HasOpen(attempts, job)
    ensures NewestOpen(attempts, job).Some? ==>
              exists i :: 0 <= i < |attempts| && OpenAt(attempts, i, job) && attempts[i] == NewestOpen(attempts, job).value
  {
    if attempts != [] {
      var n := |attempts| - 1;
      var init := attempts[..n];
      if OpenAt(attempts, n, job) {
      } else {
        NewestOpenIsTheOpen(init, job);
        if HasOpen(init, job) {
          var i :| 0 <= i < |init| && OpenAt(init, i, job) && init[i] == NewestOpen(init, job).value;
          assert OpenAt(attempts, i, job) && attempts[i] == init[i];
        }
        if HasOpen(attempts, job) {
          var i :| 0 <= i < |attempts| && OpenAt(attempts, i, job);
          assert OpenAt(init, i, job);
        }
      }
    }
  }

  /** The start and worker a running row has once its attempt is written back. */
  ghost predicate AgreesWithAttempt(db: DB, id: JobId)
    requires id in db.live
  {
    var row := db.live[id];
    && (LacksAttempt(db, id) ==> row.startedAt.Some?)
    && (forall i :: OpenAt(db.attempts, i, id) ==>
          row.startedAt == Some(db.attempts[i].claimedAt) && row.worker == db.attempts[i].worker)
  }

  /** The open attempt of a running row after the migration: its own, or one built from the row. */
  lemma OpenAfterwards(db: DB, order: seq<JobId>, token: JobId -> int, id: JobId, a: Attempt)
    requires OldStyle(db) && Scan(db, order) && id in db.live && db.live[id].status == Running
    requires NewestOpen(Normalize(db, order, token).attempts, id) == Some(a)
    ensures var row := db.live[id];
            AgreesWithAttempt(db, id) <==> row.startedAt == Some(a.claimedAt) && row.worker == a.worker
  {
    var n, m := Normalize(db, order, token), |db.attempts|;
    NewestOpenIsTheOpen(n.attempts, id);
    var i :| 0 <= i < |n.attempts| && OpenAt(n.attempts, i, id) && n.attempts[i] == a;
    BuiltShape(db, order, token);
    if i < m {
      assert OpenAt(db.attempts, i, id);
      assert HasOpen(db.attempts, id);
      assert forall j :: OpenAt(db.attempts, j, id) ==> j == i;
    } else {
      BuiltAre(db, order, token, i - m);
      assert n.attempts[i] in BuiltAttempts(db, order, token);
      assert LacksAttempt(db, id);
      assert forall j :: OpenAt(db.attempts, j, id) ==> 0 <= j < m;
    }
  }

  /** The reverse marks exactly the rows that were running, and gives back every row unchanged
      exactly where a running row agreed with its attempt (or, having none, recorded its start). */
  lemma DenormalizeRestores(db: DB, order: seq<JobId>, token: JobId -> int, id: JobId)
    requires OldStyle(db) && Scan(db, order) && id in db.live
    ensures var d := Denormalize(Normalize(db, order, token));
            && id in d.live
            && d.live[id].status == db.live[id].status
    ensures var d := Denormalize(Normalize(db, order, token));
            d.live[id] == db.live[id] <==> (db.live[id].status == Running ==> AgreesWithAttempt(db, id))
  {
    var n := Normalize(db, order, token);
    NormalizedAttempts(db, order, token);
    NewestOpenIsTheOpen(n.attempts, id);
    if db.live[id].status == Running {
      OpenAfterwards(db, order, token, id, NewestOpen(n.attempts, id).value);
    }
  }
}
