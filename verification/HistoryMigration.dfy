/** The batched data migrations between the live table and the insert-only history. */
module HistoryMigration {

  datatype Option<T> = None | Some(value: T)

  datatype Status = Queued | Running | ShuttingDown | Success | Failed | Archived

  /** A job row; `payload` stands for the columns that are copied as they are. */
  datatype Row = Row(status: Status, reason: Option<string>, createdAt: int, startedAt: Option<int>,
                     finishedAt: Option<int>, payload: int)

  /** A sort key: a time, then the job id. The history table has (finished_at, id) as primary key. */
  datatype Key = Key(time: int, id: int)

  /** Job ids are unique in the live table. */
  datatype Tables = Tables(live: map<int, Row>, history: map<Key, Row>)

  // ---------------------------------------------------------------------------------
  // Which rows move
  // ---------------------------------------------------------------------------------

  /** `LIKE 'retry_pending%'`, in which `_` stands for any character. */
  predicate LikeRetryPending(reason: string) {
    |reason| >= 13 && reason[..5] == "retry" && reason[6..13] == "pending"
  }

  /** `is_retry_pending`: the marker alone, or followed by a colon and the original reason. */
  predicate IsRetryPending(reason: string) {
    reason == "retry_pending" || (|reason| >= 14 && reason[..14] == "retry_pending:")
  }

  /** The migration leaves every row that owes a retry, and beyond those exactly the ones whose
      reason has another character at one of two places of the marker. */
  lemma LikeVersusMarker(reason: string)
    ensures IsRetryPending(reason) ==> LikeRetryPending(reason)
    ensures LikeRetryPending(reason) && !IsRetryPending(reason) <==>
            LikeRetryPending(reason) && (reason[5] != '_' || (|reason| > 13 && reason[13] != ':'))
  {
    if |reason| >= 13 {
      assert reason[..13] == reason[..5] + [reason[5]] + reason[6..13];
      assert "retry_pending"[..5] == "retry" && "retry_pending"[6..13] == "pending";
      assert "retry_pending" == "retry" + ['_'] + "pending";
      if |reason| == 13 {
        assert reason[..13] == reason;
      } else {
        assert reason[..14] == reason[..13] + [reason[13]];
        assert "retry_pending:" == "retry_pending" + [':'];
        assert reason[..14][5] == reason[5] && reason[..14][13] == reason[13];
        assert "retry_pending:"[..13] == "retry_pending";
        assert reason[..14][..13] == reason[..13];
      }
    }
  }

  predicate IsTerminal(s: Status) { s == Success || s == Failed || s == Archived }

  predicate Movable(row: Row) {
    IsTerminal(row.status) && !LikeRetryPending(if row.reason.Some? then row.reason.value else "")
  }

  /** `COALESCE(finished_at, started_at, created_at)` */
  function FinishTime(row: Row): int {
    if row.finishedAt.Some? then row.finishedAt.value
    else if row.startedAt.Some? then row.startedAt.value else row.createdAt
  }

  function CopyOf(row: Row): Row { row.(finishedAt := Some(FinishTime(row))) }

  function KeyOf(id: int, row: Row): Key { Key(FinishTime(row), id) }

  // ---------------------------------------------------------------------------------
  // ORDER BY ... LIMIT
  // ---------------------------------------------------------------------------------

  predicate Less(a: Key, b: Key) {
    a.time < b.time || (a.time == b.time && a.id < b.id)
  }

  function Below(keys: set<Key>, k: Key): set<Key> {
    set j | j in keys && Less(j, k)
  }

  /** The first `n` keys in order. */
  function FirstN(keys: set<Key>, n: nat): set<Key> {
    set k | k in keys && |Below(keys, k)| < n
  }

  lemma {:induction false} LargestExists(keys: set<Key>) returns (m: Key)
    requires keys != {}
    ensures m in keys && forall k :: k in keys && k != m ==> Less(k, m)
    decreases |keys|
  {
    m :| m in keys;
    if keys != {m} {
      var first := m;
      var rest := LargestExists(keys - {first});
      m := if Less(first, rest) then rest else first;
      assert forall k :: k in keys ==> k == first || k in keys - {first};
    }
  }

  /** `FirstN` is what the statement picks: `n` rows, or all of them when there are fewer. */
  lemma {:induction false} FirstNSize(keys: set<Key>, n: nat)
    ensures |FirstN(keys, n)| == if |keys| < n then |keys| else n
    decreases |keys|
  {
    if keys != {} {
      var m := LargestExists(keys);
      var rest := keys - {m};
      FirstNSize(rest, n);
      assert Below(keys, m) == rest;
      forall k | k in rest ensures Below(keys, k) == Below(rest, k) {
        assert Less(k, m) && !Less(m, k);
      }
      assert FirstN(keys, n) == FirstN(rest, n) + if |rest| < n then {m} else {};
    }
  }

  // ---------------------------------------------------------------------------------
  // Statements of the forward migration
  // ---------------------------------------------------------------------------------

  function Eligible(live: map<int, Row>): set<int> {
    set id | id in live && Movable(live[id])
  }

  function EligibleKeys(live: map<int, Row>): set<Key> {
    set id | id in live && Movable(live[id]) :: Key(live[id].createdAt, id)
  }

  /** The rows one batch is about: the oldest eligible ones. */
  function Batch(live: map<int, Row>, batch: nat): set<int> {
    set id | id in live && Movable(live[id]) && Key(live[id].createdAt, id) in FirstN(EligibleKeys(live), batch)
  }

  predicate InHistory(t: Tables, id: int) {
    exists k :: k in t.history && k.id == id
  }

  /** The history keys of some live rows. */
  function CopyKeys(live: map<int, Row>, ids: set<int>): (keys: set<Key>)
    requires ids <= live.Keys
    ensures forall k :: k in keys <==> k.id in ids && k == KeyOf(k.id, live[k.id])
  {
    set id | id in ids :: KeyOf(id, live[id])
  }

  /** The rows the insert of one batch adds; an existing key is left alone. */
  function NewCopies(t: Tables, batch: nat): map<Key, Row> {
    map k | k in CopyKeys(t.live, Batch(t.live, batch)) && k !in t.history :: CopyOf(t.live[k.id])
  }

  function InsertBatch(t: Tables, batch: nat): Tables {
    t.(history := t.history + NewCopies(t, batch))
  }

  function Deletable(t: Tables, batch: nat): set<int> {
    set id | id in Batch(t.live, batch) && InHistory(t, id)
  }

  function DeleteBatch(t: Tables, batch: nat): Tables {
    t.(live := map id | id in t.live && id !in Deletable(t, batch) :: t.live[id])
  }

  // ---------------------------------------------------------------------------------
  // What the migrations lead to
  // ---------------------------------------------------------------------------------

  /** A history row that shares its id with a live row is the copy of that row, and ids are unique in
      the history. */
  ghost predicate Consistent(t: Tables) {
    && (forall k :: k in t.history ==> t.history[k].finishedAt == Some(k.time))
    && (forall k :: k in t.history && k.id in t.live ==>
          k == KeyOf(k.id, t.live[k.id]) && t.history[k] == CopyOf(t.live[k.id]))
    && (forall j, k :: j in t.history && k in t.history && j.id == k.id ==> j == k)
  }

  function Kept(live: map<int, Row>): map<int, Row> {
    map id | id in live && !Movable(live[id]) :: live[id]
  }

  /** Every movable row in history, every other row where it was. */
  function Moved(t: Tables): Tables {
    Tables(Kept(t.live),
           t.history + map k | k in CopyKeys(t.live, Eligible(t.live)) :: CopyOf(t.live[k.id]))
  }

  /** Every history row in the live table, which keeps the rows it has. */
  function Restored(t: Tables): Tables
    requires Consistent(t)
  {
    Tables(t.live + map k | k in t.history && k.id !in t.live :: k.id := t.history[k], map[])
  }

  /** A key is in the final history when it is there already or a movable row will get it. */
  lemma MovedHistory(t: Tables, k: Key)
    ensures k in Moved(t).history <==> k in t.history || (k.id in t.live && Movable(t.live[k.id]) && k == KeyOf(k.id, t.live[k.id]))
    ensures Consistent(t) && k in Moved(t).history ==>
      Moved(t).history[k] == if k in t.history then t.history[k] else CopyOf(t.live[k.id])
  {
  }

  /** One state is a little further than another on the way to the same end, as far as one key is
      concerned: rows only gain copies, and lose their live row only once copied. */
  ghost predicate FurtherAt(t: Tables, t': Tables, k: Key) {
    && (k.id in t'.live ==> k.id in t.live && t'.live[k.id] == t.live[k.id])
    && (k.id in t.live && k.id !in t'.live ==> Movable(t.live[k.id]) && KeyOf(k.id, t.live[k.id]) in t'.history)
    && (k in t.history ==> k in t'.history && t'.history[k] == t.history[k])
    && (k in t'.history && k !in t.history ==>
          k.id in t.live && Movable(t.live[k.id]) && k == KeyOf(k.id, t.live[k.id]) && t'.history[k] == CopyOf(t.live[k.id]))
  }

  lemma SameMovedAt(t: Tables, t': Tables, k: Key)
    requires Consistent(t) && Consistent(t') && FurtherAt(t, t', k)
    ensures k in Moved(t').history <==> k in Moved(t).history
    ensures k in Moved(t).history ==> Moved(t').history[k] == Moved(t).history[k]
    ensures k.id in Kept(t'.live) <==> k.id in Kept(t.live)
    ensures k.id in Kept(t.live) ==> Kept(t'.live)[k.id] == Kept(t.live)[k.id]
  {
    MovedHistory(t, k);
    MovedHistory(t', k);
  }

  lemma SameMap<K, V>(a: map<K, V>, b: map<K, V>)
    requires forall k :: (k in a <==> k in b) && (k in a ==> a[k] == b[k])
    ensures a == b
  {
  }

  lemma SameMovedHistory(t: Tables, t': Tables)
    requires Consistent(t) && Consistent(t') && forall k :: FurtherAt(t, t', k)
    ensures Moved(t').history == Moved(t).history
  {
    var h, h' := Moved(t).history, Moved(t').history;
    forall k ensures (k in h' <==> k in h) && (k in h' ==> h'[k] == h[k]) {
      assert FurtherAt(t, t', k);
      SameMovedAt(t, t', k);
    }
    SameMap(h', h);
  }

  lemma SameKept(t: Tables, t': Tables)
    requires Consistent(t) && Consistent(t') && forall k :: FurtherAt(t, t', k)
    ensures Kept(t'.live) == Kept(t.live)
  {
    var l, l' := Kept(t.live), Kept(t'.live);
    forall id ensures (id in l' <==> id in l) && (id in l' ==> l'[id] == l[id]) {
      assert FurtherAt(t, t', Key(0, id));
      SameMovedAt(t, t', Key(0, id));
    }
    SameMap(l', l);
  }

  lemma SameMoved(t: Tables, t': Tables)
    requires Consistent(t) && Consistent(t') && forall k :: FurtherAt(t, t', k)
    ensures Moved(t') == Moved(t)
  {
    SameMovedHistory(t, t');
    SameKept(t, t');
  }

  lemma InsertKeeps(t: Tables, batch: nat)
    requires Consistent(t)
    ensures Consistent(InsertBatch(t, batch)) && Moved(InsertBatch(t, batch)) == Moved(t)
  {
    var t' := InsertBatch(t, batch);
    assert Consistent(t');
    forall k ensures FurtherAt(t, t', k) {}
    SameMoved(t, t');
  }

  lemma DeleteKeeps(t: Tables, batch: nat)
    requires Consistent(t)
    ensures Consistent(DeleteBatch(t, batch)) && Moved(DeleteBatch(t, batch)) == Moved(t)
  {
    var t' := DeleteBatch(t, batch);
    assert Consistent(t');
    forall k ensures FurtherAt(t, t', k) {
      if k.id in t.live && k.id !in t'.live {
        var h :| h in t.history && h.id == k.id;
        assert h == KeyOf(k.id, t.live[k.id]);
      }
    }
    SameMoved(t, t');
  }

  datatype Statement = InsertStatement(batch: nat) | DeleteStatement(batch: nat)

  function Execute(t: Tables, statement: Statement): Tables {
    match statement
    case InsertStatement(n) => InsertBatch(t, n)
    case DeleteStatement(n) => DeleteBatch(t, n)
  }

  function ExecuteAll(t: Tables, statements: seq<Statement>): Tables
    decreases |statements|
  {
    if statements == [] then t else ExecuteAll(Execute(t, statements[0]), statements[1..])
  }

  /** Interrupting the migration after any statement, with any batch sizes, and running it again
      leads to the same tables. */
  lemma {:induction false} InterruptedMoveResumes(t: Tables, statements: seq<Statement>)
    requires Consistent(t)
    ensures Consistent(ExecuteAll(t, statements)) && Moved(ExecuteAll(t, statements)) == Moved(t)
    decreases |statements|
  {
    if statements != [] {
      match statements[0] {
        case InsertStatement(n) => InsertKeeps(t, n);
        case DeleteStatement(n) => DeleteKeeps(t, n);
      }
      InterruptedMoveResumes(Execute(t, statements[0]), statements[1..]);
    }
  }

  // ---------------------------------------------------------------------------------
  // Statements of the reverse migration
  // ---------------------------------------------------------------------------------

  /** History rows whose job is not live. */
  function Absent(t: Tables): set<Key> {
    set k | k in t.history && k.id !in t.live
  }

  function RestoreIds(t: Tables, batch: nat): set<int> {
    set k | k in FirstN(Absent(t), batch) :: k.id
  }

  /** The rows the insert of one restore batch adds. */
  function RestoredRows(t: Tables, batch: nat): map<int, Row>
    requires Consistent(t)
  {
    map k | k in t.history && k.id !in t.live && k.id in RestoreIds(t, batch) :: k.id := t.history[k]
  }

  function RestoreInsert(t: Tables, batch: nat): Tables
    requires Consistent(t)
  {
    t.(live := t.live + RestoredRows(t, batch))
  }

  function RestoreDelete(t: Tables): Tables {
    t.(history := map k | k in t.history && k.id !in t.live :: t.history[k])
  }

  /** The restored live row of a job: its live row, else its history row. */
  lemma RestoredLive(t: Tables, id: int)
    requires Consistent(t)
    ensures id in Restored(t).live <==> id in t.live || InHistory(t, id)
    ensures id in t.live ==> Restored(t).live[id] == t.live[id]
    ensures forall k :: k in t.history && k.id == id && id !in t.live ==> Restored(t).live[id] == t.history[k]
  {
  }

  /** As far as one job is concerned, its row came to live only from history, and left history only
      when live. */
  ghost predicate BackAt(t: Tables, t': Tables, k: Key) {
    && (k.id in t.live ==> k.id in t'.live && t'.live[k.id] == t.live[k.id])
    && (k.id in t'.live && k.id !in t.live ==> InHistory(t, k.id))
    && (k.id in t'.live && k.id !in t.live && k in t.history ==> t'.live[k.id] == t.history[k])
    && (k in t'.history ==> k in t.history && t'.history[k] == t.history[k])
    && (k in t.history && k !in t'.history ==> k.id in t'.live)
  }

  lemma SameRestoredAt(t: Tables, t': Tables, id: int)
    requires Consistent(t) && Consistent(t') && (forall time :: BackAt(t, t', Key(time, id)))
    ensures id in Restored(t').live <==> id in Restored(t).live
    ensures id in Restored(t).live ==> Restored(t').live[id] == Restored(t).live[id]
  {
    RestoredLive(t, id);
    RestoredLive(t', id);
    assert BackAt(t, t', Key(0, id));
    if id !in t.live && InHistory(t, id) {
      var k :| k in t.history && k.id == id;
      assert BackAt(t, t', Key(k.time, id));
      assert k in t'.history || id in t'.live;
    } else if InHistory(t', id) {
      var k :| k in t'.history && k.id == id;
      assert BackAt(t, t', Key(k.time, id));
    }
  }

  lemma SameRestored(t: Tables, t': Tables)
    requires Consistent(t) && Consistent(t') && forall time, id :: BackAt(t, t', Key(time, id))
    ensures Restored(t') == Restored(t)
  {
    var l, l' := Restored(t).live, Restored(t').live;
    forall id ensures (id in l' <==> id in l) && (id in l' ==> l'[id] == l[id]) {
      SameRestoredAt(t, t', id);
    }
    SameMap(l', l);
  }

  lemma RestoredMeans(t: Tables)
    requires Consistent(t)
    ensures Restored(t).history == map[]
    ensures forall id :: id in t.live ==> id in Restored(t).live && Restored(t).live[id] == t.live[id]
    ensures forall k :: k in t.history && k.id !in t.live ==> k.id in Restored(t).live && Restored(t).live[k.id] == t.history[k]
    ensures forall id :: id in Restored(t).live && id !in t.live ==> exists k :: k in t.history && k.id == id
  {
    forall id ensures id in Restored(t).live && id !in t.live ==> InHistory(t, id) {
      RestoredLive(t, id);
    }
    forall k | k in t.history && k.id !in t.live ensures k.id in Restored(t).live && Restored(t).live[k.id] == t.history[k] {
      RestoredLive(t, k.id);
    }
  }

  lemma RestoreInsertKeeps(t: Tables, batch: nat)
    requires Consistent(t)
    ensures Consistent(RestoreInsert(t, batch)) && Restored(RestoreInsert(t, batch)) == Restored(t)
  {
    var t' := RestoreInsert(t, batch);
    forall k | k in t'.history && k.id in t'.live
      ensures k == KeyOf(k.id, t'.live[k.id]) && t'.history[k] == CopyOf(t'.live[k.id])
    {
      if k.id !in t.live {
        assert t'.live[k.id] == t.history[k];
      }
    }
    forall time, id ensures BackAt(t, t', Key(time, id)) {}
    SameRestored(t, t');
  }

  lemma RestoreDeleteKeeps(t: Tables)
    requires Consistent(t)
    ensures Consistent(RestoreDelete(t)) && Restored(RestoreDelete(t)) == Restored(t)
  {
    var t' := RestoreDelete(t);
    assert Consistent(t');
    forall time, id ensures BackAt(t, t', Key(time, id)) {}
    SameRestored(t, t');
  }

  /** Where a row is after the migration: in history with its finish time, or else its start, or else its creation
      as finish time, if it succeeded, failed or was archived and its reason does not look like an owed retry;
      otherwise where it was. */
  ghost predicate RowMoved(row: Row, id: int, live: map<int, Row>, history: map<Key, Row>) {
    var reason := if row.reason.Some? then row.reason.value else "";
    var looksOwed := |reason| >= 13 && reason[..5] == "retry" && reason[6..13] == "pending";
    if (row.status == Success || row.status == Failed || row.status == Archived) && !looksOwed then
      var t := match row.finishedAt
               case Some(finished) => finished
               case None => (match row.startedAt case Some(started) => started case None => row.createdAt);
      id !in live && Key(t, id) in history && history[Key(t, id)] == row.(finishedAt := Some(t))
    else id in live && live[id] == row
  }

  lemma MovedMeans(t: Tables)
    requires Consistent(t)
    ensures forall id :: id in t.live ==> RowMoved(t.live[id], id, Moved(t).live, Moved(t).history)
    ensures forall id :: id in Moved(t).live ==> id in t.live
    ensures forall k :: k in t.history ==> k in Moved(t).history && Moved(t).history[k] == t.history[k]
    ensures forall k :: k in Moved(t).history && k !in t.history ==> k.id in t.live && k.id !in Moved(t).live
  {
    forall id | id in t.live ensures RowMoved(t.live[id], id, Moved(t).live, Moved(t).history) {
      MovedHistory(t, KeyOf(id, t.live[id]));
    }
    forall k | k in Moved(t).history
      ensures k in t.history || (k.id in t.live && k.id !in Moved(t).live)
      ensures k in t.history ==> Moved(t).history[k] == t.history[k]
    {
      MovedHistory(t, k);
    }
    forall k | k in t.history ensures k in Moved(t).history {
      MovedHistory(t, k);
    }
  }

  /** A limited selection takes the least keys: those it leaves come later, by time and then by id. */
  lemma FirstNIsLeast(keys: set<Key>, n: nat, a: Key, b: Key)
    requires a in FirstN(keys, n) && b in keys && b !in FirstN(keys, n)
    ensures a.time < b.time || (a.time == b.time && a.id < b.id)
  {
    if !Less(a, b) {
      assert a != b;
      assert Less(b, a);
      assert Below(keys, b) <= Below(keys, a);
      SubsetSize(Below(keys, b), Below(keys, a));
    }
  }

  lemma SubsetSize<T>(a: set<T>, b: set<T>)
    requires a <= b
    ensures |a| <= |b|
  {
    assert b == a + (b - a);
  }

  /** One batch is about the oldest eligible rows. */
  lemma BatchIsOldest(live: map<int, Row>, batch: nat, a: int, b: int)
    requires a in Batch(live, batch) && b in live && Movable(live[b]) && b !in Batch(live, batch)
    ensures live[a].createdAt < live[b].createdAt || (live[a].createdAt == live[b].createdAt && a < b)
  {
    assert Key(live[b].createdAt, b) in EligibleKeys(live);
    FirstNIsLeast(EligibleKeys(live), batch, Key(live[a].createdAt, a), Key(live[b].createdAt, b));
  }

  // ---------------------------------------------------------------------------------
  // There and back
  // ---------------------------------------------------------------------------------

  lemma MovedIsConsistent(t: Tables)
    requires Consistent(t)
    ensures Consistent(Moved(t))
  {
    var m := Moved(t);
    forall k | k in m.history
      ensures m.history[k].finishedAt == Some(k.time)
      ensures k.id in m.live ==> k == KeyOf(k.id, m.live[k.id]) && m.history[k] == CopyOf(m.live[k.id])
    {
      MovedHistory(t, k);
    }
    forall j, k | j in m.history && k in m.history && j.id == k.id ensures j == k {
      MovedHistory(t, j);
      MovedHistory(t, k);
    }
  }

  /** Moving the terminal rows and restoring them gives back every live row, with its finish time
      filled in if it was moved; the only other rows are jobs that were in history from the start. */
  lemma RestoreUndoesMove(t: Tables)
    requires Consistent(t)
    ensures Consistent(Moved(t)) && Restored(Moved(t)).history == map[]
    ensures forall id :: id in Restored(Moved(t)).live <==> id in t.live || InHistory(t, id)
    ensures forall id :: id in t.live ==>
      Restored(Moved(t)).live[id] == if Movable(t.live[id]) then CopyOf(t.live[id]) else t.live[id]
  {
    MovedIsConsistent(t);
    forall id
      ensures id in Restored(Moved(t)).live <==> id in t.live || InHistory(t, id)
      ensures id in t.live ==>
        (id in Restored(Moved(t)).live &&
         Restored(Moved(t)).live[id] == if Movable(t.live[id]) then CopyOf(t.live[id]) else t.live[id])
    {
      RoundTripOf(t, id);
    }
  }

  lemma RoundTripOf(t: Tables, id: int)
    requires Consistent(t) && Consistent(Moved(t))
    ensures id in Restored(Moved(t)).live <==> id in t.live || InHistory(t, id)
    ensures id in t.live ==>
      Restored(Moved(t)).live[id] == if Movable(t.live[id]) then CopyOf(t.live[id]) else t.live[id]
  {
    var m := Moved(t);
    RestoredLive(m, id);
    if id in t.live && Movable(t.live[id]) {
      var k := KeyOf(id, t.live[id]);
      MovedHistory(t, k);
      assert k in m.history && k.id == id;
    } else if id in t.live {
      assert id in m.live;
    } else if InHistory(t, id) {
      var k :| k in t.history && k.id == id;
      MovedHistory(t, k);
    } else {
      forall k | k in m.history ensures k.id != id {
        MovedHistory(t, k);
      }
    }
  }

  // ---------------------------------------------------------------------------------
  // The migration loops
  // ---------------------------------------------------------------------------------

  lemma BatchOfSome(live: map<int, Row>, batch: nat)
    requires batch >= 1 && exists id :: id in live && Movable(live[id])
    ensures Batch(live, batch) != {} && Batch(live, batch) <= Eligible(live)
  {
    var id :| id in live && Movable(live[id]);
    assert Key(live[id].createdAt, id) in EligibleKeys(live);
    FirstNSize(EligibleKeys(live), batch);
    assert FirstN(EligibleKeys(live), batch) != {};
    var k :| k in FirstN(EligibleKeys(live), batch);
    assert k.id in Batch(live, batch);
  }

  lemma InsertedAreDeletable(t: Tables, batch: nat)
    ensures Deletable(InsertBatch(t, batch), batch) == Batch(t.live, batch)
  {
    var t' := InsertBatch(t, batch);
    forall id | id in Batch(t.live, batch) ensures InHistory(t', id) {
      var k := KeyOf(id, t.live[id]);
      assert k in CopyKeys(t.live, Batch(t.live, batch));
      assert k in t'.history && k.id == id;
    }
  }

  lemma DeletedAreCounted(t: Tables, batch: nat)
    ensures Deletable(t, batch) <= Eligible(t.live)
    ensures Eligible(DeleteBatch(t, batch).live) == Eligible(t.live) - Deletable(t, batch)
    ensures |Eligible(DeleteBatch(t, batch).live)| + |Deletable(t, batch)| == |Eligible(t.live)|
  {
  }

  lemma NothingToCopy(t: Tables, batch: nat)
    requires Eligible(t.live) == {}
    ensures NewCopies(t, batch) == map[] && Batch(t.live, batch) == {}
  {
    assert forall id :: id in t.live ==> id !in Eligible(t.live);
    assert CopyKeys(t.live, Batch(t.live, batch)) == {};
  }

  lemma NothingLeft(t: Tables)
    requires Eligible(t.live) == {}
    ensures Moved(t) == t
  {
    forall id | id in t.live ensures !Movable(t.live[id]) {
      assert id !in Eligible(t.live);
    }
    assert Kept(t.live) == t.live;
    assert CopyKeys(t.live, Eligible(t.live)) == {};
  }

  /** The history rows the delete of a restore batch removes. */
  function Present(t: Tables): set<Key> {
    set k | k in t.history && k.id in t.live
  }

  lemma RestoreRemoves(t: Tables)
    ensures |RestoreDelete(t).history| + |Present(t)| == |t.history|
  {
    var t' := RestoreDelete(t);
    assert t'.history.Keys == t.history.Keys - Present(t);
    assert Present(t) <= t.history.Keys;
    assert |t.history.Keys| == |t.history| && |t'.history.Keys| == |t'.history|;
  }

  lemma RestoreAdvances(t: Tables, batch: nat)
    requires Consistent(t) && batch >= 1 && t.history != map[]
    ensures Present(RestoreInsert(t, batch)) != {}
  {
    var t' := RestoreInsert(t, batch);
    if Absent(t) == {} {
      var k :| k in t.history;
      assert k !in Absent(t);
      assert k in Present(t');
    } else {
      FirstNSize(Absent(t), batch);
      assert FirstN(Absent(t), batch) != {};
      var k :| k in FirstN(Absent(t), batch);
      assert k.id in RestoreIds(t, batch) && k in t.history;
      assert k in Present(t');
    }
  }

  /** One round of the forward loop: closer to the goal, or there. */
  lemma MoveRound(t: Tables, batch: nat)
    requires batch >= 1 && Consistent(t)
    ensures var copied := InsertBatch(t, batch); var after := DeleteBatch(copied, batch);
            && Consistent(after) && Moved(after) == Moved(t)
            && |Eligible(after.live)| + |Deletable(copied, batch)| == |Eligible(t.live)|
            && (Deletable(copied, batch) == {} ==> after == Moved(after) && NewCopies(t, batch) == map[])
  {
    var copied := InsertBatch(t, batch);
    InsertKeeps(t, batch);
    DeleteKeeps(copied, batch);
    InsertedAreDeletable(t, batch);
    DeletedAreCounted(copied, batch);
    if exists id :: id in t.live && Movable(t.live[id]) {
      BatchOfSome(t.live, batch);
    } else {
      assert Eligible(t.live) == {};
      NothingToCopy(t, batch);
      NothingLeft(DeleteBatch(copied, batch));
    }
  }

  /** One round of the reverse loop. */
  lemma RestoreRound(t: Tables, batch: nat)
    requires batch >= 1 && Consistent(t)
    ensures var copied := RestoreInsert(t, batch); var after := RestoreDelete(copied);
            && Consistent(after) && Restored(after) == Restored(t)
            && |after.history| + |Present(copied)| == |t.history|
            && (Present(copied) == {} ==> after == Restored(after) && RestoredRows(t, batch) == map[])
  {
    var copied := RestoreInsert(t, batch);
    RestoreInsertKeeps(t, batch);
    RestoreDeleteKeeps(copied);
    RestoreRemoves(copied);
    if t.history != map[] {
      RestoreAdvances(t, batch);
    } else {
      assert RestoreDelete(copied).history == map[];
    }
  }

  class Database {
    var live: map<int, Row>
    var history: map<Key, Row>

    ghost function Current(): Tables
      reads this
    {
      Tables(live, history)
    }

    /** `INSERT ... SELECT ... ON CONFLICT DO NOTHING` of one batch. */
    method InsertRows(batch: nat) returns (inserted: nat)
      modifies this`history
      ensures Current() == InsertBatch(old(Current()), batch)
      ensures inserted == |NewCopies(old(Current()), batch)|
    {
      var copies := NewCopies(Tables(live, history), batch);
      history := history + copies;
      inserted := |copies|;
    }

    method DeleteRows(batch: nat) returns (removed: nat)
      modifies this`live
      ensures Current() == DeleteBatch(old(Current()), batch)
      ensures removed == |Deletable(old(Current()), batch)|
    {
      var doomed := Deletable(Tables(live, history), batch);
      live := map id | id in live && id !in doomed :: live[id];
      removed := |doomed|;
    }

    /** `move_terminal_rows`: batches until one neither copies nor removes a row. */
    method MoveTerminalRows(batch: nat) returns (moved: nat)
      requires batch >= 1 && Consistent(Current())
      modifies this
      ensures Current() == Moved(old(Current()))
      ensures moved == |Eligible(old(live))|
      ensures forall id :: id in old(live) ==> RowMoved(old(live)[id], id, live, history)
      ensures forall id :: id in live ==> id in old(live)
      ensures forall k :: k in old(history) ==> k in history && history[k] == old(history)[k]
      ensures forall k :: k in history && k !in old(history) ==> k.id in old(live) && k.id !in live
    {
      ghost var start := Current();
      ghost var goal, total := Moved(Current()), |Eligible(live)|;
      moved := 0;
      while true
        invariant Consistent(Current()) && Moved(Current()) == goal
        invariant moved + |Eligible(live)| == total
        decreases |Eligible(live)|
      {
        MoveRound(Current(), batch);
        var inserted := InsertRows(batch);
        var removed := DeleteRows(batch);
        moved := moved + removed;
        if inserted <= 0 && removed <= 0 {
          MovedMeans(start);
          return;
        }
      }
    }

    method RestoreRows(batch: nat) returns (inserted: nat)
      requires Consistent(Current())
      modifies this`live
      ensures Current() == RestoreInsert(old(Current()), batch)
      ensures inserted == |RestoredRows(old(Current()), batch)|
    {
      var rows := RestoredRows(Tables(live, history), batch);
      live := live + rows;
      inserted := |rows|;
    }

    method DeleteRestored() returns (removed: nat)
      modifies this`history
      ensures Current() == RestoreDelete(old(Current()))
      ensures removed == |Present(old(Current()))|
    {
      var gone := Present(Tables(live, history));
      history := map k | k in history && k.id !in live :: history[k];
      removed := |gone|;
    }

    /** `restore_terminal_rows`: batches until one neither inserts nor removes a row. */
    method RestoreTerminalRows(batch: nat) returns (restored: nat)
      requires batch >= 1 && Consistent(Current())
      modifies this
      ensures Current() == Restored(old(Current()))
      ensures restored == |old(history)|
      ensures history == map[]
      ensures forall id :: id in old(live) ==> id in live && live[id] == old(live)[id]
      ensures forall k :: k in old(history) && k.id !in old(live) ==> k.id in live && live[k.id] == old(history)[k]
      ensures forall id :: id in live && id !in old(live) ==> exists k :: k in old(history) && k.id == id
    {
      ghost var start := Current();
      ghost var goal, total := Restored(Current()), |history|;
      restored := 0;
      while true
        invariant Consistent(Current()) && Restored(Current()) == goal
        invariant restored + |history| == total
        decreases |history|
      {
        RestoreRound(Current(), batch);
        var inserted := RestoreRows(batch);
        var removed := DeleteRestored();
        restored := restored + removed;
        if inserted <= 0 && removed <= 0 {
          RestoredMeans(start);
          return;
        }
      }
    }
  }
}
