/** The session hook that keeps the ready index in step with every ORM write of a job. */
module ReadyIndex {

  datatype Option<T> = None | Some(value: T)

  datatype Status = Queued | Running | ShuttingDown | Success | Failed | Archived

  /** A job row; the priority may be NULL. */
  datatype Job = Job(status: Status, queue: int, priority: Option<int>, scheduledAt: Option<int>, createdAt: int)

  datatype ReadyKey = ReadyKey(slot: int, job: int)
  datatype BlockedKey = BlockedKey(job: int, dependency: int)

  datatype Entry = Entry(queue: int, priority: int, scheduledAt: Option<int>, createdAt: int)

  /** A job object of the session: its id and the row the flush writes. */
  datatype Loaded = Loaded(id: int, row: Job)

  const SLOTS := {0, 1, 2}

  function PriorityOf(job: Job): int {
    if job.priority.Some? then job.priority.value else 0
  }

  /** The entry of a job. */
  function EntryOf(job: Job): Entry {
    Entry(job.queue, PriorityOf(job), job.scheduledAt, job.createdAt)
  }

  // ---------------------------------------------------------------------------------
  // What "in step" means, job by job
  // ---------------------------------------------------------------------------------

  function Lookup(jobs: map<int, Job>, id: int): Option<Job> {
    if id in jobs then Some(jobs[id]) else None
  }

  predicate HasReady(ready: map<ReadyKey, Entry>, id: int) {
    exists slot :: slot in SLOTS && ReadyKey(slot, id) in ready
  }

  ghost predicate HasBlocked(blocked: set<BlockedKey>, id: int) {
    exists d :: BlockedKey(id, d) in blocked
  }

  ghost predicate NoEntries(ready: map<ReadyKey, Entry>, blocked: set<BlockedKey>, id: int) {
    && (forall slot :: ReadyKey(slot, id) !in ready)
    && (forall d :: BlockedKey(id, d) !in blocked)
  }

  ghost predicate Mirrored(ready: map<ReadyKey, Entry>, id: int, job: Job) {
    forall slot :: ReadyKey(slot, id) in ready ==>
      var e := ready[ReadyKey(slot, id)];
      && e.queue == job.queue && e.priority == (if job.priority.Some? then job.priority.value else 0)
      && e.scheduledAt == job.scheduledAt && e.createdAt == job.createdAt
  }

  /** The entries of one job agree with its row. */
  ghost predicate Synced(ready: map<ReadyKey, Entry>, blocked: set<BlockedKey>, open: set<int>, id: int, row: Option<Job>) {
    if row.None? || row.value.status != Queued then NoEntries(ready, blocked, id)
    else
      && Mirrored(ready, id, row.value)
      && (id !in open ==> HasReady(ready, id) || HasBlocked(blocked, id))
  }

  /** The entries of one job did not change. */
  ghost predicate SameEntries(r: map<ReadyKey, Entry>, b: set<BlockedKey>, r': map<ReadyKey, Entry>, b': set<BlockedKey>, id: int) {
    && (forall slot :: ReadyKey(slot, id) in r <==> ReadyKey(slot, id) in r')
    && (forall slot :: ReadyKey(slot, id) in r ==> r[ReadyKey(slot, id)] == r'[ReadyKey(slot, id)])
    && (forall d :: BlockedKey(id, d) in b <==> BlockedKey(id, d) in b')
  }

  predicate SlotsValid(ready: map<ReadyKey, Entry>) {
    forall k :: k in ready ==> k.slot in SLOTS
  }

  // ---------------------------------------------------------------------------------
  // Statements
  // ---------------------------------------------------------------------------------

  /** Idempotent insert: an existing entry is left alone. */
  function InsertOne(ready: map<ReadyKey, Entry>, slot: int, job: Loaded): map<ReadyKey, Entry> {
    if ReadyKey(slot, job.id) in ready then ready else ready[ReadyKey(slot, job.id) := EntryOf(job.row)]
  }

  function InsertAll(ready: map<ReadyKey, Entry>, slot: int, jobs: seq<Loaded>): map<ReadyKey, Entry> {
    if jobs == [] then ready
    else InsertOne(InsertAll(ready, slot, jobs[..|jobs| - 1]), slot, jobs[|jobs| - 1])
  }

  /** Update of queue, priority and schedule in every slot; the creation time is not written. */
  function UpdateAll(ready: map<ReadyKey, Entry>, job: Loaded): map<ReadyKey, Entry> {
    map k | k in ready ::
      if k.job == job.id then Entry(job.row.queue, PriorityOf(job.row), job.row.scheduledAt, ready[k].createdAt)
      else ready[k]
  }

  /** The jobs that have no open attempt. */
  function Idle(jobs: seq<Loaded>, open: set<int>): (r: seq<Loaded>)
    ensures forall j :: j in r <==> j in jobs && j.id !in open
  {
    if jobs == [] then []
    else
      var init := Idle(jobs[..|jobs| - 1], open);
      assert forall j :: j in jobs <==> j in jobs[..|jobs| - 1] || j == jobs[|jobs| - 1];
      if jobs[|jobs| - 1].id in open then init else init + [jobs[|jobs| - 1]]
  }

  /** A bulk insert touches the entries of its jobs only, and never overwrites one. */
  lemma {:induction false} InsertAllEffect(ready: map<ReadyKey, Entry>, slot: int, jobs: seq<Loaded>, k: ReadyKey)
    ensures k in ready ==> k in InsertAll(ready, slot, jobs) && InsertAll(ready, slot, jobs)[k] == ready[k]
    ensures k in InsertAll(ready, slot, jobs) && k !in ready ==>
      k.slot == slot && exists j :: j in jobs && j.id == k.job && InsertAll(ready, slot, jobs)[k] == EntryOf(j.row)
    ensures (exists j :: j in jobs && ReadyKey(slot, j.id) == k) ==> k in InsertAll(ready, slot, jobs)
  {
    if jobs != [] {
      var init, last := jobs[..|jobs| - 1], jobs[|jobs| - 1];
      InsertAllEffect(ready, slot, init, k);
      assert forall j :: j in jobs <==> j in init || j == last;
    }
  }

  // ---------------------------------------------------------------------------------
  // What the hook does to one job
  // ---------------------------------------------------------------------------------

  /** The creation time of a job that stays queued was edited while it had a ready entry. */
  predicate EditHidden(ready: map<ReadyKey, Entry>, before: Option<Job>, job: Loaded) {
    && before.Some? && before.value.status == Queued && job.row.status == Queued
    && before.value.createdAt != job.row.createdAt
    && HasReady(ready, job.id)
  }

  lemma UpdateMirrors(ready: map<ReadyKey, Entry>, before: Job, job: Loaded)
    requires SlotsValid(ready) && Mirrored(ready, job.id, before)
    ensures Mirrored(UpdateAll(ready, job), job.id, job.row) <==> before.createdAt == job.row.createdAt || !HasReady(ready, job.id)
    ensures HasReady(UpdateAll(ready, job), job.id) <==> HasReady(ready, job.id)
  {
    var after := UpdateAll(ready, job);
    if slot :| slot in SLOTS && ReadyKey(slot, job.id) in ready {
      assert after[ReadyKey(slot, job.id)].createdAt == before.createdAt;
    }
  }

  /** What `_ensure_entry` leaves: an entry in `slot` unless the job is known to be running, and every
      entry of the job updated. */
  function Ensured(ready: map<ReadyKey, Entry>, open: set<int>, slot: int, job: Loaded, isNew: bool): map<ReadyKey, Entry> {
    UpdateAll(if isNew || job.id !in open then InsertOne(ready, slot, job) else ready, job)
  }

  lemma EnsuredByStatements(ready: map<ReadyKey, Entry>, open: set<int>, slot: int, job: Loaded, isNew: bool)
    ensures UpdateAll(InsertAll(ready, slot, if isNew then [job] else Idle([job], open)), job) == Ensured(ready, open, slot, job, isNew)
  {
    var none: seq<Loaded> := [];
    assert [job][..0] == none && Idle(none, open) == none && InsertAll(ready, slot, none) == ready;
    assert Idle([job], open) == if job.id in open then none else none + [job];
    assert none + [job] == [job];
    assert InsertAll(ready, slot, [job]) == InsertOne(ready, slot, job);
  }

  /** `_ensure_entry` gives a job that had no entry exactly the entry it needs. */
  lemma EnsureSyncs(ready: map<ReadyKey, Entry>, blocked: set<BlockedKey>, open: set<int>, slot: int, job: Loaded, isNew: bool)
    requires NoEntries(ready, blocked, job.id) && slot in SLOTS && job.row.status == Queued
    requires isNew ==> job.id !in open
    ensures Synced(Ensured(ready, open, slot, job, isNew), blocked, open, job.id, Some(job.row))
  {
    var after := Ensured(ready, open, slot, job, isNew);
    if job.id !in open {
      assert ReadyKey(slot, job.id) in after;
    }
  }

  lemma EnsureFrame(ready: map<ReadyKey, Entry>, blocked: set<BlockedKey>, open: set<int>, slot: int, job: Loaded, isNew: bool, id: int)
    requires id != job.id
    ensures SameEntries(ready, blocked, Ensured(ready, open, slot, job, isNew), blocked, id)
  {
  }

  lemma EnsureSlots(ready: map<ReadyKey, Entry>, open: set<int>, slot: int, job: Loaded, isNew: bool)
    requires SlotsValid(ready) && slot in SLOTS
    ensures SlotsValid(Ensured(ready, open, slot, job, isNew))
  {
  }

  lemma SyncedTransfers(r: map<ReadyKey, Entry>, b: set<BlockedKey>, r': map<ReadyKey, Entry>, b': set<BlockedKey>,
                        open: set<int>, id: int, row: Option<Job>)
    requires SameEntries(r, b, r', b', id)
    ensures Synced(r, b, open, id, row) <==> Synced(r', b', open, id, row)
  {
    if slot :| slot in SLOTS && ReadyKey(slot, id) in r {
      assert HasReady(r', id);
    }
    if slot :| slot in SLOTS && ReadyKey(slot, id) in r' {
      assert HasReady(r, id);
    }
    if d :| BlockedKey(id, d) in b {
      assert HasBlocked(b', id);
    }
    if d :| BlockedKey(id, d) in b' {
      assert HasBlocked(b, id);
    }
  }

  // ---------------------------------------------------------------------------------
  // The tables and the hook
  // ---------------------------------------------------------------------------------

  /** What the hook must have done for one job object: its entries agree with the row the flush
      writes, unless the flush edits a creation time behind an entry. */
  ghost predicate Handled(r0: map<ReadyKey, Entry>, r: map<ReadyKey, Entry>, b: set<BlockedKey>, open: set<int>,
                          before: Option<Job>, job: Loaded)
  {
    Synced(r, b, open, job.id, Some(job.row)) <==> !EditHidden(r0, before, job)
  }

  predicate Distinct(jobs: seq<Loaded>) {
    forall i, j :: 0 <= i < j < |jobs| ==> jobs[i].id != jobs[j].id
  }

  predicate Names(jobs: seq<Loaded>, id: int) {
    exists i :: 0 <= i < |jobs| && jobs[i].id == id
  }

  class Tables {
    var jobs: map<int, Job>
    /** Ids of the jobs with an open attempt. */
    var open: set<int>
    var ready: map<ReadyKey, Entry>
    var blocked: set<BlockedKey>

    /** The ready index is in step with the job table. */
    ghost predicate InStep()
      reads this
    {
      SlotsValid(ready) && forall id :: Synced(ready, blocked, open, id, Lookup(jobs, id))
    }

    /** `write_ready`: a job with an open attempt gets no entry, unless the caller vouches for it. */
    method WriteReady(jobs: seq<Loaded>, isNew: bool, slot: int)
      modifies this`ready
      ensures ready == InsertAll(old(ready), slot, if isNew then jobs else Idle(jobs, open))
      ensures !isNew ==> forall s, id :: id in open && ReadyKey(s, id) in ready ==> ReadyKey(s, id) in old(ready)
    {
      var kept := if isNew then jobs else Idle(jobs, open);
      ghost var before := ready;
      for i := 0 to |kept|
        invariant ready == InsertAll(old(ready), slot, kept[..i])
      {
        assert kept[..i + 1][..i] == kept[..i];
        ready := InsertOne(ready, slot, kept[i]);
      }
      assert kept[..|kept|] == kept;
      forall s, id | !isNew && id in open && ReadyKey(s, id) in ready ensures ReadyKey(s, id) in before {
        InsertAllEffect(before, slot, kept, ReadyKey(s, id));
      }
    }

    method UpdateReady(job: Loaded)
      modifies this`ready
      ensures ready == UpdateAll(old(ready), job)
    {
      ready := UpdateAll(ready, job);
    }

    /** `_drop_entries` */
    method DropEntries(ids: set<int>)
      modifies this`ready, this`blocked
      ensures ready == map k | k in old(ready) && k.job !in ids :: old(ready)[k]
      ensures blocked == set b | b in old(blocked) && b.job !in ids
    {
      ready := map k | k in ready && k.job !in ids :: ready[k];
      blocked := set b | b in blocked && b.job !in ids;
    }

    /** `_ensure_entry` */
    method EnsureEntry(job: Loaded, isNew: bool, slot: int)
      modifies this`ready
      ensures ready == Ensured(old(ready), open, slot, job, isNew)
    {
      EnsuredByStatements(ready, open, slot, job, isNew);
      WriteReady([job], isNew, slot);
      UpdateReady(job);
    }

    /** The hook on a new job. */
    method SyncNew(job: Loaded, slot: int)
      requires SlotsValid(ready) && slot in SLOTS
      requires job.id !in open && NoEntries(ready, blocked, job.id)
      modifies this`ready
      ensures SlotsValid(ready)
      ensures Synced(ready, blocked, open, job.id, Some(job.row))
      ensures forall id :: id != job.id ==> SameEntries(old(ready), blocked, ready, blocked, id)
    {
      if job.row.status == Queued {
        ghost var r := ready;
        EnsureEntry(job, true, slot);
        EnsureSyncs(r, blocked, open, slot, job, true);
        EnsureSlots(r, open, slot, job, true);
        forall id | id != job.id ensures SameEntries(r, blocked, ready, blocked, id) {
          EnsureFrame(r, blocked, open, slot, job, true, id);
        }
      }
    }

    /** The hook on a job whose row `before` was loaded and is now to be written as `job.row`. */
    method SyncDirty(before: Job, job: Loaded, slot: int)
      requires SlotsValid(ready) && slot in SLOTS
      requires Synced(ready, blocked, open, job.id, Some(before))
      modifies this`ready, this`blocked
      ensures SlotsValid(ready)
      ensures Handled(old(ready), ready, blocked, open, Some(before), job)
      ensures forall id :: id != job.id ==> SameEntries(old(ready), old(blocked), ready, blocked, id)
    {
      ghost var r, b := ready, blocked;
      if before.status != job.row.status {
        if job.row.status == Queued {
          EnsureEntry(job, false, slot);
          EnsureSyncs(r, b, open, slot, job, false);
          EnsureSlots(r, open, slot, job, false);
          forall id | id != job.id ensures SameEntries(r, b, ready, blocked, id) {
            EnsureFrame(r, b, open, slot, job, false, id);
          }
        } else {
          DropEntries({job.id});
        }
      } else if job.row.status == Queued &&
                (before.queue != job.row.queue || before.priority != job.row.priority || before.scheduledAt != job.row.scheduledAt) {
        UpdateReady(job);
        UpdateMirrors(r, before, job);
      } else {
        UnchangedIsHandled(r, b, open, before, job);
      }
    }

    method SyncAllNew(added: seq<Loaded>, slotOf: int -> int)
      requires SlotsValid(ready) && (forall i :: slotOf(i) in SLOTS) && Distinct(added)
      requires forall i :: 0 <= i < |added| ==> added[i].id !in open && NoEntries(ready, blocked, added[i].id)
      modifies this`ready
      ensures SlotsValid(ready)
      ensures forall k :: 0 <= k < |added| ==> Synced(ready, blocked, open, added[k].id, Some(added[k].row))
      ensures forall id :: !Names(added, id) ==> SameEntries(old(ready), blocked, ready, blocked, id)
    {
      ghost var r0 := ready;
      for i := 0 to |added|
        invariant SlotsValid(ready)
        invariant forall k :: 0 <= k < i ==> Synced(ready, blocked, open, added[k].id, Some(added[k].row))
        invariant forall id :: !Names(added[..i], id) ==> SameEntries(r0, blocked, ready, blocked, id)
      {
        ghost var r := ready;
        NamesNext(added, i);
        assert SameEntries(r0, blocked, r, blocked, added[i].id);
        SyncNew(added[i], slotOf(added[i].id));
        forall k | 0 <= k < i ensures Synced(ready, blocked, open, added[k].id, Some(added[k].row)) {
          SyncedTransfers(r, blocked, ready, blocked, open, added[k].id, Some(added[k].row));
        }
        forall id | !Names(added[..i + 1], id) ensures SameEntries(r0, blocked, ready, blocked, id) {
          assert SameEntries(r, blocked, ready, blocked, id) && SameEntries(r0, blocked, r, blocked, id);
        }
      }
      assert added[..|added|] == added;
    }

    method SyncAllDirty(dirty: seq<Loaded>, slotOf: int -> int)
      requires SlotsValid(ready) && (forall i :: slotOf(i) in SLOTS) && Distinct(dirty)
      requires forall i :: 0 <= i < |dirty| ==> dirty[i].id in jobs && Synced(ready, blocked, open, dirty[i].id, Some(jobs[dirty[i].id]))
      modifies this`ready, this`blocked
      ensures SlotsValid(ready)
      ensures forall k :: 0 <= k < |dirty| ==> Handled(old(ready), ready, blocked, open, Some(jobs[dirty[k].id]), dirty[k])
      ensures forall id :: !Names(dirty, id) ==> SameEntries(old(ready), old(blocked), ready, blocked, id)
    {
      ghost var r0, b0 := ready, blocked;
      for i := 0 to |dirty|
        invariant SlotsValid(ready)
        invariant forall k :: 0 <= k < i ==> Handled(r0, ready, blocked, open, Some(jobs[dirty[k].id]), dirty[k])
        invariant forall id :: !Names(dirty[..i], id) ==> SameEntries(r0, b0, ready, blocked, id)
      {
        ghost var r, b := ready, blocked;
        var before := jobs[dirty[i].id];
        NamesNext(dirty, i);
        assert SameEntries(r0, b0, r, b, dirty[i].id);
        SyncedTransfers(r0, b0, r, b, open, dirty[i].id, Some(before));
        SyncDirty(before, dirty[i], slotOf(dirty[i].id));
        HiddenTransfers(r0, b0, r, b, Some(before), dirty[i]);
        forall k | 0 <= k < i ensures Handled(r0, ready, blocked, open, Some(jobs[dirty[k].id]), dirty[k]) {
          SyncedTransfers(r, b, ready, blocked, open, dirty[k].id, Some(dirty[k].row));
        }
        forall id | !Names(dirty[..i + 1], id) ensures SameEntries(r0, b0, ready, blocked, id) {
          assert SameEntries(r, b, ready, blocked, id) && SameEntries(r0, b0, r, b, id);
        }
      }
      assert dirty[..|dirty|] == dirty;
    }

    /** `_sync_ready_with_jobs` followed by the flush it precedes: the new, the edited and the
        deleted jobs of one session, each job object once, are written with their entries. The index
        stays in step exactly when no creation time was edited behind a ready entry. */
    method Flush(added: seq<Loaded>, dirty: seq<Loaded>, gone: set<int>, slotOf: int -> int)
      requires InStep() && open <= jobs.Keys
      requires forall i :: slotOf(i) in SLOTS
      requires Distinct(added) && Distinct(dirty) && gone <= jobs.Keys
      requires forall i :: 0 <= i < |added| ==> added[i].id !in jobs
      requires forall i :: 0 <= i < |dirty| ==> dirty[i].id in jobs && dirty[i].id !in gone
      modifies this`jobs, this`ready, this`blocked
      ensures IsWritten(old(jobs), added, dirty, gone, jobs)
      ensures InStep() <==> forall i :: 0 <= i < |dirty| ==> !EditHidden(old(ready), Lookup(old(jobs), dirty[i].id), dirty[i])
    {
      ghost var r0, b0, j0 := ready, blocked, jobs;
      assert forall id :: Synced(r0, b0, open, id, Lookup(jobs, id));
      forall i | 0 <= i < |added| ensures NoEntries(r0, b0, added[i].id) {
        assert Synced(r0, b0, open, added[i].id, Lookup(jobs, added[i].id));
      }
      SyncAllNew(added, slotOf);
      ghost var r1 := ready;
      forall i | 0 <= i < |dirty| ensures Synced(r1, b0, open, dirty[i].id, Some(jobs[dirty[i].id])) {
        assert !Names(added, dirty[i].id);
        assert SameEntries(r0, b0, r1, b0, dirty[i].id);
        SyncedTransfers(r0, b0, r1, b0, open, dirty[i].id, Lookup(jobs, dirty[i].id));
      }
      SyncAllDirty(dirty, slotOf);
      ghost var r2, b2 := ready, blocked;
      DropEntries(gone);
      jobs := WriteRows(WriteRows(Without(jobs, gone), added), dirty);
      WrittenByRows(j0, added, dirty, gone);
      forall id ensures Synced(ready, blocked, open, id, Lookup(jobs, id)) <==>
                        forall i :: 0 <= i < |dirty| && dirty[i].id == id ==> !EditHidden(r0, Lookup(j0, id), dirty[i])
      {
        FlushedJob(r0, r1, r2, ready, b0, b2, blocked, open, j0, jobs, added, dirty, gone, id);
      }
    }
  }

  /** What the index says of one job after each stage of a flush. */
  lemma FlushedJob(r0: map<ReadyKey, Entry>, r1: map<ReadyKey, Entry>, r2: map<ReadyKey, Entry>, r3: map<ReadyKey, Entry>,
                   b0: set<BlockedKey>, b2: set<BlockedKey>, b3: set<BlockedKey>, open: set<int>,
                   jobs: map<int, Job>, jobs': map<int, Job>, added: seq<Loaded>, dirty: seq<Loaded>, gone: set<int>, id: int)
    requires Synced(r0, b0, open, id, Lookup(jobs, id)) && IsWritten(jobs, added, dirty, gone, jobs')
    requires Distinct(added) && Distinct(dirty) && gone <= jobs.Keys
    requires forall i :: 0 <= i < |added| ==> added[i].id !in jobs
    requires forall i :: 0 <= i < |dirty| ==> dirty[i].id in jobs && dirty[i].id !in gone
    requires forall k :: 0 <= k < |added| ==> Synced(r1, b0, open, added[k].id, Some(added[k].row))
    requires !Names(added, id) ==> SameEntries(r0, b0, r1, b0, id)
    requires forall k :: 0 <= k < |dirty| ==> Handled(r1, r2, b2, open, Some(jobs[dirty[k].id]), dirty[k])
    requires !Names(dirty, id) ==> SameEntries(r1, b0, r2, b2, id)
    requires r3 == map k | k in r2 && k.job !in gone :: r2[k]
    requires b3 == set b | b in b2 && b.job !in gone
    ensures Synced(r3, b3, open, id, Lookup(jobs', id)) <==>
            forall i :: 0 <= i < |dirty| && dirty[i].id == id ==> !EditHidden(r0, Lookup(jobs, id), dirty[i])
  {
    if id in gone {
      assert !Names(added, id) && !Names(dirty, id);
      assert NoEntries(r3, b3, id);
    } else {
      assert SameEntries(r2, b2, r3, b3, id);
      SyncedTransfers(r2, b2, r3, b3, open, id, Lookup(jobs', id));
      if Names(dirty, id) {
        var k :| 0 <= k < |dirty| && dirty[k].id == id;
        assert !Names(added, id);
        HiddenTransfers(r0, b0, r1, b0, Lookup(jobs, id), dirty[k]);
      } else {
        SyncedTransfers(r1, b0, r2, b2, open, id, Lookup(jobs', id));
        if !Names(added, id) {
          SyncedTransfers(r0, b0, r1, b0, open, id, Lookup(jobs, id));
        }
      }
    }
  }

  lemma HiddenTransfers(r: map<ReadyKey, Entry>, b: set<BlockedKey>, r': map<ReadyKey, Entry>, b': set<BlockedKey>,
                        before: Option<Job>, job: Loaded)
    requires SameEntries(r, b, r', b', job.id)
    ensures EditHidden(r, before, job) <==> EditHidden(r', before, job)
  {
    if slot :| slot in SLOTS && ReadyKey(slot, job.id) in r {
      assert HasReady(r', job.id);
    }
    if slot :| slot in SLOTS && ReadyKey(slot, job.id) in r' {
      assert HasReady(r, job.id);
    }
  }

  // ---------------------------------------------------------------------------------
  // The job table
  // ---------------------------------------------------------------------------------

  function Without(jobs: map<int, Job>, gone: set<int>): map<int, Job> {
    map id | id in jobs && id !in gone :: jobs[id]
  }

  function WriteRows(jobs: map<int, Job>, written: seq<Loaded>): map<int, Job> {
    if written == [] then jobs
    else WriteRows(jobs, written[..|written| - 1])[written[|written| - 1].id := written[|written| - 1].row]
  }

  /** The job table after a flush: the new and the edited rows as given, the deleted rows gone, the
      rest as before. */
  ghost predicate IsWritten(before: map<int, Job>, added: seq<Loaded>, dirty: seq<Loaded>, gone: set<int>, after: map<int, Job>) {
    && (forall i :: 0 <= i < |added| ==> Lookup(after, added[i].id) == Some(added[i].row))
    && (forall i :: 0 <= i < |dirty| ==> Lookup(after, dirty[i].id) == Some(dirty[i].row))
    && (forall id :: !Names(added, id) && !Names(dirty, id) ==> Lookup(after, id) == if id in gone then None else Lookup(before, id))
  }

  lemma {:induction false} RowsWritten(jobs: map<int, Job>, written: seq<Loaded>)
    requires Distinct(written)
    ensures forall i :: 0 <= i < |written| ==> Lookup(WriteRows(jobs, written), written[i].id) == Some(written[i].row)
    ensures forall id :: !Names(written, id) ==> Lookup(WriteRows(jobs, written), id) == Lookup(jobs, id)
  {
    if written != [] {
      var n := |written| - 1;
      RowsWritten(jobs, written[..n]);
      assert written[..n + 1] == written;
      NamesNext(written, n);
    }
  }

  lemma WrittenByRows(jobs: map<int, Job>, added: seq<Loaded>, dirty: seq<Loaded>, gone: set<int>)
    requires Distinct(added) && Distinct(dirty)
    requires forall i :: 0 <= i < |added| ==> added[i].id !in jobs
    requires forall i :: 0 <= i < |dirty| ==> dirty[i].id in jobs && dirty[i].id !in gone
    ensures IsWritten(jobs, added, dirty, gone, WriteRows(WriteRows(Without(jobs, gone), added), dirty))
  {
    var base := Without(jobs, gone);
    RowsWritten(base, added);
    RowsWritten(WriteRows(base, added), dirty);
  }

  lemma UnchangedIsHandled(r: map<ReadyKey, Entry>, b: set<BlockedKey>, open: set<int>, before: Job, job: Loaded)
    requires SlotsValid(r) && Synced(r, b, open, job.id, Some(before)) && before.status == job.row.status
    requires job.row.status == Queued ==>
      before.queue == job.row.queue && before.priority == job.row.priority && before.scheduledAt == job.row.scheduledAt
    ensures Handled(r, r, b, open, Some(before), job)
  {
    if slot :| slot in SLOTS && ReadyKey(slot, job.id) in r {
      assert r[ReadyKey(slot, job.id)] == EntryOf(before);
    }
  }

  /** From any tables that are in step: a flush that writes another creation time for any queued job with a
      ready entry, whatever else it edits on it, leaves the index out of step. */
  method CreationEditGoesUnseen(t: Tables, job: Loaded, slotOf: int -> int)
    requires t.InStep() && t.open <= t.jobs.Keys && forall i :: slotOf(i) in SLOTS
    requires job.id in t.jobs && t.jobs[job.id].status == Queued && HasReady(t.ready, job.id)
    requires job.row.status == Queued && job.row.createdAt != t.jobs[job.id].createdAt
    modifies t
    ensures t.jobs == old(t.jobs)[job.id := job.row] && !t.InStep()
  {
    ghost var before, ready := t.jobs, t.ready;
    assert EditHidden(ready, Lookup(before, job.id), job);
    t.Flush([], [job], {}, slotOf);
    assert [job][0] == job;
    forall id ensures Lookup(t.jobs, id) == Lookup(before[job.id := job.row], id) {
      assert !Names([], id) && (Names([job], id) <==> id == job.id) by {
        assert [job][0].id == job.id;
      }
    }
    SameTable(t.jobs, before[job.id := job.row]);
  }

  lemma SameTable(a: map<int, Job>, b: map<int, Job>)
    requires forall id :: Lookup(a, id) == Lookup(b, id)
    ensures a == b
  {
    forall id ensures (id in a <==> id in b) && (id in a ==> a[id] == b[id]) {
      assert Lookup(a, id) == Lookup(b, id);
    }
  }

  lemma NamesNext(jobs: seq<Loaded>, i: nat)
    requires i < |jobs| && Distinct(jobs)
    ensures !Names(jobs[..i], jobs[i].id)
    ensures forall id :: Names(jobs[..i + 1], id) <==> Names(jobs[..i], id) || id == jobs[i].id
  {
    forall id ensures Names(jobs[..i + 1], id) <==> Names(jobs[..i], id) || id == jobs[i].id {
      if Names(jobs[..i], id) {
        var k :| 0 <= k < i && jobs[..i][k].id == id;
        assert jobs[..i + 1][k].id == id;
      }
      if id == jobs[i].id {
        assert jobs[..i + 1][i].id == id;
      }
      if Names(jobs[..i + 1], id) && id != jobs[i].id {
        var k :| 0 <= k < i + 1 && jobs[..i + 1][k].id == id;
        assert jobs[..i][k].id == id;
      }
    }
  }
}
