/** Reclaim of drained live-table partitions: check, lock, check again, drop, against writers that
    insert and delete rows at any moment. Every statement is one step. */
module PartitionReclaim {

  datatype Option<T> = None | Some(value: T)

  datatype Decision = Drop | CheckRows | TakeLock | SkipDefault | SkipGrace | SkipHasRows | SkipLocked

  /** `decide_partition_reclaim` */
  function Decide(upper: Option<int>, now: int, grace: int, hasRows: Option<bool>, isDefault: bool, lockOk: Option<bool>): (r: Decision)
    ensures r == Drop <==> !isDefault && upper.Some? && upper.value < now - grace && hasRows == Some(false) && lockOk == Some(true)
    ensures r == SkipDefault <==> isDefault || upper.None?
    ensures r == SkipGrace <==> !isDefault && upper.Some? && upper.value >= now - grace
    ensures r == CheckRows <==> !isDefault && upper.Some? && upper.value < now - grace && hasRows == None
    ensures r == SkipHasRows <==> !isDefault && upper.Some? && upper.value < now - grace && hasRows == Some(true)
    ensures r == TakeLock <==> !isDefault && upper.Some? && upper.value < now - grace && hasRows == Some(false) && lockOk == None
  {
    if isDefault || upper.None? then SkipDefault
    else if upper.value >= now - grace then SkipGrace
    else if hasRows.None? then CheckRows
    else if hasRows.value then SkipHasRows
    else if lockOk.None? then TakeLock
    else if !lockOk.value then SkipLocked
    else Drop
  }

  // ---------------------------------------------------------------------------------
  // The database
  // ---------------------------------------------------------------------------------

  datatype Row = Row(id: int, part: int)

  /** A session that writes jobs: the uncommitted rows of its transaction and the partitions it
      has a row-level lock mode on. */
  datatype Writer = Writer(ins: set<Row>, del: set<Row>, locks: set<int>)

  datatype Isolation = ReadCommitted | Snapshot

  datatype Phase = Idle | Looking(part: int) | WantLock(part: int) | Locked(part: int) | Drained(part: int)

  /** The one maintenance session (an advisory lock keeps others out). `nested` says that it works
      inside a transaction somebody else opened, which may have taken its snapshot already;
      `dropped` are the partitions it dropped and did not commit yet. */
  datatype Maintainer = Maintainer(phase: Phase, nested: bool, iso: Isolation, snapshot: Option<set<Row>>,
                                   now: int, xlocks: set<int>, dropped: set<int>)

  /** `parts` gives the upper bound of each attached partition, none for the DEFAULT one;
      `ledger` is what the committed transactions of the writers add up to. */
  datatype State = State(parts: map<int, Option<int>>, rows: set<Row>, ledger: set<Row>,
                         writers: map<int, Writer>, m: Maintainer, clock: int)

  datatype Event =
    | WriterInserts(w: int, row: Row)
    | WriterDeletes(w: int, row: Row)
    | WriterEnds(w: int, commit: bool)
    | Attach(part: int, upper: Option<int>)
    | Advance(time: nat)
    | Begin(nested: bool, iso: Isolation, hasSnapshot: bool, now: int)
    | Select(part: int)
    | Look(timedOut: bool)
    | Lock
    | Recheck
    | DropTable
    | Abort
    | Finish(commit: bool)

  /** `refusesNested`: the code leaves a partition alone when it finds itself inside another
      transaction that is not READ COMMITTED. */
  datatype Config = Config(grace: int, refusesNested: bool)

  function WriterOf(s: State, w: int): Writer {
    if w in s.writers then s.writers[w] else Writer({}, {}, {})
  }

  predicate Holds(s: State, w: int, part: int) {
    w in s.writers && part in s.writers[w].locks
  }

  predicate LockedByWriter(s: State, part: int) {
    exists w :: w in s.writers && Holds(s, w, part)
  }

  /** A writer may touch a partition unless it is locked in ACCESS EXCLUSIVE mode. */
  predicate Writable(s: State, part: int) {
    part in s.parts && part !in s.m.xlocks
  }

  /** What a query of the maintenance session sees. */
  function View(s: State): set<Row> {
    if s.m.iso == Snapshot && s.m.snapshot.Some? then s.m.snapshot.value else s.rows
  }

  predicate HasRows(rows: set<Row>, part: int) {
    exists r :: r in rows && r.part == part
  }

  /** The snapshot a query leaves behind. */
  function SnapshotAfter(s: State): Option<set<Row>> {
    if s.m.iso == Snapshot then Some(View(s)) else None
  }

  // ---------------------------------------------------------------------------------
  // Steps; one that is not enabled (a lock is held, a phase is another) changes nothing
  // ---------------------------------------------------------------------------------

  function WriterStep(s: State, e: Event): State
    requires e.WriterInserts? || e.WriterDeletes? || e.WriterEnds?
  {
    var wr := WriterOf(s, e.w);
    match e
    case WriterInserts(w, row) =>
      if !Writable(s, row.part) then s
      else s.(writers := s.writers[w := Writer(wr.ins + {row}, wr.del, wr.locks + {row.part})])
    case WriterDeletes(w, row) =>
      if !Writable(s, row.part) || row !in s.rows + wr.ins then s
      else s.(writers := s.writers[w := Writer(wr.ins - {row}, wr.del + {row}, wr.locks + {row.part})])
    case WriterEnds(w, commit) =>
      var ended := s.(writers := s.writers[w := Writer({}, {}, {})]);
      if commit then ended.(rows := s.rows - wr.del + wr.ins, ledger := s.ledger - wr.del + wr.ins) else ended
  }

  /** The maintenance session is between two transactions of its own. */
  predicate AtRest(m: Maintainer) {
    m.phase == Idle && m.xlocks == {} && m.dropped == {}
  }

  function WithPhase(m: Maintainer, phase: Phase, snapshot: Option<set<Row>>): Maintainer {
    Maintainer(phase, m.nested, m.iso, snapshot, m.now, m.xlocks, m.dropped)
  }

  function MaintainerStep(cfg: Config, s: State, e: Event): State {
    var m := s.m;
    match e
    case Begin(nested, iso, hasSnapshot, now) =>
      if !AtRest(m) || now > s.clock then s
      else s.(m := Maintainer(Idle, nested, iso, if nested && iso == Snapshot && hasSnapshot then Some(s.rows) else None, now, {}, {}))
    case Select(part) =>
      if m.phase != Idle || part !in s.parts || part in m.xlocks || (!m.nested && !AtRest(m)) then s
      else if Decide(s.parts[part], m.now, cfg.grace, None, s.parts[part].None?, None) != CheckRows then s
      else s.(m := WithPhase(m, Looking(part), m.snapshot))
    case Look(timedOut) =>
      if !m.phase.Looking? then s
      else
        var part := m.phase.part;
        var left := if m.nested then SnapshotAfter(s) else None;
        if timedOut || part !in s.parts ||
           Decide(s.parts[part], m.now, cfg.grace, Some(HasRows(View(s), part)), false, None) != TakeLock
        then s.(m := WithPhase(m, Idle, left))
        else s.(m := WithPhase(m, WantLock(part), left))
    case Lock =>
      if !m.phase.WantLock? then s
      else if m.nested && m.iso == Snapshot && cfg.refusesNested then s.(m := WithPhase(m, Idle, m.snapshot))
      else if m.phase.part !in s.parts || LockedByWriter(s, m.phase.part) then s.(m := WithPhase(m, Idle, m.snapshot))
      else s.(m := WithPhase(m, Locked(m.phase.part), m.snapshot).(xlocks := m.xlocks + {m.phase.part}))
    case Recheck =>
      if !m.phase.Locked? || m.phase.part !in s.parts then s
      else
        var part := m.phase.part;
        if Decide(s.parts[part], m.now, cfg.grace, Some(HasRows(View(s), part)), false, Some(true)) == Drop
        then s.(m := WithPhase(m, Drained(part), SnapshotAfter(s)))
        else s.(m := WithPhase(m, Idle, SnapshotAfter(s)))
    case DropTable =>
      if !m.phase.Drained? then s
      else s.(m := WithPhase(m, Idle, m.snapshot).(dropped := m.dropped + {m.phase.part}))
    case Abort =>
      if !(m.phase.Locked? || m.phase.Drained?) then s
      else s.(m := WithPhase(m, Idle, m.snapshot).(xlocks := m.xlocks - {m.phase.part}))
    case Finish(commit) =>
      if m.phase != Idle then s
      else
        var rested := Maintainer(Idle, false, ReadCommitted, None, m.now, {}, {});
        if commit then s.(parts := (map p | p in s.parts && p !in m.dropped :: s.parts[p]),
                          rows := (set r | r in s.rows && r.part !in m.dropped), m := rested)
        else s.(m := rested)
    case _ => s
  }

  function Step(cfg: Config, s: State, e: Event): State {
    match e
    case WriterInserts(_, _) => WriterStep(s, e)
    case WriterDeletes(_, _) => WriterStep(s, e)
    case WriterEnds(_, _) => WriterStep(s, e)
    case Attach(part, upper) =>
      if part in s.parts then s else s.(parts := s.parts[part := upper])
    case Advance(time) => s.(clock := s.clock + time)
    case _ => MaintainerStep(cfg, s, e)
  }

  function Run(cfg: Config, s: State, events: seq<Event>): State
    decreases |events|
  {
    if events == [] then s else Run(cfg, Step(cfg, s, events[0]), events[1..])
  }

  // ---------------------------------------------------------------------------------
  // The invariant
  // ---------------------------------------------------------------------------------

  /** The partition is not the DEFAULT one and its range ended before the grace period. */
  predicate PastGrace(cfg: Config, s: State, part: int) {
    part in s.parts && s.parts[part].Some? && s.parts[part].value < s.m.now - cfg.grace
  }

  ghost predicate WritersGood(s: State) {
    && (forall w, r :: w in s.writers && r in s.writers[w].ins ==> Holds(s, w, r.part))
    && (forall w, p :: Holds(s, w, p) ==> Writable(s, p))
  }

  ghost predicate DropsGood(cfg: Config, s: State) {
    && s.m.dropped <= s.m.xlocks
    && (forall p :: p in s.m.xlocks ==> p in s.parts)
    && (forall p :: p in s.m.dropped ==> PastGrace(cfg, s, p) && !HasRows(s.rows, p))
  }

  /** A lock is taken only where the next query sees every committed row. */
  predicate SeesEverything(m: Maintainer) {
    m.iso == ReadCommitted || (!m.nested && (m.phase.Locked? ==> m.snapshot == None))
  }

  ghost predicate PhaseGood(cfg: Config, s: State) {
    (s.m.phase != Idle ==> s.m.phase.part !in s.m.dropped) &&
    match s.m.phase
    case Idle => true
    case Looking(p) => PastGrace(cfg, s, p)
    case WantLock(p) => PastGrace(cfg, s, p) && (!s.m.nested ==> s.m.snapshot == None)
    case Locked(p) => PastGrace(cfg, s, p) && p in s.m.xlocks && SeesEverything(s.m)
    case Drained(p) => PastGrace(cfg, s, p) && p in s.m.xlocks && !HasRows(s.rows, p)
  }

  ghost predicate Inv(cfg: Config, s: State) {
    && s.rows == s.ledger
    && (forall r :: r in s.rows ==> r.part in s.parts)
    && s.m.now <= s.clock
    && WritersGood(s) && DropsGood(cfg, s) && PhaseGood(cfg, s)
  }

  /** A partition locked exclusively gains no row when a writer commits. */
  lemma CommitSparesLocked(s: State, w: int, p: int)
    requires WritersGood(s) && p in s.m.xlocks && !HasRows(s.rows, p)
    ensures !HasRows(s.rows - WriterOf(s, w).del + WriterOf(s, w).ins, p)
  {
    forall r | r in WriterOf(s, w).ins ensures r.part != p {
      assert Holds(s, w, r.part);
    }
  }

  lemma WriterStepKeeps(cfg: Config, s: State, e: Event)
    requires Inv(cfg, s) && (e.WriterInserts? || e.WriterDeletes? || e.WriterEnds?)
    ensures Inv(cfg, WriterStep(s, e))
  {
    var s' := WriterStep(s, e);
    forall p | p in s.m.xlocks && !HasRows(s.rows, p) ensures !HasRows(s'.rows, p) {
      CommitSparesLocked(s, e.w, p);
    }
    forall w, p | Holds(s', w, p) ensures Writable(s', p) {
      assert w != e.w ==> Holds(s, w, p);
      assert Holds(s, w, p) || Writable(s, p);
    }
    forall w, r | w in s'.writers && r in s'.writers[w].ins ensures Holds(s', w, r.part) {
      assert w in s.writers && r in s.writers[w].ins ==> Holds(s, w, r.part);
    }
    forall r | r in s'.rows ensures r.part in s'.parts {
      if r !in s.rows {
        assert Holds(s, e.w, r.part);
      }
    }
  }

  lemma WritersKeep(s: State, s': State)
    requires WritersGood(s) && s'.writers == s.writers
    requires forall w, p :: Holds(s, w, p) && Writable(s, p) ==> Writable(s', p)
    ensures WritersGood(s')
  {
    forall w, p | Holds(s', w, p) ensures Writable(s', p) {
      assert Holds(s, w, p);
    }
    forall w, r | w in s'.writers && r in s'.writers[w].ins ensures Holds(s', w, r.part) {
      assert Holds(s, w, r.part);
    }
  }

  lemma FinishKeeps(cfg: Config, s: State, commit: bool)
    requires Inv(cfg, s)
    ensures Inv(cfg, MaintainerStep(cfg, s, Finish(commit)))
  {
    var s' := MaintainerStep(cfg, s, Finish(commit));
    WritersKeep(s, s');
    forall r | r in s.rows ensures r in s'.rows {
      assert r.part in s.m.dropped ==> !HasRows(s.rows, r.part);
    }
    assert s'.rows == s.rows;
  }

  lemma LockKeeps(cfg: Config, s: State)
    requires Inv(cfg, s) && cfg.refusesNested
    ensures Inv(cfg, MaintainerStep(cfg, s, Lock))
  {
    WritersKeep(s, MaintainerStep(cfg, s, Lock));
  }

  lemma MaintainerStepKeeps(cfg: Config, s: State, e: Event)
    requires Inv(cfg, s) && cfg.refusesNested
    ensures Inv(cfg, MaintainerStep(cfg, s, e))
  {
    if e.Finish? {
      FinishKeeps(cfg, s, e.commit);
    } else if e.Lock? {
      LockKeeps(cfg, s);
    } else {
      WritersKeep(s, MaintainerStep(cfg, s, e));
    }
  }

  lemma OthersKeep(cfg: Config, s: State, e: Event)
    requires Inv(cfg, s) && (e.Attach? || e.Advance?)
    ensures Inv(cfg, Step(cfg, s, e))
  {
    WritersKeep(s, Step(cfg, s, e));
  }

  lemma StepKeeps(cfg: Config, s: State, e: Event)
    requires Inv(cfg, s) && cfg.refusesNested
    ensures Inv(cfg, Step(cfg, s, e))
  {
    if e.WriterInserts? || e.WriterDeletes? || e.WriterEnds? {
      WriterStepKeeps(cfg, s, e);
    } else if e.Attach? || e.Advance? {
      OthersKeep(cfg, s, e);
    } else {
      MaintainerStepKeeps(cfg, s, e);
    }
  }

  // ---------------------------------------------------------------------------------
  // Runs
  // ---------------------------------------------------------------------------------

  /** Nothing is in progress and every row lies in a partition. */
  ghost predicate Initial(s: State) {
    && s.rows == s.ledger && (forall r :: r in s.rows ==> r.part in s.parts)
    && s.writers == map[] && AtRest(s.m) && s.m.now <= s.clock
  }

  lemma {:induction false} RunKeeps(cfg: Config, s: State, events: seq<Event>)
    requires Inv(cfg, s) && cfg.refusesNested
    ensures Inv(cfg, Run(cfg, s, events))
    decreases |events|
  {
    if events != [] {
      StepKeeps(cfg, s, events[0]);
      RunKeeps(cfg, Step(cfg, s, events[0]), events[1..]);
    }
  }

  /** No interleaving loses a row: the table always holds exactly what the writers committed, each row
      in a partition that is still attached. */
  lemma ReclaimLosesNothing(cfg: Config, s: State, events: seq<Event>)
    requires Initial(s) && cfg.refusesNested
    ensures Run(cfg, s, events).rows == Run(cfg, s, events).ledger
    ensures forall r :: r in Run(cfg, s, events).rows ==> r.part in Run(cfg, s, events).parts
  {
    RunKeeps(cfg, s, events);
  }

  /** A partition disappears only when the maintenance session commits while it holds the partition
      exclusively, the partition is empty, no writer has touched it in an open transaction, it is not
      the DEFAULT partition and its grace period is over. */
  lemma OnlyDrainedPartitionsGo(cfg: Config, s: State, events: seq<Event>, e: Event, p: int)
    requires Initial(s) && cfg.refusesNested
    requires p in Run(cfg, s, events).parts && p !in Step(cfg, Run(cfg, s, events), e).parts
    ensures var at := Run(cfg, s, events);
            && e == Finish(true) && p in at.m.xlocks && !HasRows(at.rows, p) && !LockedByWriter(at, p)
            && at.parts[p].Some? && at.parts[p].value < at.clock - cfg.grace
  {
    RunKeeps(cfg, s, events);
    var at := Run(cfg, s, events);
    assert p in at.m.dropped;
    assert PastGrace(cfg, at, p);
    assert forall w :: Holds(at, w, p) ==> Writable(at, p);
  }

  // ---------------------------------------------------------------------------------
  // What the steps are for
  // ---------------------------------------------------------------------------------

  /** A drained partition past its grace that nobody holds is dropped by one undisturbed pass, at either isolation
      level, and nothing else goes with it. */
  lemma DrainedPartitionGoes(cfg: Config, s: State, p: int, iso: Isolation)
    requires AtRest(s.m) && p in s.parts && s.parts[p].Some? && s.parts[p].value < s.clock - cfg.grace
    requires !HasRows(s.rows, p) && !LockedByWriter(s, p)
    ensures exists events :: var s' := Run(cfg, s, events);
              s'.parts == s.parts - {p} && s'.rows == s.rows && s'.ledger == s.ledger && s'.writers == s.writers
  {
    var begin := Begin(false, iso, false, s.clock);
    var s1 := Step(cfg, s, begin);
    var s2 := Step(cfg, s1, Select(p));
    var s3 := Step(cfg, s2, Look(false));
    assert s3.m.phase == WantLock(p);
    DroppedAfterLock(cfg, s3, p);
    var events := [Lock, Recheck, DropTable, Finish(true)];
    RunStep(cfg, s2, Look(false), events);
    RunStep(cfg, s1, Select(p), [Look(false)] + events);
    RunStep(cfg, s, begin, [Select(p)] + ([Look(false)] + events));
  }

  lemma RunStep(cfg: Config, s: State, e: Event, rest: seq<Event>)
    ensures Run(cfg, s, [e] + rest) == Run(cfg, Step(cfg, s, e), rest)
  {
    assert ([e] + rest)[1..] == rest;
  }

  lemma DroppedAfterLock(cfg: Config, s: State, p: int)
    requires s.m.phase == WantLock(p) && !s.m.nested && s.m.snapshot == None && s.m.dropped == {} && s.m.xlocks == {}
    requires p in s.parts && s.parts[p].Some? && s.parts[p].value < s.m.now - cfg.grace && !HasRows(s.rows, p) && !LockedByWriter(s, p)
    ensures var s' := Run(cfg, s, [Lock, Recheck, DropTable, Finish(true)]);
            s'.parts == s.parts - {p} && s'.rows == s.rows && s'.ledger == s.ledger && s'.writers == s.writers
  {
    var s1 := Step(cfg, s, Lock);
    assert s1.m.phase == Locked(p);
    var s2 := Step(cfg, s1, Recheck);
    assert s2.m.phase == Drained(p);
    var s3 := Step(cfg, s2, DropTable);
    var s4 := Step(cfg, s3, Finish(true));
    assert s3.m.dropped == {p};
    assert s4.rows == s.rows;
    var none: seq<Event> := [];
    assert [Finish(true)] + none == [Finish(true)];
    RunStep(cfg, s3, Finish(true), none);
    RunStep(cfg, s2, DropTable, [Finish(true)]);
    RunStep(cfg, s1, Recheck, [DropTable] + [Finish(true)]);
    RunStep(cfg, s, Lock, [Recheck] + ([DropTable] + [Finish(true)]));
    assert [Lock] + ([Recheck] + ([DropTable] + [Finish(true)])) == [Lock, Recheck, DropTable, Finish(true)];
  }

  /** What a writer commits is in the table, what it deletes and commits is gone, and what it rolls back never was. */
  lemma WriterTransaction(cfg: Config, s: State, w: int, row: Row)
    requires w !in s.writers && Writable(s, row.part)
    ensures var inserted := Step(cfg, s, WriterInserts(w, row));
            && inserted.rows == s.rows
            && Step(cfg, inserted, WriterEnds(w, true)).rows == s.rows + {row}
            && Step(cfg, inserted, WriterEnds(w, true)).ledger == s.ledger + {row}
            && Step(cfg, inserted, WriterEnds(w, false)).rows == s.rows
            && Step(cfg, inserted, WriterEnds(w, false)).ledger == s.ledger
    ensures row in s.rows ==>
            var deleted := Step(cfg, s, WriterDeletes(w, row));
            && deleted.rows == s.rows
            && Step(cfg, deleted, WriterEnds(w, true)).rows == s.rows - {row}
            && Step(cfg, deleted, WriterEnds(w, true)).ledger == s.ledger - {row}
            && Step(cfg, deleted, WriterEnds(w, false)).rows == s.rows
    ensures Holds(Step(cfg, s, WriterInserts(w, row)), w, row.part)
  {
  }

  /** A partition held exclusively takes no row: the writer waits. */
  lemma LockedPartitionRefusesRows(cfg: Config, s: State, w: int, row: Row)
    requires row.part in s.m.xlocks
    ensures Step(cfg, s, WriterInserts(w, row)) == s && Step(cfg, s, WriterDeletes(w, row)) == s
  {
  }

  // ---------------------------------------------------------------------------------
  // Why the refusal is needed
  // ---------------------------------------------------------------------------------

  ghost predicate CanLose(cfg: Config, s: State) {
    exists events :: Run(cfg, s, events).rows != Run(cfg, s, events).ledger
  }

  lemma CanLoseAfter(cfg: Config, s: State, e: Event)
    requires CanLose(cfg, Step(cfg, s, e))
    ensures CanLose(cfg, s)
  {
    var events :| Run(cfg, Step(cfg, s, e), events).rows != Run(cfg, Step(cfg, s, e), events).ledger;
    var all := [e] + events;
    assert all[0] == e && all[1..] == events;
    assert Run(cfg, s, all).rows != Run(cfg, s, all).ledger;
  }

  lemma AlreadyLost(cfg: Config, s: State)
    requires s.rows != s.ledger
    ensures CanLose(cfg, s)
  {
    assert Run(cfg, s, []) == s;
  }

  /** The maintenance session, nested in a snapshot transaction, judged the partition of `row` drained. */
  predicate JudgedDrained(cfg: Config, s: State, row: Row) {
    && s.m.nested && s.m.iso == Snapshot && s.m.snapshot.Some? && !HasRows(s.m.snapshot.value, row.part)
    && s.m.dropped == {} && s.m.xlocks == {}
    && row.part in s.parts && s.parts[row.part].Some? && s.parts[row.part].value < s.m.now - cfg.grace
  }

  /** Without the refusal, a maintenance session nested in a snapshot transaction misses the row a
      writer committed after the snapshot, and drops the partition under it. */
  lemma NestedSnapshotLosesRow(cfg: Config, s: State, row: Row)
    requires Initial(s) && !cfg.refusesNested
    requires row.part in s.parts && !HasRows(s.rows, row.part)
    requires s.parts[row.part].Some? && s.parts[row.part].value < s.clock - cfg.grace
    ensures CanLose(cfg, s)
  {
    var begin := Begin(true, Snapshot, true, s.clock);
    var s1 := Step(cfg, s, begin);
    var s2 := Step(cfg, s1, Select(row.part));
    var s3 := Step(cfg, s2, Look(false));
    NestedMissesRow(cfg, s3, row);
    CanLoseAfter(cfg, s2, Look(false));
    CanLoseAfter(cfg, s1, Select(row.part));
    CanLoseAfter(cfg, s, begin);
  }

  lemma NestedMissesRow(cfg: Config, s: State, row: Row)
    requires !cfg.refusesNested && JudgedDrained(cfg, s, row) && s.m.phase == WantLock(row.part) && s.writers == map[]
    ensures CanLose(cfg, s)
  {
    var s1 := Step(cfg, s, WriterInserts(0, row));
    var s2 := Step(cfg, s1, WriterEnds(0, true));
    var s3 := Step(cfg, s2, Lock);
    assert row in s2.ledger && !Holds(s2, 0, row.part);
    NestedDrops(cfg, s3, row);
    CanLoseAfter(cfg, s2, Lock);
    CanLoseAfter(cfg, s1, WriterEnds(0, true));
    CanLoseAfter(cfg, s, WriterInserts(0, row));
  }

  lemma NestedDrops(cfg: Config, s: State, row: Row)
    requires s.m.phase == Locked(row.part) && row in s.ledger && JudgedDrained(cfg, s.(m := s.m.(xlocks := {})), row)
    ensures CanLose(cfg, s)
  {
    var s1 := Step(cfg, s, Recheck);
    var s2 := Step(cfg, s1, DropTable);
    var s3 := Step(cfg, s2, Finish(true));
    assert row !in s3.rows && row in s3.ledger;
    AlreadyLost(cfg, s3);
    CanLoseAfter(cfg, s2, Finish(true));
    CanLoseAfter(cfg, s1, DropTable);
    CanLoseAfter(cfg, s, Recheck);
  }
}
