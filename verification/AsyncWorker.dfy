/** The async worker's run / execute / drain machine. Each step is the code between two awaits of
    one coroutine; coroutines interleave freely and a shutdown may arrive at any await. */
module AsyncWorker {

  type JobId = int

  // ---------------------------------------------------------------------------------
  // State
  // ---------------------------------------------------------------------------------

  /** The task of a job body: running, ended with a result or an exception, or ended in
      `CancelledError`, which is not an `Exception`. */
  datatype Body = Running | Returned | Raised | Cancelled

  /** A coroutine of `_execute_job`: not started, awaiting the write of a load failure, racing its
      body against the shutdown, awaiting its completion write, or awaiting what follows a failure. */
  datatype Runner = Created | LoadFailing | Racing | Writing | Following

  /** Draining one job: `found` says that its row could be read; `strict` that a fencing error of the
      completion call is not caught. */
  datatype Stage = Picking | Fetching(job: JobId) | Marking(job: JobId, found: bool) | Deadline(job: JobId, found: bool)
                 | Cancelling(job: JobId) | Closing(job: JobId, strict: bool)

  /** Where `run` is: at the head of its loop, before the capacity check (the sweep and the
      heartbeat are awaited there), waiting, awaiting a claim, gathering the runners, draining, or
      over, possibly by an exception that escaped the drain of a job. */
  datatype Main = Head | Checking | Waiting | Claiming | Gathering | Draining(todo: set<JobId>, stage: Stage)
                | Done | Escaped(job: JobId, called: bool)

  datatype Outcome = Succeeded | Failed

  /** A completion call to the backend; `carried` says that it presented the attempt of the claim. */
  datatype Call = Call(job: JobId, outcome: Outcome, carried: bool)

  datatype State = State(
    concurrency: nat, main: Main, shuttingDown: bool, running: map<JobId, Runner>, inflight: map<JobId, Body>,
    attempts: set<JobId>, claimed: set<JobId>, handled: set<JobId>, calls: seq<Call>,
    late: bool)  // the shutdown arrived between the head of the loop and the capacity check

  datatype Event =
    | Shutdown
    | PassHead(bounded: bool)
    | CheckCapacity
    | Wake
    | ClaimEmpty
    | ClaimReturns(job: JobId, hasHandle: bool)
    | StartRunner(job: JobId, loads: bool)
    | LoadFailureWritten(job: JobId)
    | BodyEnds(job: JobId, how: Body)
    | RunnerWakes(job: JobId)
    | CompletionWritten(job: JobId, fenced: bool)
    | RunnerEnds(job: JobId)
    | GatherEnds
    | DrainPicks(job: JobId)
    | DrainFetched(found: bool)
    | DrainMarked
    | DrainWakes
    | DrainCancelled
    | DrainCallReturns(fenced: bool)

  function Initial(concurrency: nat): State {
    State(concurrency, Head, false, map[], map[], {}, {}, {}, [], false)
  }

  // ---------------------------------------------------------------------------------
  // Steps; one whose coroutine is not at that await changes nothing
  // ---------------------------------------------------------------------------------

  function At(s: State, job: JobId, runner: Runner): bool {
    job in s.running && s.running[job] == runner
  }

  function Record(s: State, job: JobId, outcome: Outcome): seq<Call> {
    s.calls + [Call(job, outcome, job in s.attempts)]
  }

  function Leave(s: State, job: JobId): map<JobId, Runner> { s.running - {job} }

  /** The loop of `run`. */
  function LoopStep(s: State, e: Event): State {
    match e
    case Shutdown => s.(shuttingDown := true, late := s.late || (!s.shuttingDown && s.main == Checking))
    case PassHead(bounded) =>
      if s.main != Head then s
      else s.(main := if s.shuttingDown || bounded then Gathering else Checking)
    case CheckCapacity =>
      if s.main != Checking then s
      else s.(main := if |s.running| >= s.concurrency then Waiting else Claiming)
    case Wake => if s.main == Waiting then s.(main := Head) else s
    case ClaimEmpty => if s.main == Claiming then s.(main := Waiting) else s
    case ClaimReturns(job, hasHandle) =>
      if s.main != Claiming || job in s.claimed then s
      else s.(main := Head, claimed := s.claimed + {job}, running := s.running[job := Created],
              attempts := if hasHandle then s.attempts + {job} else s.attempts,
              handled := if hasHandle then s.handled + {job} else s.handled)
    case GatherEnds =>
      if s.main != Gathering || s.running != map[] then s
      else s.(main := if s.shuttingDown && s.inflight != map[] then Draining(s.inflight.Keys, Picking) else Done)
    case _ => s
  }

  /** `_execute_job` from its start to the race against the shutdown. */
  function StartStep(s: State, job: JobId, loads: bool): State {
    if !At(s, job, Created) then s
    else if !loads then s.(running := s.running[job := LoadFailing], calls := Record(s, job, Failed))
    else s.(inflight := s.inflight[job := Running],
            running := if s.shuttingDown then Leave(s, job) else s.running[job := Racing])
  }

  function LoadFailureStep(s: State, job: JobId): State {
    if !At(s, job, LoadFailing) then s else s.(attempts := s.attempts - {job}, running := Leave(s, job))
  }

  function BodyStep(s: State, job: JobId, how: Body): State {
    if job in s.inflight && s.inflight[job] == Running && how != Running then s.(inflight := s.inflight[job := how]) else s
  }

  /** The race is decided: the body ended, or the shutdown came first. */
  function WakeStep(s: State, job: JobId): State {
    if !At(s, job, Racing) || job !in s.inflight then s
    else
      match s.inflight[job]
      case Returned => s.(running := s.running[job := Writing], calls := Record(s, job, Succeeded))
      case Raised => s.(running := s.running[job := Writing], calls := Record(s, job, Failed))
      case Cancelled => s.(running := Leave(s, job))
      case Running => if s.shuttingDown then s.(running := Leave(s, job)) else s
  }

  /** `_on_job_success` / `_on_job_failed` after the completion call. */
  function WrittenStep(s: State, job: JobId, fenced: bool): State {
    if !At(s, job, Writing) || job !in s.inflight then s
    else if fenced || s.inflight[job] == Returned
    then s.(attempts := s.attempts - {job}, inflight := s.inflight - {job}, running := Leave(s, job))
    else s.(attempts := s.attempts - {job}, running := s.running[job := Following])
  }

  function EndStep(s: State, job: JobId): State {
    if !At(s, job, Following) then s else s.(inflight := s.inflight - {job}, running := Leave(s, job))
  }

  function RunnerStep(s: State, e: Event): State {
    match e
    case StartRunner(job, loads) => StartStep(s, job, loads)
    case LoadFailureWritten(job) => LoadFailureStep(s, job)
    case BodyEnds(job, how) => BodyStep(s, job, how)
    case RunnerWakes(job) => WakeStep(s, job)
    case CompletionWritten(job, fenced) => WrittenStep(s, job, fenced)
    case RunnerEnds(job) => EndStep(s, job)
    case _ => s
  }

  /** The race of a drained job against the deadline is decided. */
  function DeadlineStep(s: State): State
    requires s.main.Draining?
  {
    var todo, stage := s.main.todo, s.main.stage;
    if !stage.Deadline? || stage.job !in s.inflight then s
    else
      match s.inflight[stage.job]
      case Returned => s.(main := Draining(todo, Closing(stage.job, false)), calls := Record(s, stage.job, Succeeded))
      case Raised => s.(main := Draining(todo, Closing(stage.job, !stage.found)), calls := Record(s, stage.job, Failed))
      case Cancelled => s.(main := Escaped(stage.job, false))
      case Running => s.(main := Draining(todo, Cancelling(stage.job)))
  }

  function CancelledStep(s: State): State
    requires s.main.Draining?
  {
    var todo, stage := s.main.todo, s.main.stage;
    if !stage.Cancelling? || stage.job !in s.inflight || s.inflight[stage.job] == Running then s
    else s.(main := Draining(todo, Closing(stage.job, false)), calls := Record(s, stage.job, Failed))
  }

  function ClosedStep(s: State, fenced: bool): State
    requires s.main.Draining?
  {
    var todo, stage := s.main.todo, s.main.stage;
    if !stage.Closing? then s
    else if fenced && stage.strict then s.(main := Escaped(stage.job, true))
    else s.(attempts := s.attempts - {stage.job}, inflight := s.inflight - {stage.job},
            main := if todo == {} then Done else Draining(todo, Picking))
  }

  /** `_drain_with_deadline` and `_drain_one`. */
  function DrainStep(s: State, e: Event): State {
    if !s.main.Draining? then s
    else
      var todo, stage := s.main.todo, s.main.stage;
      match e
      case DrainPicks(job) =>
        if stage != Picking || job !in todo then s else s.(main := Draining(todo - {job}, Fetching(job)))
      case DrainFetched(found) =>
        if !stage.Fetching? then s else s.(main := Draining(todo, Marking(stage.job, found)))
      case DrainMarked =>
        if !stage.Marking? then s else s.(main := Draining(todo, Deadline(stage.job, stage.found)))
      case DrainWakes => DeadlineStep(s)
      case DrainCancelled => CancelledStep(s)
      case DrainCallReturns(fenced) => ClosedStep(s, fenced)
      case _ => s
  }

  predicate IsLoop(e: Event) {
    e.Shutdown? || e.PassHead? || e.CheckCapacity? || e.Wake? || e.ClaimEmpty? || e.ClaimReturns? || e.GatherEnds?
  }

  predicate IsDrain(e: Event) {
    e.DrainPicks? || e.DrainFetched? || e.DrainMarked? || e.DrainWakes? || e.DrainCancelled? || e.DrainCallReturns?
  }

  function Step(s: State, e: Event): State {
    if IsLoop(e) then LoopStep(s, e) else if IsDrain(e) then DrainStep(s, e) else RunnerStep(s, e)
  }

  function Run(s: State, events: seq<Event>): State
    decreases |events|
  {
    if events == [] then s else Run(Step(s, events[0]), events[1..])
  }

  // ---------------------------------------------------------------------------------
  // Completion calls
  // ---------------------------------------------------------------------------------

  function CountCalls(calls: seq<Call>, job: JobId): nat {
    if calls == [] then 0
    else CountCalls(calls[..|calls| - 1], job) + if calls[|calls| - 1].job == job then 1 else 0
  }

  lemma CountAppend(calls: seq<Call>, c: Call, job: JobId)
    ensures CountCalls(calls + [c], job) == CountCalls(calls, job) + if c.job == job then 1 else 0
  {
    assert (calls + [c])[..|calls|] == calls;
  }

  /** The drain has called the backend for the job. */
  predicate Closes(s: State, job: JobId) {
    || (s.main.Draining? && s.main.stage.Closing? && s.main.stage.job == job)
    || (s.main.Escaped? && s.main.called && s.main.job == job)
  }

  /** The job still owes its completion call. */
  predicate Outstanding(s: State, job: JobId) {
    if job in s.running then s.running[job] == Created || s.running[job] == Racing
    else job in s.inflight && !Closes(s, job)
  }

  predicate JobGood(s: State, job: JobId) {
    if job !in s.claimed then
      job !in s.running && job !in s.inflight && job !in s.attempts && job !in s.handled && CountCalls(s.calls, job) == 0
    else
      && CountCalls(s.calls, job) == (if Outstanding(s, job) then 0 else 1)
      && (Outstanding(s, job) ==> (job in s.attempts <==> job in s.handled))
      && (job in s.running ==> (job in s.inflight <==> s.running[job] != Created && s.running[job] != LoadFailing))
      && (At(s, job, Writing) || At(s, job, Following) ==> s.inflight[job] == Returned || s.inflight[job] == Raised)
  }

  predicate CallsCarry(calls: seq<Call>, claimed: set<JobId>, handled: set<JobId>) {
    forall i :: 0 <= i < |calls| ==> calls[i].job in claimed && (calls[i].carried <==> calls[i].job in handled)
  }

  /** Once the runners are gathered, the drain handles exactly what is in flight. */
  ghost predicate MainGood(s: State) {
    match s.main
    case Draining(todo, stage) =>
      && s.running == map[] && s.shuttingDown
      && (forall j :: j in s.inflight <==> j in todo || (stage != Picking && j == stage.job))
      && (stage != Picking ==> stage.job !in todo)
    case Done => s.running == map[] && forall j :: j in s.inflight ==> s.inflight[j] == Cancelled
    case Escaped(_, _) => s.running == map[]
    case _ => true
  }

  /** While there is no shutdown, an unfinished body has its runner; after one, a body without a
      runner waits for the drain. */
  predicate BodiesGood(s: State) {
    !s.shuttingDown ==> forall j :: j in s.inflight && j !in s.running ==> s.inflight[j] == Cancelled
  }

  ghost predicate Inv(s: State) {
    (forall j :: JobGood(s, j)) && CallsCarry(s.calls, s.claimed, s.handled) && MainGood(s) && BodiesGood(s)
  }

  // ---------------------------------------------------------------------------------
  // Every step keeps the invariant
  // ---------------------------------------------------------------------------------

  /** Nothing about the job changed. */
  ghost predicate Untouched(s: State, s': State, j: JobId) {
    && (j in s.running <==> j in s'.running) && (j in s.running ==> s.running[j] == s'.running[j])
    && (j in s.inflight <==> j in s'.inflight) && (j in s.inflight ==> s.inflight[j] == s'.inflight[j])
    && (j in s.attempts <==> j in s'.attempts) && (j in s.claimed <==> j in s'.claimed) && (j in s.handled <==> j in s'.handled)
    && CountCalls(s.calls, j) == CountCalls(s'.calls, j) && Closes(s, j) == Closes(s', j)
  }

  lemma UntouchedIsGood(s: State, s': State, j: JobId)
    requires JobGood(s, j) && Untouched(s, s', j)
    ensures JobGood(s', j)
  {
  }

  /** A step is about one job only, and leaves it good. */
  ghost predicate KeepsAbout(s: State, s': State, job: JobId) {
    && JobGood(s', job) && CallsCarry(s'.calls, s'.claimed, s'.handled)
    && forall j :: j != job ==> Untouched(s, s', j)
  }

  lemma KeepsAll(s: State, s': State, job: JobId)
    requires (forall j :: JobGood(s, j)) && KeepsAbout(s, s', job)
    ensures forall j :: JobGood(s', j)
  {
    forall j ensures JobGood(s', j) {
      assert JobGood(s, j);
      if j != job {
        UntouchedIsGood(s, s', j);
      }
    }
  }

  lemma RecordCounts(s: State, job: JobId, outcome: Outcome)
    requires CallsCarry(s.calls, s.claimed, s.handled) && JobGood(s, job) && Outstanding(s, job)
    ensures CallsCarry(Record(s, job, outcome), s.claimed, s.handled)
    ensures CountCalls(Record(s, job, outcome), job) == 1
    ensures forall j :: j != job ==> CountCalls(Record(s, job, outcome), j) == CountCalls(s.calls, j)
  {
    var c := Call(job, outcome, job in s.attempts);
    CountAppend(s.calls, c, job);
    forall j | j != job ensures CountCalls(s.calls + [c], j) == CountCalls(s.calls, j) {
      CountAppend(s.calls, c, j);
    }
  }

  lemma StartKeeps(s: State, job: JobId, loads: bool)
    requires JobGood(s, job) && CallsCarry(s.calls, s.claimed, s.handled) && (job in s.running ==> !Closes(s, job))
    ensures KeepsAbout(s, StartStep(s, job, loads), job)
  {
    if At(s, job, Created) {
      RecordCounts(s, job, Failed);
    }
  }

  /** The end of the race calls the backend exactly when the body returned or raised. */
  lemma WakeCalls(s: State, job: JobId)
    requires JobGood(s, job) && CallsCarry(s.calls, s.claimed, s.handled) && !Closes(s, job)
    requires At(s, job, Racing) && (s.inflight[job] == Returned || s.inflight[job] == Raised)
    ensures KeepsAbout(s, WakeStep(s, job), job)
  {
    RecordCounts(s, job, if s.inflight[job] == Returned then Succeeded else Failed);
  }

  lemma WakeKeeps(s: State, job: JobId)
    requires JobGood(s, job) && CallsCarry(s.calls, s.claimed, s.handled) && (job in s.running ==> !Closes(s, job))
    ensures KeepsAbout(s, WakeStep(s, job), job)
  {
    if At(s, job, Racing) && (s.inflight[job] == Returned || s.inflight[job] == Raised) {
      WakeCalls(s, job);
    }
  }

  lemma WrittenKeeps(s: State, job: JobId, fenced: bool)
    requires JobGood(s, job) && CallsCarry(s.calls, s.claimed, s.handled) && (job in s.running ==> !Closes(s, job))
    ensures KeepsAbout(s, WrittenStep(s, job, fenced), job)
  {
  }

  lemma LoadFailureKeeps(s: State, job: JobId)
    requires JobGood(s, job) && CallsCarry(s.calls, s.claimed, s.handled) && (job in s.running ==> !Closes(s, job))
    ensures KeepsAbout(s, LoadFailureStep(s, job), job)
  {
  }

  lemma BodyKeeps(s: State, job: JobId, how: Body)
    requires JobGood(s, job) && CallsCarry(s.calls, s.claimed, s.handled)
    ensures KeepsAbout(s, BodyStep(s, job, how), job)
  {
  }

  lemma EndKeeps(s: State, job: JobId)
    requires JobGood(s, job) && CallsCarry(s.calls, s.claimed, s.handled) && (job in s.running ==> !Closes(s, job))
    ensures KeepsAbout(s, EndStep(s, job), job)
  {
  }

  lemma RunnerStepKeeps(s: State, e: Event)
    requires Inv(s) && !IsLoop(e) && !IsDrain(e)
    ensures Inv(RunnerStep(s, e))
  {
    assert JobGood(s, e.job);
    match e {
      case StartRunner(job, loads) => StartKeeps(s, job, loads);
      case RunnerWakes(job) => WakeKeeps(s, job);
      case CompletionWritten(job, fenced) => WrittenKeeps(s, job, fenced);
      case LoadFailureWritten(job) => LoadFailureKeeps(s, job);
      case BodyEnds(job, how) => BodyKeeps(s, job, how);
      case RunnerEnds(job) => EndKeeps(s, job);
    }
    KeepsAll(s, RunnerStep(s, e), e.job);
    RunnerKeepsMain(s, e);
  }

  lemma RunnerKeepsMain(s: State, e: Event)
    requires !IsLoop(e) && !IsDrain(e) && MainGood(s) && BodiesGood(s) && JobGood(s, e.job)
    ensures MainGood(RunnerStep(s, e)) && BodiesGood(RunnerStep(s, e))
  {
  }

  lemma ClaimKeeps(s: State, job: JobId, hasHandle: bool)
    requires s.main == Claiming && job !in s.claimed && JobGood(s, job) && CallsCarry(s.calls, s.claimed, s.handled)
    ensures KeepsAbout(s, LoopStep(s, ClaimReturns(job, hasHandle)), job)
  {
  }

  lemma QuietLoopStep(s: State, e: Event, j: JobId)
    requires IsLoop(e) && !e.ClaimReturns?
    ensures Untouched(s, LoopStep(s, e), j)
  {
  }

  lemma LoopKeepsMain(s: State, e: Event)
    requires IsLoop(e) && MainGood(s) && BodiesGood(s) && (e.ClaimReturns? ==> JobGood(s, e.job))
    ensures MainGood(LoopStep(s, e)) && BodiesGood(LoopStep(s, e))
  {
  }

  lemma LoopStepKeeps(s: State, e: Event)
    requires Inv(s) && IsLoop(e)
    ensures Inv(LoopStep(s, e))
  {
    var s' := LoopStep(s, e);
    if e.ClaimReturns? {
      assert JobGood(s, e.job);
      if s' != s {
        ClaimKeeps(s, e.job, e.hasHandle);
        KeepsAll(s, s', e.job);
      }
    } else {
      forall j ensures JobGood(s', j) {
        assert JobGood(s, j);
        QuietLoopStep(s, e, j);
        UntouchedIsGood(s, s', j);
      }
    }
    LoopKeepsMain(s, e);
  }

  lemma PassingDrainKeeps(s: State, e: Event)
    requires e.DrainPicks? || e.DrainFetched? || e.DrainMarked?
    requires s.main.Draining? && CallsCarry(s.calls, s.claimed, s.handled)
    ensures forall j :: Untouched(s, DrainStep(s, e), j)
    ensures CallsCarry(DrainStep(s, e).calls, s.claimed, s.handled)
  {
  }

  lemma DeadlineCalls(s: State)
    requires s.main.Draining? && s.main.stage.Deadline? && s.running == map[] && s.main.stage.job in s.inflight
    requires JobGood(s, s.main.stage.job) && CallsCarry(s.calls, s.claimed, s.handled)
    requires s.inflight[s.main.stage.job] == Returned || s.inflight[s.main.stage.job] == Raised
    ensures KeepsAbout(s, DeadlineStep(s), s.main.stage.job)
  {
    RecordCounts(s, s.main.stage.job, if s.inflight[s.main.stage.job] == Returned then Succeeded else Failed);
  }

  lemma DeadlineKeeps(s: State)
    requires s.main.Draining? && s.main.stage.Deadline? && s.running == map[] && s.main.stage.job in s.inflight
    requires JobGood(s, s.main.stage.job) && CallsCarry(s.calls, s.claimed, s.handled)
    ensures KeepsAbout(s, DeadlineStep(s), s.main.stage.job)
  {
    if s.inflight[s.main.stage.job] == Returned || s.inflight[s.main.stage.job] == Raised {
      DeadlineCalls(s);
    }
  }

  lemma CancelledKeeps(s: State)
    requires s.main.Draining? && s.main.stage.Cancelling? && s.running == map[] && s.main.stage.job in s.inflight
    requires JobGood(s, s.main.stage.job) && CallsCarry(s.calls, s.claimed, s.handled)
    ensures KeepsAbout(s, CancelledStep(s), s.main.stage.job)
  {
    RecordCounts(s, s.main.stage.job, Failed);
  }

  lemma ClosedKeeps(s: State, fenced: bool)
    requires s.main.Draining? && s.main.stage.Closing? && s.running == map[]
    requires JobGood(s, s.main.stage.job) && CallsCarry(s.calls, s.claimed, s.handled)
    ensures KeepsAbout(s, ClosedStep(s, fenced), s.main.stage.job)
  {
  }

  lemma DrainKeepsMain(s: State, e: Event)
    requires IsDrain(e) && MainGood(s) && BodiesGood(s) && (s.main.Draining? ==> s.shuttingDown)
    ensures MainGood(DrainStep(s, e)) && BodiesGood(DrainStep(s, e))
  {
  }

  lemma DrainStepKeeps(s: State, e: Event)
    requires Inv(s) && IsDrain(e)
    ensures Inv(DrainStep(s, e))
  {
    DrainKeepsMain(s, e);
    var s' := DrainStep(s, e);
    if s.main.Draining? && s' != s {
      if e.DrainPicks? || e.DrainFetched? || e.DrainMarked? {
        PassingDrainKeeps(s, e);
        forall j ensures JobGood(s', j) {
          assert JobGood(s, j);
          UntouchedIsGood(s, s', j);
        }
      } else {
        var job := s.main.stage.job;
        assert JobGood(s, job);
        match e {
          case DrainWakes => DeadlineKeeps(s);
          case DrainCancelled => CancelledKeeps(s);
          case DrainCallReturns(fenced) => ClosedKeeps(s, fenced);
        }
        KeepsAll(s, s', job);
      }
    }
  }

  lemma StepKeeps(s: State, e: Event)
    requires Inv(s)
    ensures Inv(Step(s, e))
  {
    if IsLoop(e) {
      LoopStepKeeps(s, e);
    } else if IsDrain(e) {
      DrainStepKeeps(s, e);
    } else {
      RunnerStepKeeps(s, e);
    }
  }
}
