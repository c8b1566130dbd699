/** Whole runs of the async worker: completion calls and the number of jobs in flight. */
module AsyncWorkerRuns {
  import opened AsyncWorker

  lemma {:induction false} RunKeeps(s: State, events: seq<Event>)
    requires Inv(s)
    ensures Inv(Run(s, events))
    decreases |events|
  {
    if events != [] {
      StepKeeps(s, events[0]);
      RunKeeps(Step(s, events[0]), events[1..]);
    }
  }

  lemma InitialIsGood(c: nat)
    ensures Inv(Initial(c))
  {
    assert forall j :: JobGood(Initial(c), j);
  }

  // ---------------------------------------------------------------------------------
  // Completion calls
  // ---------------------------------------------------------------------------------

  /** Wherever the shutdown lands, no job gets a second completion call, and every call presents
      the attempt its claim came with, if it came with one. */
  lemma AtMostOneCompletion(c: nat, events: seq<Event>, job: JobId)
    ensures CountCalls(Run(Initial(c), events).calls, job) <= 1
    ensures forall call :: call in Run(Initial(c), events).calls ==>
      call.job in Run(Initial(c), events).claimed && (call.carried <==> call.job in Run(Initial(c), events).handled)
  {
    InitialIsGood(c);
    RunKeeps(Initial(c), events);
    assert JobGood(Run(Initial(c), events), job);
  }

  /** When `run` is over, normally or by an exception out of the drain, a claimed job has had its
      completion call exactly if it is no longer in flight, or is the one whose call raised. What a
      normal return leaves in flight is a body that ended in `CancelledError`. */
  lemma CompletedExactlyUnlessLeft(c: nat, events: seq<Event>, job: JobId)
    requires Run(Initial(c), events).main.Done? || Run(Initial(c), events).main.Escaped?
    requires job in Run(Initial(c), events).claimed
    ensures var s := Run(Initial(c), events);
            && (CountCalls(s.calls, job) == 1 <==> job !in s.inflight || (s.main.Escaped? && s.main.called && s.main.job == job))
            && (s.main.Done? && job in s.inflight ==> s.inflight[job] == Cancelled)
  {
    InitialIsGood(c);
    RunKeeps(Initial(c), events);
    assert JobGood(Run(Initial(c), events), job);
  }

  /** No job body ends in `CancelledError` unless the drain cancelled it, and no fencing error meets the
      completion call of a drained job whose row could not be read. */
  predicate CleanEvent(s: State, e: Event) {
    && (e.BodyEnds? && e.how == Cancelled ==> s.main.Draining? && s.main.stage == Cancelling(e.job))
    && (e == DrainCallReturns(true) && s.main.Draining? && s.main.stage.Closing? ==> !s.main.stage.strict)
  }

  predicate CleanRun(s: State, events: seq<Event>)
    decreases |events|
  {
    events != [] ==> CleanEvent(s, events[0]) && CleanRun(Step(s, events[0]), events[1..])
  }

  predicate BeingCancelled(s: State, job: JobId) {
    s.main.Draining? && (s.main.stage == Cancelling(job) || (s.main.stage.Closing? && s.main.stage.job == job))
  }

  /** A cancelled body is one the drain is about to write off. */
  ghost predicate Clean(s: State) {
    !s.main.Escaped? && forall j :: j in s.inflight && s.inflight[j] == Cancelled ==> BeingCancelled(s, j)
  }

  lemma LoopStaysClean(s: State, e: Event)
    requires Inv(s) && Clean(s) && IsLoop(e)
    ensures Clean(LoopStep(s, e))
  {
  }

  lemma RunnerStaysClean(s: State, e: Event)
    requires Inv(s) && Clean(s) && !IsLoop(e) && !IsDrain(e) && CleanEvent(s, e)
    ensures Clean(RunnerStep(s, e))
  {
  }

  lemma DrainStaysClean(s: State, e: Event)
    requires Inv(s) && Clean(s) && IsDrain(e) && CleanEvent(s, e)
    ensures Clean(DrainStep(s, e))
  {
  }

  lemma {:induction false} CleanRunStaysClean(s: State, events: seq<Event>)
    requires Inv(s) && Clean(s) && CleanRun(s, events)
    ensures Inv(Run(s, events)) && Clean(Run(s, events))
    decreases |events|
  {
    if events != [] {
      var e := events[0];
      StepKeeps(s, e);
      if IsLoop(e) {
        LoopStaysClean(s, e);
      } else if IsDrain(e) {
        DrainStaysClean(s, e);
      } else {
        RunnerStaysClean(s, e);
      }
      CleanRunStaysClean(Step(s, e), events[1..]);
    }
  }

  /** In a clean run nothing escapes from the drain, and when `run` returns every claimed job has had
      exactly one completion call: normal, load-failure or drain. */
  lemma ExactlyOneCompletion(c: nat, events: seq<Event>, job: JobId)
    requires CleanRun(Initial(c), events)
    ensures !Run(Initial(c), events).main.Escaped?
    ensures Run(Initial(c), events).main == Done && job in Run(Initial(c), events).claimed ==>
      CountCalls(Run(Initial(c), events).calls, job) == 1
  {
    InitialIsGood(c);
    CleanRunStaysClean(Initial(c), events);
    assert JobGood(Run(Initial(c), events), job);
  }

  /** A body that ended in `CancelledError` although the drain was not cancelling it, before its call. */
  predicate SelfCancelled(s: State, job: JobId) {
    && job in s.inflight && s.inflight[job] == Cancelled && Outstanding(s, job)
    && !(s.main.Draining? && s.main.stage == Cancelling(job))
  }

  lemma LoopKeepsCancelled(s: State, e: Event, job: JobId)
    requires SelfCancelled(s, job) && job in s.claimed && IsLoop(e)
    ensures SelfCancelled(LoopStep(s, e), job)
  {
  }

  lemma RunnerKeepsCancelled(s: State, e: Event, job: JobId)
    requires MainGood(s) && JobGood(s, job) && SelfCancelled(s, job) && job in s.claimed && !IsLoop(e) && !IsDrain(e)
    ensures SelfCancelled(RunnerStep(s, e), job)
  {
  }

  lemma DrainKeepsCancelled(s: State, e: Event, job: JobId)
    requires MainGood(s) && SelfCancelled(s, job) && job in s.claimed && IsDrain(e)
    ensures SelfCancelled(DrainStep(s, e), job)
  {
  }

  lemma ClaimedStays(s: State, e: Event, job: JobId)
    requires job in s.claimed
    ensures job in Step(s, e).claimed
  {
  }

  /** Such a job never gets its call, whatever happens later: the condition on bodies in a clean run is
      needed. */
  lemma {:induction false} SelfCancelledNeverReported(s: State, events: seq<Event>, job: JobId)
    requires Inv(s) && job in s.claimed && SelfCancelled(s, job)
    ensures SelfCancelled(Run(s, events), job) && CountCalls(Run(s, events).calls, job) == 0
    decreases |events|
  {
    assert JobGood(s, job);
    if events != [] {
      var e := events[0];
      StepKeeps(s, e);
      ClaimedStays(s, e, job);
      if IsLoop(e) {
        LoopKeepsCancelled(s, e, job);
      } else if IsDrain(e) {
        DrainKeepsCancelled(s, e, job);
      } else {
        RunnerKeepsCancelled(s, e, job);
      }
      SelfCancelledNeverReported(Step(s, e), events[1..], job);
    }
  }

  // ---------------------------------------------------------------------------------
  // Jobs in flight
  // ---------------------------------------------------------------------------------

  /** The jobs that take up a slot: those with a runner, and those whose body still runs after the
      runner left it to the drain. */
  function Slots(s: State): set<JobId> {
    s.running.Keys + set j | j in s.inflight && s.inflight[j] == Running
  }

  lemma SubsetSize(a: set<JobId>, b: set<JobId>)
    requires a <= b
    ensures |a| <= |b|
  {
    assert b == a + (b - a);
  }

  ghost predicate WithinCapacity(s: State) {
    && (s.late ==> s.shuttingDown)
    && match s.main
       case Checking => |Slots(s)| <= s.concurrency && (s.shuttingDown ==> s.late)
       case Claiming => |Slots(s)| < s.concurrency || (s.late && |Slots(s)| <= s.concurrency)
       case _ => |Slots(s)| <= s.concurrency + if s.late then 1 else 0
  }

  lemma RunnerFreesSlots(s: State, e: Event)
    requires !IsLoop(e) && !IsDrain(e)
    ensures Slots(RunnerStep(s, e)) <= Slots(s)
    ensures RunnerStep(s, e).main == s.main && RunnerStep(s, e).late == s.late && RunnerStep(s, e).shuttingDown == s.shuttingDown
    ensures RunnerStep(s, e).concurrency == s.concurrency
  {
  }

  lemma DrainFreesSlots(s: State, e: Event)
    requires IsDrain(e)
    ensures Slots(DrainStep(s, e)) <= Slots(s)
    ensures DrainStep(s, e).late == s.late && DrainStep(s, e).shuttingDown == s.shuttingDown
    ensures DrainStep(s, e).concurrency == s.concurrency
    ensures !s.main.Draining? ==> DrainStep(s, e) == s
    ensures s.main.Draining? ==> DrainStep(s, e).main.Draining? || DrainStep(s, e).main.Done? || DrainStep(s, e).main.Escaped?
  {
  }

  /** While there is no shutdown, every body that runs has its runner. */
  lemma NoShutdownSlots(s: State)
    requires BodiesGood(s) && !s.shuttingDown
    ensures Slots(s) == s.running.Keys && |Slots(s)| == |s.running|
  {
    assert forall j :: j in s.inflight && s.inflight[j] == Running ==> j in s.running;
    assert |s.running.Keys| == |s.running|;
  }

  lemma ClaimTakesSlot(s: State, job: JobId, hasHandle: bool)
    requires WithinCapacity(s)
    ensures WithinCapacity(LoopStep(s, ClaimReturns(job, hasHandle)))
  {
    var s' := LoopStep(s, ClaimReturns(job, hasHandle));
    assert Slots(s') <= Slots(s) + {job};
    SubsetSize(Slots(s'), Slots(s) + {job});
    assert |Slots(s) + {job}| <= |Slots(s)| + 1;
  }

  lemma CheckKeepsSlots(s: State)
    requires BodiesGood(s) && WithinCapacity(s)
    ensures WithinCapacity(LoopStep(s, CheckCapacity))
  {
    assert Slots(LoopStep(s, CheckCapacity)) == Slots(s);
    if s.main == Checking && !s.shuttingDown {
      NoShutdownSlots(s);
    }
  }

  lemma QuietKeepsSlots(s: State, e: Event)
    requires WithinCapacity(s) && IsLoop(e) && !e.ClaimReturns? && !e.CheckCapacity?
    ensures WithinCapacity(LoopStep(s, e))
  {
    assert Slots(LoopStep(s, e)) == Slots(s);
  }

  lemma LoopKeepsSlots(s: State, e: Event)
    requires BodiesGood(s) && WithinCapacity(s) && IsLoop(e)
    ensures WithinCapacity(LoopStep(s, e)) && LoopStep(s, e).concurrency == s.concurrency
  {
    match e {
      case ClaimReturns(job, hasHandle) => ClaimTakesSlot(s, job, hasHandle);
      case CheckCapacity => CheckKeepsSlots(s);
      case _ => QuietKeepsSlots(s, e);
    }
  }

  lemma StepKeepsSlots(s: State, e: Event)
    requires BodiesGood(s) && WithinCapacity(s)
    ensures WithinCapacity(Step(s, e)) && Step(s, e).concurrency == s.concurrency
  {
    if IsLoop(e) {
      LoopKeepsSlots(s, e);
    } else if IsDrain(e) {
      DrainFreesSlots(s, e);
      SubsetSize(Slots(Step(s, e)), Slots(s));
    } else {
      RunnerFreesSlots(s, e);
      SubsetSize(Slots(Step(s, e)), Slots(s));
    }
  }

  lemma {:induction false} RunKeepsSlots(s: State, events: seq<Event>)
    requires Inv(s) && WithinCapacity(s)
    ensures WithinCapacity(Run(s, events)) && Run(s, events).concurrency == s.concurrency
    decreases |events|
  {
    if events != [] {
      StepKeeps(s, events[0]);
      StepKeepsSlots(s, events[0]);
      RunKeepsSlots(Step(s, events[0]), events[1..]);
    }
  }

  /** Never more than `concurrency` jobs are in flight, except that a shutdown which arrives between the
      head of the loop and the capacity check can let in one more. */
  lemma InFlightBound(c: nat, events: seq<Event>)
    ensures |Slots(Run(Initial(c), events))| <= c + 1
    ensures !Run(Initial(c), events).late ==> |Slots(Run(Initial(c), events))| <= c
  {
    InitialIsGood(c);
    assert Slots(Initial(c)) == {};
    RunKeepsSlots(Initial(c), events);
  }

  /** The shutdown never arrives between the head of the loop and the capacity check. */
  predicate TimelyRun(s: State, events: seq<Event>)
    decreases |events|
  {
    events != [] ==> !(events[0].Shutdown? && s.main == Checking) && TimelyRun(Step(s, events[0]), events[1..])
  }

  lemma {:induction false} TimelyIsNotLate(s: State, events: seq<Event>)
    requires !s.late && TimelyRun(s, events)
    ensures !Run(s, events).late
    decreases |events|
  {
    if events != [] {
      StepIsNotLate(s, events[0]);
      TimelyIsNotLate(Step(s, events[0]), events[1..]);
    }
  }

  lemma StepIsNotLate(s: State, e: Event)
    requires !s.late && !(e.Shutdown? && s.main == Checking)
    ensures !Step(s, e).late
  {
  }

  /** In every other run there are never more than `concurrency` jobs in flight, as promised. */
  lemma TimelyRunsKeepConcurrency(c: nat, events: seq<Event>)
    requires TimelyRun(Initial(c), events)
    ensures |Slots(Run(Initial(c), events))| <= c
  {
    TimelyIsNotLate(Initial(c), events);
    InFlightBound(c, events);
  }
}
