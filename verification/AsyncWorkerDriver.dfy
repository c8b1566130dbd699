/** The worker object: its fields, the code between two awaits of its coroutines as methods that change
    them, and a driver that runs them in the order the event loop picks. Each method states what it
    does for its job: the call it makes, what the job still owes, and that no other job is touched. */
module AsyncWorkerDriver {
  import opened AsyncWorker
  import opened AsyncWorkerRuns

  /** The job owed its completion and got it: one call, the first, with the attempt of its claim. */
  ghost predicate Reported(s: State, s': State, job: JobId, outcome: Outcome) {
    && CountCalls(s.calls, job) == 0 && s'.calls == s.calls + [Call(job, outcome, job in s.handled)]
    && !Outstanding(s', job)
  }

  /** Every other job is where it was. */
  ghost predicate OthersKept(s: State, s': State, job: JobId) {
    forall j :: j != job ==> Untouched(s, s', j)
  }

  lemma ClaimGrowsSlots(s: State, job: JobId, hasHandle: bool)
    requires s.main == Claiming && job !in s.claimed
    ensures Slots(LoopStep(s, ClaimReturns(job, hasHandle))) == Slots(s) + {job}
  {
  }

  class Worker {
    const concurrency: nat
    var main: Main
    var shuttingDown: bool
    var running: map<JobId, Runner>
    var inflight: map<JobId, Body>
    var attempts: set<JobId>
    var claimed: set<JobId>
    ghost var handled: set<JobId>
    ghost var calls: seq<Call>
    ghost var late: bool

    ghost function Now(): State
      reads this
    {
      State(concurrency, main, shuttingDown, running, inflight, attempts, claimed, handled, calls, late)
    }

    constructor (concurrency: nat)
      ensures Now() == Initial(concurrency) && Inv(Now())
    {
      this.concurrency := concurrency;
      main, shuttingDown, running, inflight, attempts := Head, false, map[], map[], {};
      claimed, handled, calls, late := {}, {}, [], false;
      new;
      InitialIsGood(concurrency);
    }

    /** `_initiate_shutdown`: from now on the loop ends at its head, and nothing is owed or forgiven. */
    method InitiateShutdown()
      requires Inv(Now())
      modifies this
      ensures Now() == Step(old(Now()), Shutdown) && Inv(Now())
      ensures shuttingDown && calls == old(calls) && forall j :: Untouched(old(Now()), Now(), j)
    {
      StepKeeps(Now(), Shutdown);
      late := late || (!shuttingDown && main == Checking);
      shuttingDown := true;
    }

    /** `run` takes the job a claim returned: the job now owes exactly one completion, which will present
        the attempt it came with. */
    method AcceptClaim(job: JobId, hasHandle: bool)
      requires Inv(Now()) && main == Claiming && job !in claimed
      modifies this
      ensures Now() == Step(old(Now()), ClaimReturns(job, hasHandle)) && Inv(Now())
      ensures Outstanding(Now(), job) && CountCalls(calls, job) == 0 && (job in attempts <==> hasHandle)
      ensures OthersKept(old(Now()), Now(), job) && Slots(Now()) == Slots(old(Now())) + {job}
    {
      ghost var s := Now();
      StepKeeps(s, ClaimReturns(job, hasHandle));
      assert JobGood(s, job);
      ClaimKeeps(s, job, hasHandle);
      ClaimGrowsSlots(s, job, hasHandle);
      if hasHandle {
        attempts := attempts + {job};
        handled := handled + {job};
      }
      claimed := claimed + {job};
      running := running[job := Created];
      main := Head;
      assert JobGood(Now(), job);
    }

    /** `_execute_job` up to its first await: a task that cannot be loaded is reported as failed at once;
        any other is in flight, still owing, with a runner unless the worker is shutting down. */
    method StartExecution(job: JobId, loads: bool)
      requires Inv(Now()) && At(Now(), job, Created)
      modifies this
      ensures Now() == Step(old(Now()), StartRunner(job, loads)) && Inv(Now())
      ensures !loads ==> Reported(old(Now()), Now(), job, Failed) && job !in inflight
      ensures loads ==> calls == old(calls) && Outstanding(Now(), job) && job in inflight && (job in running <==> !shuttingDown)
      ensures OthersKept(old(Now()), Now(), job)
    {
      ghost var s := Now();
      StepKeeps(s, StartRunner(job, loads));
      assert JobGood(s, job);
      StartKeeps(s, job, loads);
      if !loads {
        calls := calls + [Call(job, Failed, job in attempts)];
        running := running[job := LoadFailing];
      } else {
        inflight := inflight[job := Running];
        running := if shuttingDown then running - {job} else running[job := Racing];
      }
    }

    /** `_execute_job` after the race of the body against the shutdown: a body that ended is reported as
        it ended; one that still runs, or was cancelled, is left in flight, still owing. */
    method FinishRace(job: JobId)
      requires Inv(Now()) && At(Now(), job, Racing) && job in inflight && (shuttingDown || inflight[job] != Running)
      modifies this
      ensures Now() == Step(old(Now()), RunnerWakes(job)) && Inv(Now())
      ensures inflight == old(inflight) && job in inflight
      ensures inflight[job] == Returned ==> Reported(old(Now()), Now(), job, Succeeded)
      ensures inflight[job] == Raised ==> Reported(old(Now()), Now(), job, Failed)
      ensures inflight[job] == Running || inflight[job] == Cancelled ==>
        calls == old(calls) && Outstanding(Now(), job) && job !in running
      ensures OthersKept(old(Now()), Now(), job)
    {
      ghost var s := Now();
      StepKeeps(s, RunnerWakes(job));
      assert JobGood(s, job);
      WakeKeeps(s, job);
      match inflight[job] {
        case Returned =>
          calls := calls + [Call(job, Succeeded, job in attempts)];
          running := running[job := Writing];
        case Raised =>
          calls := calls + [Call(job, Failed, job in attempts)];
          running := running[job := Writing];
        case _ =>
          running := running - {job};
      }
    }

    /** `_on_job_success` / `_on_job_failed` after the completion call returned or was fenced: no second call,
        the attempt is forgotten, and so is the job, unless a failure has its retry to come. */
    method CompletionReturned(job: JobId, fenced: bool)
      requires Inv(Now()) && At(Now(), job, Writing) && job in inflight
      modifies this
      ensures Now() == Step(old(Now()), CompletionWritten(job, fenced)) && Inv(Now())
      ensures calls == old(calls) && CountCalls(calls, job) == 1 && job !in attempts
      ensures job in inflight <==> !fenced && old(inflight)[job] == Raised
      ensures job in running <==> job in inflight
      ensures OthersKept(old(Now()), Now(), job)
    {
      ghost var s := Now();
      StepKeeps(s, CompletionWritten(job, fenced));
      assert JobGood(s, job);
      WrittenKeeps(s, job, fenced);
      attempts := attempts - {job};
      if fenced || inflight[job] == Returned {
        inflight := inflight - {job};
        running := running - {job};
      } else {
        running := running[job := Following];
      }
    }

    /** `_drain_one` after the race of the body against the deadline: reported as it ended, or, if it still
        runs, cancelled and still owing; a cancelled body ends the drain without a call. */
    method FinishDeadline()
      requires Inv(Now()) && main.Draining? && main.stage.Deadline?
      modifies this
      ensures Now() == Step(old(Now()), DrainWakes) && Inv(Now()) && inflight == old(inflight)
      ensures var job := old(main).stage.job;
              && job in inflight && OthersKept(old(Now()), Now(), job)
              && (inflight[job] == Returned ==> Reported(old(Now()), Now(), job, Succeeded))
              && (inflight[job] == Raised ==> Reported(old(Now()), Now(), job, Failed))
              && (inflight[job] == Running || inflight[job] == Cancelled ==> calls == old(calls) && Outstanding(Now(), job))
              && (main.Escaped? <==> inflight[job] == Cancelled)
    {
      ghost var s := Now();
      StepKeeps(s, DrainWakes);
      var job, found := main.stage.job, main.stage.found;
      assert JobGood(s, job);
      DeadlineKeeps(s);
      match inflight[job] {
        case Returned =>
          calls := calls + [Call(job, Succeeded, job in attempts)];
          main := Draining(main.todo, Closing(job, false));
        case Raised =>
          calls := calls + [Call(job, Failed, job in attempts)];
          main := Draining(main.todo, Closing(job, !found));
        case Cancelled =>
          main := Escaped(job, false);
        case Running =>
          main := Draining(main.todo, Cancelling(job));
      }
    }

    /** `_drain_one` after the cancelled body ended, however it ended: reported as failed. */
    method ReportDeadline()
      requires Inv(Now()) && main.Draining? && main.stage.Cancelling? && (main.stage.job in inflight ==> inflight[main.stage.job] != Running)
      modifies this
      ensures Now() == Step(old(Now()), DrainCancelled) && Inv(Now())
      ensures Reported(old(Now()), Now(), old(main).stage.job, Failed) && OthersKept(old(Now()), Now(), old(main).stage.job)
    {
      ghost var s := Now();
      StepKeeps(s, DrainCancelled);
      var job := main.stage.job;
      assert JobGood(s, job);
      CancelledKeeps(s);
      calls := calls + [Call(job, Failed, job in attempts)];
      main := Draining(main.todo, Closing(job, false));
    }

    /** `_drain_one` after its completion call returned or was fenced: no second call; the job is forgotten and
        the drain goes on, or ends with the last job; an uncaught fencing error ends it at once. */
    method FinishDrain(fenced: bool)
      requires Inv(Now()) && main.Draining? && main.stage.Closing?
      modifies this
      ensures Now() == Step(old(Now()), DrainCallReturns(fenced)) && Inv(Now())
      ensures var job := old(main).stage.job;
              && calls == old(calls) && CountCalls(calls, job) == 1 && OthersKept(old(Now()), Now(), job)
              && (main.Escaped? <==> fenced && old(main).stage.strict)
              && (!main.Escaped? ==> inflight == old(inflight) - {job} && (main.Done? <==> inflight == map[]))
    {
      ghost var s := Now();
      StepKeeps(s, DrainCallReturns(fenced));
      var job, strict, todo := main.stage.job, main.stage.strict, main.todo;
      assert JobGood(s, job);
      ClosedKeeps(s, fenced);
      if fenced && strict {
        main := Escaped(job, true);
      } else {
        attempts := attempts - {job};
        inflight := inflight - {job};
        assert todo == {} <==> inflight == map[] by {
          assert forall j :: j in inflight <==> j in todo;
        }
        main := if todo == {} then Done else Draining(todo, Picking);
      }
    }

    /** `_execute_job` after the write of a load failure: the job had its one call and is forgotten. */
    method LoadFailureReturned(job: JobId)
      requires Inv(Now()) && At(Now(), job, LoadFailing)
      modifies this
      ensures Now() == Step(old(Now()), LoadFailureWritten(job)) && Inv(Now())
      ensures calls == old(calls) && CountCalls(calls, job) == 1 && job !in running && job !in inflight && job !in attempts
      ensures OthersKept(old(Now()), Now(), job)
    {
      ghost var s := Now();
      assert JobGood(s, job);
      StepKeeps(s, LoadFailureWritten(job));
      LoadFailureKeeps(s, job);
      attempts := attempts - {job};
      running := running - {job};
    }

    /** `_execute_job` after the retry and the release that follow a failure: likewise. */
    method EndRunner(job: JobId)
      requires Inv(Now()) && At(Now(), job, Following)
      modifies this
      ensures Now() == Step(old(Now()), RunnerEnds(job)) && Inv(Now())
      ensures calls == old(calls) && CountCalls(calls, job) == 1 && job !in running && job !in inflight
      ensures OthersKept(old(Now()), Now(), job)
    {
      ghost var s := Now();
      assert JobGood(s, job);
      StepKeeps(s, RunnerEnds(job));
      EndKeeps(s, job);
      inflight := inflight - {job};
      running := running - {job};
    }

    /** The task of a body ends, by itself or because the drain cancelled it. */
    method BodyEnded(job: JobId, how: Body)
      requires Inv(Now()) && job in inflight && inflight[job] == Running && how != Running
      modifies this
      ensures Now() == Step(old(Now()), BodyEnds(job, how)) && Inv(Now())
      ensures calls == old(calls) && Outstanding(Now(), job) == old(Outstanding(Now(), job)) && OthersKept(old(Now()), Now(), job)
    {
      ghost var s := Now();
      StepKeeps(s, BodyEnds(job, how));
      assert JobGood(s, job);
      BodyKeeps(s, job, how);
      inflight := inflight[job := how];
    }

    /** The head of the loop of `run`: left on shutdown or at the bound of the run; no job is touched. */
    method PassLoopHead(bounded: bool)
      requires Inv(Now()) && main == Head
      modifies this
      ensures Now() == Step(old(Now()), PassHead(bounded)) && Inv(Now())
      ensures (main == Gathering <==> shuttingDown || bounded) && (main == Checking <==> !shuttingDown && !bounded)
      ensures calls == old(calls) && forall j :: Untouched(old(Now()), Now(), j)
    {
      StepKeeps(Now(), PassHead(bounded));
      main := if shuttingDown || bounded then Gathering else Checking;
    }

    /** The capacity check: a claim is asked for exactly when fewer runners than `concurrency` exist. */
    method CheckForRoom()
      requires Inv(Now()) && main == Checking
      modifies this
      ensures Now() == Step(old(Now()), CheckCapacity) && Inv(Now())
      ensures (main == Claiming <==> |running| < concurrency) && (main == Waiting <==> |running| >= concurrency)
      ensures calls == old(calls) && forall j :: Untouched(old(Now()), Now(), j)
    {
      StepKeeps(Now(), CheckCapacity);
      main := if |running| >= concurrency then Waiting else Claiming;
    }

    /** A claim came back empty, or a wait is over: `run` waits, or goes back to the head of its loop. */
    method Resume()
      requires Inv(Now()) && (main == Waiting || main == Claiming)
      modifies this
      ensures Now() == Step(old(Now()), if old(main) == Waiting then Wake else ClaimEmpty) && Inv(Now())
      ensures calls == old(calls) && forall j :: Untouched(old(Now()), Now(), j)
    {
      StepKeeps(Now(), if main == Waiting then Wake else ClaimEmpty);
      main := if main == Waiting then Head else Waiting;
    }

    /** The end of `run`: once every runner is done, the drain starts with exactly the jobs in flight, or `run`
        returns. */
    method Gathered()
      requires Inv(Now()) && main == Gathering && running == map[]
      modifies this
      ensures Now() == Step(old(Now()), GatherEnds) && Inv(Now())
      ensures calls == old(calls) && forall j :: Untouched(old(Now()), Now(), j)
      ensures main.Draining? ==> shuttingDown && forall j :: j in main.todo <==> j in inflight
      ensures !main.Draining? ==> main == Done && forall j :: j in inflight ==> inflight[j] == Cancelled
    {
      StepKeeps(Now(), GatherEnds);
      main := if shuttingDown && inflight != map[] then Draining(inflight.Keys, Picking) else Done;
    }

    /** `_drain_one` up to its race: no call is made before the deadline or the end of the body. */
    method DrainControl(e: Event)
      requires Inv(Now()) && main.Draining? && (e.DrainPicks? || e.DrainFetched? || e.DrainMarked?)
      modifies this
      ensures Now() == Step(old(Now()), e) && Inv(Now())
      ensures calls == old(calls) && forall j :: Untouched(old(Now()), Now(), j)
    {
      StepKeeps(Now(), e);
      PassingDrainKeeps(Now(), e);
      var todo, stage := main.todo, main.stage;
      if e.DrainPicks? && stage == Picking && e.job in todo {
        main := Draining(todo - {e.job}, Fetching(e.job));
      } else if e.DrainFetched? && stage.Fetching? {
        main := Draining(todo, Marking(stage.job, e.found));
      } else if e.DrainMarked? && stage.Marking? {
        main := Draining(todo, Deadline(stage.job, stage.found));
      }
    }

    /** One event of the loop of `run`, or the shutdown; what is not awaited does not happen. */
    method HandleLoop(e: Event)
      requires Inv(Now()) && IsLoop(e)
      modifies this
      ensures Now() == Step(old(Now()), e) && Inv(Now())
    {
      if e.Shutdown? {
        InitiateShutdown();
      } else if e.ClaimReturns? {
        if main == Claiming && e.job !in claimed { AcceptClaim(e.job, e.hasHandle); }
      } else if e.GatherEnds? {
        if main == Gathering && running == map[] { Gathered(); }
      } else if e.PassHead? {
        if main == Head { PassLoopHead(e.bounded); }
      } else if e.CheckCapacity? {
        if main == Checking { CheckForRoom(); }
      } else if (e.Wake? && main == Waiting) || (e.ClaimEmpty? && main == Claiming) {
        Resume();
      }
    }

    /** One event of a runner or of a body. */
    method HandleRunner(e: Event)
      requires Inv(Now()) && !IsLoop(e) && !IsDrain(e)
      modifies this
      ensures Now() == Step(old(Now()), e) && Inv(Now())
    {
      assert JobGood(Now(), e.job);
      match e {
        case StartRunner(job, loads) => if job in running && running[job] == Created { StartExecution(job, loads); }
        case LoadFailureWritten(job) => if job in running && running[job] == LoadFailing { LoadFailureReturned(job); }
        case BodyEnds(job, how) => if job in inflight && inflight[job] == Running && how != Running { BodyEnded(job, how); }
        case RunnerWakes(job) =>
          if job in running && running[job] == Racing && (shuttingDown || inflight[job] != Running) { FinishRace(job); }
        case CompletionWritten(job, fenced) => if job in running && running[job] == Writing { CompletionReturned(job, fenced); }
        case RunnerEnds(job) => if job in running && running[job] == Following { EndRunner(job); }
      }
    }

    /** One event of the drain. */
    method HandleDrain(e: Event)
      requires Inv(Now()) && IsDrain(e)
      modifies this
      ensures Now() == Step(old(Now()), e) && Inv(Now())
    {
      if !main.Draining? {
        return;
      }
      if e.DrainWakes? {
        if main.stage.Deadline? { FinishDeadline(); }
      } else if e.DrainCancelled? {
        if main.stage.Cancelling? && inflight[main.stage.job] != Running { ReportDeadline(); }
      } else if e.DrainCallReturns? {
        if main.stage.Closing? { FinishDrain(e.fenced); }
      } else {
        DrainControl(e);
      }
    }

    /** A new worker driven through any sequence of events. It makes at most one call for a job; when it is
        over, a claimed job has had its call exactly if it is not left in flight; and it never holds more
        than one job beyond its concurrency. */
    method Drive(events: seq<Event>)
      requires Now() == Initial(concurrency)
      modifies this
      ensures Now() == Run(Initial(concurrency), events)
      ensures forall j :: CountCalls(calls, j) <= 1
      ensures main.Done? || main.Escaped? ==> forall j :: j in claimed ==>
        (CountCalls(calls, j) == 1 <==> j !in inflight || (main.Escaped? && main.called && main.job == j))
      ensures |Slots(Now())| <= concurrency + (if late then 1 else 0)
    {
      InitialIsGood(concurrency);
      for i := 0 to |events|
        invariant Inv(Now()) && Run(Now(), events[i..]) == Run(Initial(concurrency), events)
      {
        var e := events[i];
        assert events[i..][0] == e && events[i..][1..] == events[i + 1..];
        if IsLoop(e) {
          HandleLoop(e);
        } else if IsDrain(e) {
          HandleDrain(e);
        } else {
          HandleRunner(e);
        }
      }
      InFlightBound(concurrency, events);
      forall j ensures CountCalls(calls, j) <= 1 {
        AtMostOneCompletion(concurrency, events, j);
      }
      forall j | j in claimed && (main.Done? || main.Escaped?)
        ensures CountCalls(calls, j) == 1 <==> j !in inflight || (main.Escaped? && main.called && main.job == j)
      {
        CompletedExactlyUnlessLeft(concurrency, events, j);
      }
    }
  }
}
