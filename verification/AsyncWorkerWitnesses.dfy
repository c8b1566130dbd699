/** Runs in which the async worker does less than it promises, for every concurrency. */
module AsyncWorkerWitnesses {
  import opened AsyncWorker
  import opened AsyncWorkerRuns

  ghost predicate Reaches(s: State, s': State) {
    exists events :: Run(s, events) == s'
  }

  lemma {:induction false} RunAppend(s: State, xs: seq<Event>, ys: seq<Event>)
    ensures Run(s, xs + ys) == Run(Run(s, xs), ys)
    decreases |xs|
  {
    if xs == [] {
      assert xs + ys == ys;
    } else {
      assert (xs + ys)[0] == xs[0] && (xs + ys)[1..] == xs[1..] + ys;
      RunAppend(Step(s, xs[0]), xs[1..], ys);
    }
  }

  lemma ReachesByStep(s: State, mid: State, e: Event, after: State)
    requires Reaches(s, mid) && Step(mid, e) == after
    ensures Reaches(s, after)
  {
    var xs :| Run(s, xs) == mid;
    assert [e][1..] == [];
    assert Run(mid, [e]) == Run(after, []);
    RunAppend(s, xs, [e]);
    assert Run(s, xs + [e]) == after;
  }

  // ---------------------------------------------------------------------------------
  // A worker with some jobs running
  // ---------------------------------------------------------------------------------

  predicate Below(i: int, n: nat) { 0 <= i < n }

  function UpTo(n: nat): set<int> { set i | 0 <= i < n && Below(i, n) }

  lemma {:induction false} UpToSize(n: nat)
    ensures |UpTo(n)| == n
  {
    if n > 0 {
      UpToSize(n - 1);
      assert UpTo(n) == UpTo(n - 1) + {n - 1};
    }
  }

  /** Jobs 0 .. n-1 are claimed and their bodies run; the first `left` were left to the drain. */
  function Busy(c: nat, n: nat, left: nat, main: Main, shuttingDown: bool, late: bool): State {
    State(c, main, shuttingDown, map j | j in UpTo(n) && left <= j :: Racing, map j | j in UpTo(n) :: Running,
          UpTo(n), UpTo(n), UpTo(n), [], late)
  }

  lemma BusyRunners(c: nat, n: nat, main: Main)
    ensures |Busy(c, n, 0, main, false, false).running| == n
  {
    var s := Busy(c, n, 0, main, false, false);
    assert s.running.Keys == UpTo(n);
    UpToSize(n);
    assert |s.running.Keys| == |s.running|;
  }

  /** The job is claimed and its body starts. */
  lemma ClaimStarts(c: nat, n: nat, s: State)
    requires s == Busy(c, n, 0, Claiming, false, false)
    ensures Step(Step(s, ClaimReturns(n, true)), StartRunner(n, true)) == Busy(c, n + 1, 0, Head, false, false)
  {
    var after := Step(Step(s, ClaimReturns(n, true)), StartRunner(n, true));
    var goal := Busy(c, n + 1, 0, Head, false, false);
    assert UpTo(n + 1) == UpTo(n) + {n};
    assert after.running == goal.running;
    assert after.inflight == goal.inflight;
  }

  lemma TakesOneMore(c: nat, n: nat)
    requires n < c && Reaches(Initial(c), Busy(c, n, 0, Head, false, false))
    ensures Reaches(Initial(c), Busy(c, n + 1, 0, Head, false, false))
  {
    var i := Initial(c);
    var s, s1, s2 := Busy(c, n, 0, Head, false, false), Busy(c, n, 0, Checking, false, false), Busy(c, n, 0, Claiming, false, false);
    ReachesByStep(i, s, PassHead(false), s1);
    BusyRunners(c, n, Checking);
    ReachesByStep(i, s1, CheckCapacity, s2);
    ReachesByStep(i, s2, ClaimReturns(n, true), Step(s2, ClaimReturns(n, true)));
    ClaimStarts(c, n, s2);
    ReachesByStep(i, Step(s2, ClaimReturns(n, true)), StartRunner(n, true), Busy(c, n + 1, 0, Head, false, false));
  }

  lemma {:induction false} WorkerFills(c: nat, n: nat)
    requires n <= c
    ensures Reaches(Initial(c), Busy(c, n, 0, Head, false, false))
  {
    if n == 0 {
      assert Run(Initial(c), []) == Initial(c);
      assert Busy(c, 0, 0, Head, false, false) == Initial(c);
    } else {
      WorkerFills(c, n - 1);
      TakesOneMore(c, n - 1);
    }
  }

  lemma RunnerLeaves(c: nat, n: nat, left: nat, main: Main, late: bool)
    requires left < n
    ensures Step(Busy(c, n, left, main, true, late), RunnerWakes(left)) == Busy(c, n, left + 1, main, true, late)
  {
    var s, s' := Busy(c, n, left, main, true, late), Busy(c, n, left + 1, main, true, late);
    assert left in UpTo(n) && s.running[left] == Racing && s.inflight[left] == Running;
    assert s.running - {left} == s'.running;
  }

  lemma OneMoreLeaves(c: nat, n: nat, left: nat, main: Main, late: bool)
    requires left < n && Reaches(Initial(c), Busy(c, n, left, main, true, late))
    ensures Reaches(Initial(c), Busy(c, n, left + 1, main, true, late))
  {
    var s, s' := Busy(c, n, left, main, true, late), Busy(c, n, left + 1, main, true, late);
    RunnerLeaves(c, n, left, main, late);
    ReachesByStep(Initial(c), s, RunnerWakes(left), s');
  }

  /** After a shutdown every runner leaves its body to the drain. */
  lemma {:induction false} RunnersLeave(c: nat, n: nat, left: nat, main: Main, late: bool)
    requires left <= n && Reaches(Initial(c), Busy(c, n, 0, main, true, late))
    ensures Reaches(Initial(c), Busy(c, n, left, main, true, late))
  {
    if left > 0 {
      RunnersLeave(c, n, left - 1, main, late);
      OneMoreLeaves(c, n, left - 1, main, late);
    }
  }

  // ---------------------------------------------------------------------------------
  // One job too many
  // ---------------------------------------------------------------------------------

  /** For every concurrency: a shutdown that arrives while the worker is full and about to check its
      capacity. The runners leave their bodies to the drain, the check counts none of them, and one
      more job is claimed while all the others still run. */
  lemma LateShutdownLetsInOneMore(c: nat)
    requires c >= 1
    ensures exists events :: |Slots(Run(Initial(c), events))| == c + 1
  {
    var i := Initial(c);
    WorkerFills(c, c);
    ReachesByStep(i, Busy(c, c, 0, Head, false, false), PassHead(false), Busy(c, c, 0, Checking, false, false));
    ReachesByStep(i, Busy(c, c, 0, Checking, false, false), Shutdown, Busy(c, c, 0, Checking, true, true));
    RunnersLeave(c, c, c, Checking, true);
    var s := Busy(c, c, c, Checking, true, true);
    assert s.running == map[];
    ReachesByStep(i, s, CheckCapacity, s.(main := Claiming));
    var last := Step(s.(main := Claiming), ClaimReturns(c, true));
    ReachesByStep(i, s.(main := Claiming), ClaimReturns(c, true), last);
    OneSlotMore(last, c);
    var events :| Run(i, events) == last;
    assert |Slots(Run(i, events))| == c + 1;
  }

  lemma OneSlotMore(s: State, c: nat)
    requires s.running == map[c := Created] && s.inflight == map j | j in UpTo(c) :: Running
    ensures |Slots(s)| == c + 1
  {
    assert Slots(s) == UpTo(c + 1);
    UpToSize(c + 1);
  }

  // ---------------------------------------------------------------------------------
  // Calls that never come
  // ---------------------------------------------------------------------------------

  /** The runner of a cancelled body ends without a call. */
  lemma CancelledRunnerLeaves(c: nat, s: State)
    requires s == Busy(c, 1, 0, Head, false, false)
    ensures var s' := Step(Step(s, BodyEnds(0, Cancelled)), RunnerWakes(0));
            s'.running == map[] && s'.main == Head && !s'.shuttingDown && s'.claimed == {0} && s'.calls == []
  {
    assert UpTo(1) == {0} && s.running == map[0 := Racing] && s.inflight == map[0 := Running];
    assert s.running - {0} == map[];
  }

  lemma ReturnsWithoutRunners(c: nat, s: State)
    requires Reaches(Initial(c), s) && s.running == map[] && s.main == Head && !s.shuttingDown
    ensures Reaches(Initial(c), s.(main := Done))
  {
    ReachesByStep(Initial(c), s, PassHead(true), s.(main := Gathering));
    ReachesByStep(Initial(c), s.(main := Gathering), GatherEnds, s.(main := Done));
  }

  /** For every concurrency: a body that ends in `CancelledError` on its own takes its runner with it;
      `run` returns and the job never had a completion call. */
  lemma CancelledBodyIsForgotten(c: nat)
    requires c >= 1
    ensures exists events :: var s := Run(Initial(c), events); s.main == Done && s.claimed == {0} && CountCalls(s.calls, 0) == 0
  {
    var i, s := Initial(c), Busy(c, 1, 0, Head, false, false);
    WorkerFills(c, 1);
    var s1 := Step(s, BodyEnds(0, Cancelled));
    var s2 := Step(s1, RunnerWakes(0));
    ReachesByStep(i, s, BodyEnds(0, Cancelled), s1);
    ReachesByStep(i, s1, RunnerWakes(0), s2);
    CancelledRunnerLeaves(c, s);
    ReturnsWithoutRunners(c, s2);
    var events :| Run(i, events) == s2.(main := Done);
    assert Run(i, events).main == Done;
  }

  /** All runners have left, and the drain waits for the body of job 0, whose row could not be read. */
  function DrainingFirst(c: nat): State {
    Busy(c, c, c, Draining(UpTo(c) - {0}, Deadline(0, false)), true, false)
  }

  lemma DrainBegins(c: nat)
    requires c >= 1
    ensures Reaches(Initial(c), Busy(c, c, c, Draining(UpTo(c), Picking), true, false))
  {
    var i := Initial(c);
    WorkerFills(c, c);
    ReachesByStep(i, Busy(c, c, 0, Head, false, false), Shutdown, Busy(c, c, 0, Head, true, false));
    RunnersLeave(c, c, c, Head, false);
    var s := Busy(c, c, c, Head, true, false);
    assert s.running == map[] && s.inflight.Keys == UpTo(c) && 0 in s.inflight;
    ReachesByStep(i, s, PassHead(true), s.(main := Gathering));
    ReachesByStep(i, s.(main := Gathering), GatherEnds, s.(main := Draining(UpTo(c), Picking)));
  }

  lemma DrainReachesFirst(c: nat)
    requires c >= 1
    ensures Reaches(Initial(c), DrainingFirst(c))
  {
    var i, rest := Initial(c), UpTo(c) - {0};
    DrainBegins(c);
    var s := Busy(c, c, c, Draining(UpTo(c), Picking), true, false);
    assert 0 in UpTo(c);
    ReachesByStep(i, s, DrainPicks(0), s.(main := Draining(rest, Fetching(0))));
    ReachesByStep(i, s.(main := Draining(rest, Fetching(0))), DrainFetched(false), s.(main := Draining(rest, Marking(0, false))));
    ReachesByStep(i, s.(main := Draining(rest, Marking(0, false))), DrainMarked, DrainingFirst(c));
  }

  /** The drain ended at job 0; every other claimed job still runs and has had no call. */
  ghost predicate OthersStranded(s: State, c: nat) {
    && s.main.Escaped? && s.claimed == UpTo(c)
    && forall j :: 1 <= j < c ==> j in s.inflight && s.inflight[j] == Running && CountCalls(s.calls, j) == 0
  }

  /** The call for job 0 is made and raises out of the drain. */
  lemma FencedCallEscapes(c: nat, s: State)
    requires c >= 1 && s == DrainingFirst(c)
    ensures var s' := Step(Step(Step(s, BodyEnds(0, Raised)), DrainWakes), DrainCallReturns(true));
            OthersStranded(s', c) && s'.main == Escaped(0, true)
  {
    assert 0 in s.inflight && 0 in s.attempts;
    var s2 := Step(Step(s, BodyEnds(0, Raised)), DrainWakes);
    assert s2.main == Draining(UpTo(c) - {0}, Closing(0, true)) && s2.calls == s.calls + [Call(0, Failed, true)];
    forall j | 1 <= j < c ensures CountCalls(s2.calls, j) == 0 {
      CountAppend(s.calls, Call(0, Failed, true), j);
    }
  }

  /** For every concurrency: a fencing error at the completion call of a drained job whose row could not be
      read leaves the drain, and with it every other job in flight. */
  lemma FencedDrainStrandsOthers(c: nat)
    requires c >= 1
    ensures exists events :: var s := Run(Initial(c), events); OthersStranded(s, c) && s.main == Escaped(0, true)
  {
    var i, s := Initial(c), DrainingFirst(c);
    DrainReachesFirst(c);
    var s1 := Step(s, BodyEnds(0, Raised));
    var s2 := Step(s1, DrainWakes);
    var s3 := Step(s2, DrainCallReturns(true));
    ReachesByStep(i, s, BodyEnds(0, Raised), s1);
    ReachesByStep(i, s1, DrainWakes, s2);
    ReachesByStep(i, s2, DrainCallReturns(true), s3);
    FencedCallEscapes(c, s);
    var events :| Run(i, events) == s3;
    assert OthersStranded(Run(i, events), c);
  }

  /** For every concurrency: so does a drained body that ended in `CancelledError`. */
  lemma CancelledDrainStrandsOthers(c: nat)
    requires c >= 1
    ensures exists events :: var s := Run(Initial(c), events); OthersStranded(s, c) && s.main == Escaped(0, false)
  {
    var i, s := Initial(c), DrainingFirst(c);
    DrainReachesFirst(c);
    assert 0 in s.inflight;
    var s1 := Step(s, BodyEnds(0, Cancelled));
    ReachesByStep(i, s, BodyEnds(0, Cancelled), s1);
    var s2 := s1.(main := Escaped(0, false));
    ReachesByStep(i, s1, DrainWakes, s2);
    var events :| Run(i, events) == s2;
    assert OthersStranded(Run(i, events), c);
  }
}
