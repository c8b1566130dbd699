/** Runs of a workflow: what the dependency gate guarantees about the order in which the steps of
    a chain run, whatever the workers, the retries and the sweeps do. */
module Workflow {
  import opened Dependencies
  import Canvas

  /** All jobs, and the jobs some claimer judged runnable. A verdict may be acted on long after it
      was reached. The claim by id and the claim of the async backend (`ClaimDirect`) ask for none. */
  datatype Flow = Flow(w: World, cleared: set<int>)

  datatype Op =
    | Enqueue(id: int, deps: seq<int>)
    | Judge(id: int)
    | Claim(id: int)
    | ClaimDirect(id: int)
    | Complete(id: int)
    | Fail(id: int, retryPending: bool)
    | FailQueued(id: int)
    | Release(id: int)
    | Retry(failed: int, child: int)
    | Settle(id: int)
    | Archive(id: int)
    | Cascade(id: int, ancestor: int, hops: nat)

  /** `s` is `a` itself or a retry of a retry ... of `a`. */
  ghost predicate Descends(w: World, a: int, s: int, hops: nat)
    decreases hops
  {
    s in w.jobs && if hops == 0 then s == a else w.jobs[s].parent.Some? && Descends(w, a, w.jobs[s].parent.value, hops - 1)
  }

  /** Some attempt in the retry chain of `a` ran to success. */
  ghost predicate Achieved(w: World, a: int) {
    exists s, hops :: Descends(w, a, s, hops) && w.jobs[s].completed
  }

  function WithStatus(w: World, id: int, status: Status, retryPending: bool): World
    requires id in w.jobs
  {
    w.(jobs := w.jobs[id := w.jobs[id].(status := status, retryPending := retryPending)])
  }

  ghost predicate Enabled(f: Flow, op: Op)
    requires Linked(f.w)
  {
    var jobs := f.w.jobs;
    match op
    case Enqueue(id, _) => id !in jobs
    case Judge(id) => id in jobs && StateOf(f.w, jobs[id].deps) == Met
    case Claim(id) => id in jobs && jobs[id].status == Queued && id in f.cleared
    case ClaimDirect(id) => id in jobs && jobs[id].status == Queued
    case Complete(id) => id in jobs && jobs[id].status == Running
    case Fail(id, _) => id in jobs && jobs[id].status == Running
    case FailQueued(id) => id in jobs && jobs[id].status == Queued
    case Release(id) => id in jobs && jobs[id].status == Running
    case Retry(failed, child) => failed in jobs && child !in jobs && jobs[failed].status == Failed
    case Settle(id) => id in jobs && jobs[id].status == Failed
    case Archive(id) => id in jobs && jobs[id].status == Failed && id in f.w.retry
    case Cascade(id, ancestor, hops) =>
      && ancestor in jobs && jobs[ancestor].status != Success && jobs[ancestor].status != Archived
      && Descends(f.w, ancestor, id, hops) && jobs[id].completed
  }

  /** One transaction; a step that is not enabled changes nothing. */
  ghost function Apply(f: Flow, op: Op): Flow
    requires Linked(f.w)
  {
    var w := f.w;
    if !Enabled(f, op) then f
    else
      match op
      case Enqueue(id, deps) => f.(w := w.(jobs := w.jobs[id := Job(Queued, false, deps, None, false, false)]))
      case Judge(id) => f.(cleared := f.cleared + {id})
      case Claim(id) => f.(w := w.(jobs := w.jobs[id := w.jobs[id].(status := Running, started := true)]))
      case ClaimDirect(id) => f.(w := w.(jobs := w.jobs[id := w.jobs[id].(status := Running, started := true)]))
      case Complete(id) => f.(w := w.(jobs := w.jobs[id := w.jobs[id].(status := Success, completed := true)]))
      case Fail(id, retryPending) => f.(w := WithStatus(w, id, Failed, retryPending))
      case FailQueued(id) => f.(w := WithStatus(w, id, Failed, false))
      case Release(id) => f.(w := WithStatus(w, id, Queued, false))
      case Retry(failed, child) =>
        var job := Job(Queued, false, w.jobs[failed].deps, Some(failed), false, false);
        f.(w := World(w.jobs[child := job], w.retry[failed := child]))
      case Settle(id) => f.(w := WithStatus(w, id, Failed, false))
      case Archive(id) => f.(w := WithStatus(w, id, Archived, false))
      case Cascade(_, ancestor, _) => f.(w := WithStatus(w, ancestor, Success, false))
  }

  // ---------------------------------------------------------------------------------
  // The invariant
  // ---------------------------------------------------------------------------------

  ghost predicate AllAchieved(w: World, deps: seq<int>) {
    forall d :: d in deps ==> Achieved(w, d)
  }

  /** What holds of a job; `direct` are the jobs that a claim without the gate may name. */
  ghost predicate JobGood(f: Flow, id: int, direct: set<int>)
    requires id in f.w.jobs
  {
    var job := f.w.jobs[id];
    && ((job.started && id !in direct) || id in f.cleared ==> AllAchieved(f.w, job.deps))
    && (job.status == Running || job.completed ==> job.started)
    && (job.status == Success ==> Achieved(f.w, id))
    && (job.parent.Some? ==> job.parent.value in f.w.jobs && job.deps == f.w.jobs[job.parent.value].deps)
  }

  ghost predicate Inv(f: Flow, direct: set<int>) {
    && Linked(f.w)
    && (forall id :: id in f.cleared ==> id in f.w.jobs)
    && (forall id :: id in f.w.jobs ==> JobGood(f, id, direct))
  }

  /** What a step never takes back. */
  ghost predicate Grows(w: World, w': World) {
    forall id :: id in w.jobs ==>
      && id in w'.jobs && w'.jobs[id].deps == w.jobs[id].deps && w'.jobs[id].parent == w.jobs[id].parent
      && (w.jobs[id].started ==> w'.jobs[id].started) && (w.jobs[id].completed ==> w'.jobs[id].completed)
  }

  lemma StepGrows(f: Flow, op: Op)
    requires Linked(f.w)
    ensures Grows(f.w, Apply(f, op).w)
  {
  }

  lemma {:induction false} DescendsGrows(w: World, w': World, a: int, s: int, hops: nat)
    requires Grows(w, w') && Descends(w, a, s, hops)
    ensures Descends(w', a, s, hops)
    decreases hops
  {
    if hops > 0 {
      DescendsGrows(w, w', a, w.jobs[s].parent.value, hops - 1);
    }
  }

  lemma AchievedGrows(w: World, w': World, a: int)
    requires Grows(w, w') && Achieved(w, a)
    ensures Achieved(w', a)
  {
    var s, hops :| Descends(w, a, s, hops) && w.jobs[s].completed;
    DescendsGrows(w, w', a, s, hops);
  }

  lemma AllAchievedGrows(w: World, w': World, deps: seq<int>)
    requires Grows(w, w') && AllAchieved(w, deps)
    ensures AllAchieved(w', deps)
  {
    forall d | d in deps ensures Achieved(w', d) {
      AchievedGrows(w, w', d);
    }
  }

  /** A success reached by following retries counts for every job on the way. */
  lemma {:induction false} AchievedUp(w: World, a: int, child: int)
    requires a in w.jobs && child in w.jobs && w.jobs[child].parent == Some(a) && Achieved(w, child)
    ensures Achieved(w, a)
  {
    var s, hops :| Descends(w, child, s, hops) && w.jobs[s].completed;
    DescendsUp(w, a, child, s, hops);
  }

  lemma {:induction false} DescendsUp(w: World, a: int, child: int, s: int, hops: nat)
    requires a in w.jobs && child in w.jobs && w.jobs[child].parent == Some(a) && Descends(w, child, s, hops)
    ensures Descends(w, a, s, hops + 1)
    decreases hops
  {
    if hops == 0 {
      assert Descends(w, a, a, 0);
    } else {
      DescendsUp(w, a, child, w.jobs[s].parent.value, hops - 1);
    }
  }

  lemma {:induction false} ChainEndAchieved(w: World, id: int, hops: nat)
    requires Linked(w) && id in w.jobs && Achieved(w, ChainEnd(w, id, hops))
    ensures Achieved(w, id)
    decreases hops
  {
    if hops != 0 && Superseded(w, id) {
      ChainEndAchieved(w, w.retry[id], hops - 1);
      AchievedUp(w, id, w.retry[id]);
    }
  }

  /** A verdict of `Met` is sound, whoever claimed what. */
  lemma MetIsAchieved(f: Flow, deps: seq<int>, direct: set<int>)
    requires Inv(f, direct) && StateOf(f.w, deps) == Met
    ensures AllAchieved(f.w, deps)
  {
    forall d | d in deps ensures Achieved(f.w, d) {
      var i :| 0 <= i < |deps| && deps[i] == d;
      assert !FateOf(f.w, deps[i]).Doomed? && !FateOf(f.w, deps[i]).Waiting?;
      var e := ChainEnd(f.w, d, MAX_CHAIN_HOPS);
      assert JobGood(f, e, direct);
      ChainEndAchieved(f.w, d, MAX_CHAIN_HOPS);
    }
  }

  lemma JobKeeps(f: Flow, op: Op, id: int, direct: set<int>)
    requires Inv(f, direct) && id in f.w.jobs && (op.ClaimDirect? ==> op.id in direct)
    ensures JobGood(Apply(f, op), id, direct)
  {
    var f' := Apply(f, op);
    var job, job' := f.w.jobs[id], f'.w.jobs[id];
    StepGrows(f, op);
    assert JobGood(f, id, direct);
    if (job.started && id !in direct) || id in f.cleared {
      AllAchievedGrows(f.w, f'.w, job.deps);
    } else if op == Judge(id) && Enabled(f, op) {
      MetIsAchieved(f, job.deps, direct);
    }
    if job.status == Success {
      AchievedGrows(f.w, f'.w, id);
    } else if job'.status == Success {
      SuccessIsAchieved(f, op, id, direct);
    }
  }

  lemma SuccessIsAchieved(f: Flow, op: Op, id: int, direct: set<int>)
    requires Inv(f, direct) && id in f.w.jobs && f.w.jobs[id].status != Success && Apply(f, op).w.jobs[id].status == Success
    ensures Achieved(Apply(f, op).w, id)
  {
    var w' := Apply(f, op).w;
    if op == Complete(id) {
      assert Descends(w', id, id, 0);
    } else {
      StepGrows(f, op);
      assert Descends(f.w, id, op.id, op.hops);
      AchievedGrows(f.w, w', id);
    }
  }

  /** Every transaction keeps the invariant, an ungated claim as far as it names a job in `direct`. */
  lemma StepKeeps(f: Flow, op: Op, direct: set<int>)
    requires Inv(f, direct) && (op.ClaimDirect? ==> op.id in direct)
    ensures Inv(Apply(f, op), direct)
  {
    var f' := Apply(f, op);
    StepGrows(f, op);
    forall id | id in f'.w.jobs ensures JobGood(f', id, direct) {
      if id in f.w.jobs {
        JobKeeps(f, op, id, direct);
      } else {
        NewJobIsGood(f, op, id, direct);
      }
    }
  }

  lemma NewJobIsGood(f: Flow, op: Op, id: int, direct: set<int>)
    requires Inv(f, direct) && id !in f.w.jobs && id in Apply(f, op).w.jobs
    ensures JobGood(Apply(f, op), id, direct)
  {
  }

  // ---------------------------------------------------------------------------------
  // Runs
  // ---------------------------------------------------------------------------------

  lemma StepKeepsLinks(f: Flow, op: Op)
    requires Linked(f.w)
    ensures Linked(Apply(f, op).w)
  {
  }

  ghost function Run(f: Flow, ops: seq<Op>): (r: Flow)
    requires Linked(f.w)
    ensures Linked(r.w)
    decreases |ops|
  {
    if ops == [] then f
    else
      StepKeepsLinks(f, ops[0]);
      Run(Apply(f, ops[0]), ops[1..])
  }

  /** The jobs the run names in a claim without the gate. */
  function DirectlyClaimed(ops: seq<Op>): set<int> {
    set i | 0 <= i < |ops| && ops[i].ClaimDirect? :: ops[i].id
  }

  lemma DirectlyClaimedRest(ops: seq<Op>)
    requires ops != []
    ensures DirectlyClaimed(ops[1..]) <= DirectlyClaimed(ops)
    ensures ops[0].ClaimDirect? ==> ops[0].id in DirectlyClaimed(ops)
  {
    var rest := ops[1..];
    forall id | id in DirectlyClaimed(rest) ensures id in DirectlyClaimed(ops) {
      var i :| 0 <= i < |rest| && rest[i].ClaimDirect? && rest[i].id == id;
      assert ops[i + 1] == rest[i];
    }
  }

  lemma {:induction false} RunKeeps(f: Flow, ops: seq<Op>, direct: set<int>)
    requires Inv(f, direct) && DirectlyClaimed(ops) <= direct
    ensures Inv(Run(f, ops), direct)
    decreases |ops|
  {
    if ops != [] {
      DirectlyClaimedRest(ops);
      StepKeeps(f, ops[0], direct);
      RunKeeps(Apply(f, ops[0]), ops[1..], direct);
    }
  }

  lemma {:induction false} RunGrows(f: Flow, ops: seq<Op>)
    requires Linked(f.w)
    ensures Grows(f.w, Run(f, ops).w)
    decreases |ops|
  {
    if ops != [] {
      StepKeepsLinks(f, ops[0]);
      StepGrows(f, ops[0]);
      RunGrows(Apply(f, ops[0]), ops[1..]);
    }
  }

  const EMPTY := Flow(World(map[], map[]), {})

  /** Whatever is done to empty tables, a started job that no ungated claim of the run names had every
      dependency achieved. */
  lemma StartedMeansAchieved(ops: seq<Op>, id: int)
    requires id in Run(EMPTY, ops).w.jobs && Run(EMPTY, ops).w.jobs[id].started && id !in DirectlyClaimed(ops)
    ensures AllAchieved(Run(EMPTY, ops).w, Run(EMPTY, ops).w.jobs[id].deps)
  {
    RunKeeps(EMPTY, ops, DirectlyClaimed(ops));
    assert JobGood(Run(EMPTY, ops), id, DirectlyClaimed(ops));
  }

  // ---------------------------------------------------------------------------------
  // Chains
  // ---------------------------------------------------------------------------------

  /** The jobs of a workflow are in the table with the dependencies they were built with. */
  ghost predicate Enqueued(w: World, layers: seq<seq<Canvas.Node>>) {
    forall k, i :: 0 <= k < |layers| && 0 <= i < |layers[k]| ==>
      layers[k][i].id in w.jobs && w.jobs[layers[k][i].id].deps == layers[k][i].deps
  }

  /** No job of the steps after `m` up to `k`, and no retry of one, is in `direct`. */
  ghost predicate NoneDirect(w: World, layers: seq<seq<Canvas.Node>>, m: int, k: int, direct: set<int>)
    requires 0 <= m && k < |layers|
  {
    forall j, i, s, hops :: m < j <= k && 0 <= i < |layers[j]| && Descends(w, layers[j][i].id, s, hops) ==> s !in direct
  }

  /** A retry carries the dependencies of the job it retries. */
  lemma {:induction false} DescendantHasSameDeps(f: Flow, a: int, s: int, hops: nat, direct: set<int>)
    requires Inv(f, direct) && a in f.w.jobs && Descends(f.w, a, s, hops)
    ensures f.w.jobs[s].deps == f.w.jobs[a].deps
    decreases hops
  {
    assert JobGood(f, s, direct);
    if hops > 0 {
      DescendantHasSameDeps(f, a, f.w.jobs[s].parent.value, hops - 1, direct);
    }
  }

  /** A job of layer `k` or a retry of it, once started, has every job of every earlier layer
      behind it. */
  lemma {:induction false} StartedAfterEarlierSteps(f: Flow, direct: set<int>, steps: seq<Canvas.Step>, layers: seq<seq<Canvas.Node>>,
                                                    k: int, b: int, x: int, hops: nat, m: int, a: int)
    requires Inv(f, direct) && Canvas.Built(steps, layers) && Enqueued(f.w, layers)
    requires 0 <= m < k < |steps| && 0 <= a < |layers[m]| && 0 <= b < |layers[k]|
    requires Canvas.NoEmptyGroupBetween(steps, m, k) && NoneDirect(f.w, layers, m, k, direct)
    requires Descends(f.w, layers[k][b].id, x, hops) && f.w.jobs[x].started
    ensures Achieved(f.w, layers[m][a].id)
    decreases k
  {
    var c := if m == k - 1 then a else 0;
    assert Canvas.LayerFollows(steps, layers, k - 1);
    Canvas.DependsOnLayerBefore(steps, layers, k, b, c);
    var d := layers[k - 1][c].id;
    DescendantHasSameDeps(f, layers[k][b].id, x, hops, direct);
    assert JobGood(f, x, direct) && d in f.w.jobs[x].deps;
    if m < k - 1 {
      var s, h :| Descends(f.w, d, s, h) && f.w.jobs[s].completed;
      assert JobGood(f, s, direct);
      assert NoneDirect(f.w, layers, m, k - 1, direct);
      StartedAfterEarlierSteps(f, direct, steps, layers, k - 1, c, s, h, m, a);
    }
  }

  /** Over every run whose ungated claims name no job of the steps after `m` up to `k` and no retry of
      one: a job of step `k`, or a retry of it, has started only if every job of step `m` was
      achieved before. */
  lemma ChainRunsInOrder(f: Flow, ops: seq<Op>, direct: set<int>, steps: seq<Canvas.Step>, layers: seq<seq<Canvas.Node>>,
                         k: int, b: int, x: int, hops: nat, m: int, a: int)
    requires Inv(f, direct) && DirectlyClaimed(ops) <= direct && Canvas.Built(steps, layers) && Enqueued(f.w, layers)
    requires 0 <= m < k < |steps| && 0 <= a < |layers[m]| && 0 <= b < |layers[k]|
    requires Canvas.NoEmptyGroupBetween(steps, m, k) && NoneDirect(Run(f, ops).w, layers, m, k, direct)
    requires Descends(Run(f, ops).w, layers[k][b].id, x, hops) && Run(f, ops).w.jobs[x].started
    ensures Achieved(Run(f, ops).w, layers[m][a].id)
  {
    RunGrows(f, ops);
    RunKeeps(f, ops, direct);
    var f' := Run(f, ops);
    assert Enqueued(f'.w, layers);
    StartedAfterEarlierSteps(f', direct, steps, layers, k, b, x, hops, m, a);
  }

  // ---------------------------------------------------------------------------------
  // The ungated claim jumps the queue
  // ---------------------------------------------------------------------------------

  /** A claim does not achieve anything. */
  lemma {:induction false} ClaimAchievesNothing(f: Flow, id: int, a: int, s: int, hops: nat)
    requires Linked(f.w) && Descends(Apply(f, ClaimDirect(id)).w, a, s, hops)
    ensures Descends(f.w, a, s, hops) && Apply(f, ClaimDirect(id)).w.jobs[s].completed == f.w.jobs[s].completed
    decreases hops
  {
    if hops > 0 {
      ClaimAchievesNothing(f, id, a, Apply(f, ClaimDirect(id)).w.jobs[s].parent.value, hops - 1);
    }
  }

  /** In every state, a waiting job of any step is started by one ungated claim, however many jobs of earlier
      steps have not been achieved. */
  lemma UngatedClaimJumps(f: Flow, layers: seq<seq<Canvas.Node>>, k: int, b: int, m: int, a: int)
    requires Linked(f.w) && Enqueued(f.w, layers) && 0 <= m < k < |layers| && 0 <= a < |layers[m]| && 0 <= b < |layers[k]|
    requires f.w.jobs[layers[k][b].id].status == Queued && !Achieved(f.w, layers[m][a].id)
    ensures var w' := Run(f, [ClaimDirect(layers[k][b].id)]).w;
            layers[k][b].id in w'.jobs && w'.jobs[layers[k][b].id].started && !Achieved(w', layers[m][a].id)
  {
    var id, first := layers[k][b].id, layers[m][a].id;
    var f' := Apply(f, ClaimDirect(id));
    StepKeepsLinks(f, ClaimDirect(id));
    assert [ClaimDirect(id)][1..] == [];
    assert Run(f, [ClaimDirect(id)]) == Run(f', []);
    forall s, hops | Descends(f'.w, first, s, hops) ensures !f'.w.jobs[s].completed {
      ClaimAchievesNothing(f, id, first, s, hops);
    }
  }

  /** From empty tables: the second job of a chain is enqueued after the first, waits for it, and starts
      although nobody has claimed the first. */
  lemma SecondStepCanStartFirst(first: int, second: int)
    requires first != second
    ensures var w := Run(EMPTY, [Enqueue(first, []), Enqueue(second, [first]), ClaimDirect(second)]).w;
            && first in w.jobs && !w.jobs[first].started && !Achieved(w, first)
            && second in w.jobs && w.jobs[second].deps == [first] && w.jobs[second].started
  {
    var ops := [Enqueue(first, []), Enqueue(second, [first]), ClaimDirect(second)];
    var f1 := Apply(EMPTY, ops[0]);
    var f2 := Apply(f1, ops[1]);
    var f3 := Apply(f2, ops[2]);
    assert Run(EMPTY, ops) == Run(f1, ops[1..]) && ops[1..][0] == ops[1];
    assert Run(f1, ops[1..]) == Run(f2, ops[1..][1..]) && ops[1..][1..][0] == ops[2];
    assert Run(f2, ops[1..][1..]) == Run(f3, ops[1..][1..][1..]) && ops[1..][1..][1..] == [];
    forall s, hops | Descends(f3.w, first, s, hops) ensures !f3.w.jobs[s].completed {
      assert s == first || s == second;
    }
  }

  // ---------------------------------------------------------------------------------
  // A step that finally failed
  // ---------------------------------------------------------------------------------

  /** A job is finally failed when it and all its retries ended without success. */
  ghost predicate FinallyFailed(w: World, a: int) {
    a in w.jobs && forall s, hops :: Descends(w, a, s, hops) ==>
      !w.jobs[s].completed && (w.jobs[s].status == Failed || w.jobs[s].status == Archived)
  }

  /** No step of the run retries `a` or a retry of it. */
  ghost predicate RetriesNoneOf(f: Flow, ops: seq<Op>, a: int)
    requires Linked(f.w)
    decreases |ops|
  {
    ops != [] ==>
      && (ops[0].Retry? ==> forall hops :: !Descends(f.w, a, ops[0].failed, hops))
      && (StepKeepsLinks(f, ops[0]); RetriesNoneOf(Apply(f, ops[0]), ops[1..], a))
  }

  /** A step that retries nothing of `a` adds no job to its retry chain. */
  lemma {:induction false} DescendsBack(f: Flow, op: Op, a: int, s: int, hops: nat)
    requires Linked(f.w) && a in f.w.jobs
    requires op.Retry? ==> forall h :: !Descends(f.w, a, op.failed, h)
    requires Descends(Apply(f, op).w, a, s, hops)
    ensures Descends(f.w, a, s, hops)
    decreases hops
  {
    if hops > 0 {
      DescendsBack(f, op, a, Apply(f, op).w.jobs[s].parent.value, hops - 1);
    }
  }

  lemma StepKeepsFinallyFailed(f: Flow, op: Op, a: int)
    requires Linked(f.w) && FinallyFailed(f.w, a)
    requires op.Retry? ==> forall hops :: !Descends(f.w, a, op.failed, hops)
    ensures FinallyFailed(Apply(f, op).w, a)
  {
    var w' := Apply(f, op).w;
    StepGrows(f, op);
    forall s, hops | Descends(w', a, s, hops)
      ensures !w'.jobs[s].completed && (w'.jobs[s].status == Failed || w'.jobs[s].status == Archived)
    {
      DescendsBack(f, op, a, s, hops);
      if op.Cascade? && Enabled(f, op) && op.ancestor == s {
        DescendsThrough(f.w, a, s, hops, op.id, op.hops);
      }
    }
  }

  lemma {:induction false} DescendsThrough(w: World, a: int, s: int, hops: nat, t: int, more: nat)
    requires Descends(w, a, s, hops) && Descends(w, s, t, more)
    ensures Descends(w, a, t, hops + more)
    decreases more
  {
    if more > 0 {
      DescendsThrough(w, a, s, hops, w.jobs[t].parent.value, more - 1);
    }
  }

  lemma {:induction false} RunKeepsFinallyFailed(f: Flow, ops: seq<Op>, a: int)
    requires Linked(f.w) && FinallyFailed(f.w, a) && RetriesNoneOf(f, ops, a)
    ensures FinallyFailed(Run(f, ops).w, a)
    decreases |ops|
  {
    if ops != [] {
      StepKeepsLinks(f, ops[0]);
      StepKeepsFinallyFailed(f, ops[0], a);
      RunKeepsFinallyFailed(Apply(f, ops[0]), ops[1..], a);
    }
  }

  /** A finally failed step stops the chain, in every run whose ungated claims name no later job: no job of
      a later step, and no retry of one, ever starts. */
  lemma FailedStepStopsChain(f: Flow, ops: seq<Op>, direct: set<int>, steps: seq<Canvas.Step>, layers: seq<seq<Canvas.Node>>,
                             k: int, b: int, x: int, hops: nat, m: int, a: int)
    requires Inv(f, direct) && DirectlyClaimed(ops) <= direct && Canvas.Built(steps, layers) && Enqueued(f.w, layers)
    requires 0 <= m < k < |steps| && 0 <= a < |layers[m]| && 0 <= b < |layers[k]|
    requires Canvas.NoEmptyGroupBetween(steps, m, k) && NoneDirect(Run(f, ops).w, layers, m, k, direct)
    requires FinallyFailed(f.w, layers[m][a].id) && RetriesNoneOf(f, ops, layers[m][a].id)
    requires Descends(Run(f, ops).w, layers[k][b].id, x, hops)
    ensures !Run(f, ops).w.jobs[x].started
  {
    RunKeepsFinallyFailed(f, ops, layers[m][a].id);
    if Run(f, ops).w.jobs[x].started {
      ChainRunsInOrder(f, ops, direct, steps, layers, k, b, x, hops, m, a);
    }
  }

  // ---------------------------------------------------------------------------------
  // What outcomes mean for the dependents
  // ---------------------------------------------------------------------------------

  lemma SingleEnd(w: World, d: int)
    requires Linked(w) && d in w.jobs && d !in w.retry
    ensures forall e :: EndsAt(w, d, e, 1000) <==> e == d
  {
    assert RetryPath(w, [d]) && [d][0] == d;
    var hops := MAX_CHAIN_HOPS;
    forall e ensures EndsAt(w, d, e, hops) <==> e == d {
      EndIsUnique(w, d, e, hops);
      EndIsUnique(w, d, d, hops);
    }
  }

  lemma VerdictOnOne(w: World, d: int)
    requires Linked(w) && d in w.jobs && d !in w.retry
    ensures StateOf(w, [d]) == (if w.jobs[d].status == Success then Met
                                else if w.jobs[d].status == Failed && !w.jobs[d].retryPending then FailedDeps else Pending)
  {
    SingleEnd(w, d);
    VerdictMeans(w, [d]);
    assert d in [d];
    if w.jobs[d].status == Failed && !w.jobs[d].retryPending {
      assert Dooms(w, d, d);
    }
  }

  /** The job waiting for a running job without a retry: may run once that one completes, fails once it fails for
      good, and goes on waiting while its retry is owed, and while the retry has not ended. */
  lemma OutcomeDecidesDependents(f: Flow, id: int, child: int)
    requires Linked(f.w) && id in f.w.jobs && f.w.jobs[id].status == Running && id !in f.w.retry && child !in f.w.jobs && child !in f.w.retry
    ensures StateOf(f.w, [id]) == Pending
    ensures StateOf(Apply(f, Complete(id)).w, [id]) == Met
    ensures StateOf(Apply(f, Fail(id, false)).w, [id]) == FailedDeps
    ensures StateOf(Apply(f, Fail(id, true)).w, [id]) == Pending
    ensures StateOf(Apply(Apply(f, Fail(id, true)), Retry(id, child)).w, [id]) == Pending
  {
    VerdictOnOne(f.w, id);
    VerdictOnOne(Apply(f, Complete(id)).w, id);
    VerdictOnOne(Apply(f, Fail(id, false)).w, id);
    VerdictOnOne(Apply(f, Fail(id, true)).w, id);
    RetriedWaits(Apply(f, Fail(id, true)), id, child);
  }

  lemma RetriedWaits(f: Flow, id: int, child: int)
    requires Linked(f.w) && id in f.w.jobs && f.w.jobs[id].status == Failed && child !in f.w.jobs && child !in f.w.retry
    ensures StateOf(Apply(f, Retry(id, child)).w, [id]) == Pending
  {
    var w := Apply(f, Retry(id, child)).w;
    assert w.retry[id] == child && w.jobs[child].status == Queued;
    var p, hops := [id, child], MAX_CHAIN_HOPS;
    assert RetryPath(w, p) && p[0] == id && p[|p| - 1] == child;
    forall e ensures EndsAt(w, id, e, hops) <==> e == child {
      PathLeadsToEnd(w, p, hops);
      EndIsUnique(w, id, e, hops);
    }
    VerdictMeans(w, [id]);
    assert id in [id];
  }

  /** No retry of the job is owed: an attempt in its chain that was not retried failed for good. */
  ghost predicate NothingOwed(w: World, a: int) {
    forall s, hops :: Descends(w, a, s, hops) && s !in w.retry ==> w.jobs[s].status == Failed && !w.jobs[s].retryPending
  }

  /** What a step leaves of a job that is finally failed, owes nothing and is not retried. */
  lemma StepKeepsNothingOwed(f: Flow, op: Op, a: int)
    requires Linked(f.w) && FinallyFailed(f.w, a) && NothingOwed(f.w, a)
    requires op.Retry? ==> forall hops :: !Descends(f.w, a, op.failed, hops)
    ensures NothingOwed(Apply(f, op).w, a)
  {
    var w' := Apply(f, op).w;
    forall s, hops | Descends(w', a, s, hops) && s !in w'.retry ensures w'.jobs[s].status == Failed && !w'.jobs[s].retryPending {
      DescendsBack(f, op, a, s, hops);
      if op.Cascade? && Enabled(f, op) && op.ancestor == s {
        DescendsThrough(f.w, a, s, hops, op.id, op.hops);
      }
    }
  }

  lemma StepKeepsPath(f: Flow, op: Op, a: int, p: seq<int>)
    requires Linked(f.w) && FinallyFailed(f.w, a) && RetryPath(f.w, p) && p[0] == a
    requires op.Retry? ==> forall hops :: !Descends(f.w, a, op.failed, hops)
    ensures RetryPath(Apply(f, op).w, p) && (p[|p| - 1] !in f.w.retry ==> p[|p| - 1] !in Apply(f, op).w.retry)
  {
    var w' := Apply(f, op).w;
    StepKeepsFinallyFailed(f, op, a);
    StepGrows(f, op);
    forall i | 0 <= i < |p| ensures Descends(f.w, a, p[i], i) && Descends(w', a, p[i], i) {
      PathDescends(f.w, p, i);
      DescendsGrows(f.w, w', a, p[i], i);
    }
  }

  lemma {:induction false} PathDescends(w: World, p: seq<int>, i: nat)
    requires Linked(w) && RetryPath(w, p) && i < |p|
    ensures Descends(w, p[0], p[i], i)
    decreases i
  {
    if i > 0 {
      PathDescends(w, p, i - 1);
      assert w.retry[p[i - 1]] == p[i];
    }
  }

  lemma {:induction false} RunKeepsPath(f: Flow, ops: seq<Op>, a: int, p: seq<int>)
    requires Linked(f.w) && FinallyFailed(f.w, a) && NothingOwed(f.w, a) && RetriesNoneOf(f, ops, a)
    requires RetryPath(f.w, p) && p[0] == a && p[|p| - 1] !in f.w.retry
    ensures var w' := Run(f, ops).w;
            FinallyFailed(w', a) && NothingOwed(w', a) && RetryPath(w', p) && p[|p| - 1] !in w'.retry
    decreases |ops|
  {
    if ops != [] {
      StepKeepsLinks(f, ops[0]);
      StepKeepsFinallyFailed(f, ops[0], a);
      StepKeepsNothingOwed(f, ops[0], a);
      StepKeepsPath(f, ops[0], a, p);
      RunKeepsPath(Apply(f, ops[0]), ops[1..], a, p);
    }
  }

  /** A dependency that is finally failed and owes no retry fails every job that depends on it, at every later moment of
      a run that does not retry it, if its chain is within the hops that are followed. */
  lemma FinallyFailedFailsDependents(f: Flow, ops: seq<Op>, a: int, p: seq<int>, deps: seq<int>)
    requires Linked(f.w) && FinallyFailed(f.w, a) && NothingOwed(f.w, a) && RetriesNoneOf(f, ops, a) && a in deps
    requires RetryPath(f.w, p) && p[0] == a && p[|p| - 1] !in f.w.retry && |p| <= 1001
    ensures StateOf(Run(f, ops).w, deps) == FailedDeps
  {
    RunKeepsPath(f, ops, a, p);
    var w, e := Run(f, ops).w, p[|p| - 1];
    PathDescends(w, p, |p| - 1);
    assert EndsAt(w, a, e, 1000);
    assert Dooms(w, a, e);
    VerdictMeans(w, deps);
  }
}
