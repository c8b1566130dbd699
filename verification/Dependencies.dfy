/** The dependency judgement of core/ready.py: a job's dependencies are judged by the newest
    attempt in their retry chains. */
module Dependencies {

  datatype Option<T> = None | Some(value: T)

  datatype Status = Queued | Running | Success | Failed | Archived

  /** A job as the union view shows it; `parent` is the job it retries, `started` that some worker
      claimed it, `completed` that a worker reported its success. */
  datatype Job = Job(status: Status, retryPending: bool, deps: seq<int>, parent: Option<int>, started: bool, completed: bool)

  /** All jobs, live or finished, and the newest retry child of each. */
  datatype World = World(jobs: map<int, Job>, retry: map<int, int>)

  /** A retry child is a job whose parent is the job it retries. */
  predicate Linked(w: World) {
    forall id :: id in w.retry ==> w.retry[id] in w.jobs && w.jobs[w.retry[id]].parent == Some(id)
  }

  const MAX_CHAIN_HOPS := 1000

  datatype State = Met | Pending | FailedDeps
  datatype Verdict = Verdict(state: State, failed: seq<int>)

  // ---------------------------------------------------------------------------------
  // Dependency ids
  // ---------------------------------------------------------------------------------

  /** Entry `a` is met before any entry `b`. */
  ghost predicate SeenBefore(raw: seq<Option<int>>, a: int, b: int) {
    exists k :: 0 <= k < |raw| && raw[k] == Some(a) && Some(b) !in raw[..k]
  }

  ghost predicate InOrderOfFirstAppearance(raw: seq<Option<int>>, ids: seq<int>) {
    forall i, j :: 0 <= i < j < |ids| ==> SeenBefore(raw, ids[i], ids[j])
  }

  lemma SeenBeforeExtends(raw: seq<Option<int>>, n: nat, a: int, b: int)
    requires n < |raw| && SeenBefore(raw[..n], a, b)
    ensures SeenBefore(raw[..n + 1], a, b)
  {
    var k :| 0 <= k < n && raw[..n][k] == Some(a) && Some(b) !in raw[..n][..k];
    assert raw[..n][..k] == raw[..n + 1][..k];
    assert raw[..n + 1][k] == Some(a);
  }

  lemma FirstSeenMonotone(raw: seq<Option<int>>, n: nat, ids: seq<int>)
    requires n < |raw| && InOrderOfFirstAppearance(raw[..n], ids)
    ensures InOrderOfFirstAppearance(raw[..n + 1], ids)
  {
    forall i, j | 0 <= i < j < |ids| ensures SeenBefore(raw[..n + 1], ids[i], ids[j]) {
      SeenBeforeExtends(raw, n, ids[i], ids[j]);
    }
  }

  lemma FirstSeenExtends(raw: seq<Option<int>>, n: nat, ids: seq<int>, x: int)
    requires n < |raw| && InOrderOfFirstAppearance(raw[..n], ids)
    requires forall d :: d in ids <==> Some(d) in raw[..n]
    requires raw[n] == Some(x) && x !in ids
    ensures InOrderOfFirstAppearance(raw[..n + 1], ids + [x])
  {
    assert Some(x) !in raw[..n];
    FirstSeenMonotone(raw, n, ids);
    forall i | 0 <= i < |ids| ensures SeenBefore(raw[..n + 1], ids[i], x) {
      assert ids[i] in ids;
      var k :| 0 <= k < n && raw[..n][k] == Some(ids[i]);
      assert raw[..n + 1][..k] == raw[..n][..k];
      assert raw[..n + 1][k] == Some(ids[i]);
    }
  }

  /** `dependency_ids`: the entries that are integers, each once, in order of first appearance
      (`None` stands for an entry that is not an integer). */
  method DependencyIds(raw: seq<Option<int>>) returns (ids: seq<int>)
    ensures forall d :: d in ids <==> Some(d) in raw
    ensures forall i, j :: 0 <= i < j < |ids| ==> ids[i] != ids[j]
    ensures InOrderOfFirstAppearance(raw, ids)
  {
    ids := [];
    for n := 0 to |raw|
      invariant forall d :: d in ids <==> Some(d) in raw[..n]
      invariant forall i, j :: 0 <= i < j < |ids| ==> ids[i] != ids[j]
      invariant InOrderOfFirstAppearance(raw[..n], ids)
    {
      assert raw[..n + 1] == raw[..n] + [raw[n]];
      match raw[n] {
        case None => FirstSeenMonotone(raw, n, ids);
        case Some(dep) =>
          if dep !in ids {
            FirstSeenExtends(raw, n, ids, dep);
            ids := ids + [dep];
          } else {
            FirstSeenMonotone(raw, n, ids);
          }
      }
    }
    assert raw[..|raw|] == raw;
  }

  // ---------------------------------------------------------------------------------
  // The fate of one dependency
  // ---------------------------------------------------------------------------------

  predicate Superseded(w: World, id: int) {
    id in w.jobs && (w.jobs[id].status == Failed || w.jobs[id].status == Archived) && id in w.retry
  }

  /** The job that speaks for a dependency: follow the newest retry while it failed or was
      archived, for at most `hops` steps. */
  function ChainEnd(w: World, id: int, hops: nat): (e: int)
    requires Linked(w) && id in w.jobs
    ensures e in w.jobs
    decreases hops
  {
    if hops == 0 || !Superseded(w, id) then id else ChainEnd(w, w.retry[id], hops - 1)
  }

  datatype Fate = Satisfied | Waiting | Doomed(id: int)

  function FateOf(w: World, dep: int): Fate
    requires Linked(w)
  {
    if dep !in w.jobs then Doomed(dep)
    else
      var e := ChainEnd(w, dep, MAX_CHAIN_HOPS);
      var job := w.jobs[e];
      if job.status == Success then Satisfied
      else if job.status == Failed && !job.retryPending then Doomed(e)
      else Waiting
  }

  function DoomedOf(w: World, deps: seq<int>): seq<int>
    requires Linked(w)
  {
    if deps == [] then []
    else
      var init := DoomedOf(w, deps[..|deps| - 1]);
      match FateOf(w, deps[|deps| - 1])
      case Doomed(id) => init + [id]
      case _ => init
  }

  /** The verdict, stated over the dependencies as a set. */
  function StateOf(w: World, deps: seq<int>): State
    requires Linked(w)
  {
    if exists i :: 0 <= i < |deps| && FateOf(w, deps[i]).Doomed? then FailedDeps
    else if exists i :: 0 <= i < |deps| && FateOf(w, deps[i]).Waiting? then Pending
    else Met
  }

  lemma {:induction false} DoomedIff(w: World, deps: seq<int>)
    requires Linked(w)
    ensures DoomedOf(w, deps) != [] <==> exists i :: 0 <= i < |deps| && FateOf(w, deps[i]).Doomed?
  {
    if deps != [] {
      var n := |deps| - 1;
      var init := deps[..n];
      DoomedIff(w, init);
      if i :| 0 <= i < |init| && FateOf(w, init[i]).Doomed? {
        assert FateOf(w, deps[i]).Doomed?;
      }
      if i :| 0 <= i < |deps| && FateOf(w, deps[i]).Doomed? && i < n {
        assert FateOf(w, init[i]).Doomed?;
      }
    }
  }

  // ---------------------------------------------------------------------------------
  // The verdict in terms of the jobs
  // ---------------------------------------------------------------------------------

  /** A retry chain: each job but the last failed or was archived, and is followed by its newest retry. */
  ghost predicate RetryPath(w: World, p: seq<int>) {
    && p != [] && (forall i :: 0 <= i < |p| ==> p[i] in w.jobs)
    && forall i :: 0 <= i < |p| - 1 ==>
         (w.jobs[p[i]].status == Failed || w.jobs[p[i]].status == Archived) && p[i] in w.retry && w.retry[p[i]] == p[i + 1]
  }

  /** The job at which a retry chain ends: it did not fail and was not archived, or has no retry, or lies at the
      greatest number of hops followed. */
  ghost predicate EndsAt(w: World, dep: int, e: int, hops: nat) {
    exists p :: RetryPath(w, p) && p[0] == dep && p[|p| - 1] == e && |p| <= hops + 1 &&
      (|p| == hops + 1 || !(w.jobs[e].status == Failed || w.jobs[e].status == Archived) || e !in w.retry)
  }

  lemma {:induction false} ChainEndEnds(w: World, dep: int, hops: nat)
    requires Linked(w) && dep in w.jobs
    ensures EndsAt(w, dep, ChainEnd(w, dep, hops), hops)
    decreases hops
  {
    if hops == 0 || !Superseded(w, dep) {
      assert RetryPath(w, [dep]);
    } else {
      var next := w.retry[dep];
      ChainEndEnds(w, next, hops - 1);
      var e := ChainEnd(w, next, hops - 1);
      var p :| RetryPath(w, p) && p[0] == next && p[|p| - 1] == e && |p| <= hops &&
        (|p| == hops || !(w.jobs[e].status == Failed || w.jobs[e].status == Archived) || e !in w.retry);
      var q := [dep] + p;
      forall i | 0 <= i < |q| - 1
        ensures (w.jobs[q[i]].status == Failed || w.jobs[q[i]].status == Archived) && q[i] in w.retry && w.retry[q[i]] == q[i + 1]
      {
        if i > 0 { assert q[i] == p[i - 1] && q[i + 1] == p[i]; }
      }
      assert RetryPath(w, q) && q[0] == dep && q[|q| - 1] == e;
    }
  }

  lemma {:induction false} PathLeadsToEnd(w: World, p: seq<int>, hops: nat)
    requires Linked(w) && RetryPath(w, p) && |p| <= hops + 1
    requires var e := p[|p| - 1];
             |p| == hops + 1 || !(w.jobs[e].status == Failed || w.jobs[e].status == Archived) || e !in w.retry
    ensures ChainEnd(w, p[0], hops) == p[|p| - 1]
    decreases |p|
  {
    if |p| > 1 {
      var rest := p[1..];
      assert p[1] == w.retry[p[0]];
      forall i | 0 <= i < |rest| - 1
        ensures (w.jobs[rest[i]].status == Failed || w.jobs[rest[i]].status == Archived) && rest[i] in w.retry && w.retry[rest[i]] == rest[i + 1]
      {
        assert rest[i] == p[i + 1] && rest[i + 1] == p[i + 2];
      }
      PathLeadsToEnd(w, rest, hops - 1);
    }
  }

  /** Every dependency that exists has exactly one chain end. */
  lemma EndIsUnique(w: World, dep: int, e: int, hops: nat)
    requires Linked(w) && dep in w.jobs
    ensures EndsAt(w, dep, e, hops) <==> e == ChainEnd(w, dep, hops)
  {
    ChainEndEnds(w, dep, hops);
    if EndsAt(w, dep, e, hops) {
      var p :| RetryPath(w, p) && p[0] == dep && p[|p| - 1] == e && |p| <= hops + 1 &&
        (|p| == hops + 1 || !(w.jobs[e].status == Failed || w.jobs[e].status == Archived) || e !in w.retry);
      PathLeadsToEnd(w, p, hops);
    }
  }

  /** The job `x` dooms a dependency: the dependency itself if it does not exist, else the end of its chain if that
      failed and no retry of it is owed. */
  ghost predicate Dooms(w: World, dep: int, x: int) {
    if dep !in w.jobs then x == dep
    else EndsAt(w, dep, x, 1000) && x in w.jobs && w.jobs[x].status == Failed && !w.jobs[x].retryPending
  }

  /** The dependency has succeeded: the end of its chain has. */
  ghost predicate Succeeded(w: World, dep: int) {
    dep in w.jobs && exists e :: EndsAt(w, dep, e, 1000) && e in w.jobs && w.jobs[e].status == Success
  }

  lemma FateMeans(w: World, dep: int)
    requires Linked(w)
    ensures forall x :: FateOf(w, dep) == Doomed(x) <==> Dooms(w, dep, x)
    ensures FateOf(w, dep) == Satisfied <==> Succeeded(w, dep)
  {
    if dep in w.jobs {
      var hops := MAX_CHAIN_HOPS;
      forall x ensures EndsAt(w, dep, x, hops) <==> x == ChainEnd(w, dep, hops) {
        EndIsUnique(w, dep, x, hops);
      }
    }
  }

  /** The verdict: failed if and only if something dooms a dependency; met if and only if every one succeeded; and
      pending otherwise. */
  lemma VerdictMeans(w: World, deps: seq<int>)
    requires Linked(w)
    ensures StateOf(w, deps) == FailedDeps <==> exists d, x :: d in deps && Dooms(w, d, x)
    ensures StateOf(w, deps) == Met <==> forall d :: d in deps ==> Succeeded(w, d)
  {
    forall d ensures FateOf(w, d).Doomed? <==> exists x :: Dooms(w, d, x) {
      FateMeans(w, d);
      if FateOf(w, d).Doomed? { assert Dooms(w, d, FateOf(w, d).id); }
    }
    forall d ensures FateOf(w, d) == Satisfied <==> Succeeded(w, d) { FateMeans(w, d); }
    if i :| 0 <= i < |deps| && FateOf(w, deps[i]).Doomed? {
      assert deps[i] in deps;
    }
    if d, x :| d in deps && Dooms(w, d, x) {
      var i :| 0 <= i < |deps| && deps[i] == d;
      assert FateOf(w, deps[i]).Doomed?;
    }
    if StateOf(w, deps) == Met {
      forall d | d in deps ensures Succeeded(w, d) {
        var i :| 0 <= i < |deps| && deps[i] == d;
        assert !FateOf(w, deps[i]).Doomed? && !FateOf(w, deps[i]).Waiting?;
      }
    }
    if forall d :: d in deps ==> Succeeded(w, d) {
      forall i | 0 <= i < |deps| ensures FateOf(w, deps[i]) == Satisfied {
        assert deps[i] in deps;
      }
    }
  }

  /** The ids listed as failed are exactly those that doom a dependency. */
  lemma {:induction false} DoomedMeans(w: World, deps: seq<int>, x: int)
    requires Linked(w)
    ensures x in DoomedOf(w, deps) <==> exists d :: d in deps && Dooms(w, d, x)
  {
    if deps != [] {
      var n := |deps| - 1;
      var init, last := deps[..n], deps[n];
      DoomedMeans(w, init, x);
      FateMeans(w, last);
      assert forall d :: d in deps <==> d in init || d == last;
    }
  }

  /** `judge_dependencies`: two nested loops over the dependencies and the hops of each chain. A missing dependency, or
      one whose chain ends in a failure that owes no retry, fails the job; the job runs if every one succeeded. */
  method JudgeDependencies(w: World, deps: seq<int>) returns (v: Verdict)
    requires Linked(w)
    ensures v.state == StateOf(w, deps) && v.failed == DoomedOf(w, deps)
    ensures v.state == FailedDeps <==> exists d, x :: d in deps && Dooms(w, d, x)
    ensures v.state == Met <==> forall d :: d in deps ==> Succeeded(w, d)
    ensures forall x :: x in v.failed <==> exists d :: d in deps && Dooms(w, d, x)
  {
    var failed: seq<int> := [];
    var pending := false;
    for i := 0 to |deps|
      invariant failed == DoomedOf(w, deps[..i])
      invariant pending <==> exists k :: 0 <= k < i && FateOf(w, deps[k]).Waiting?
    {
      assert deps[..i + 1][..i] == deps[..i];
      var depId := deps[i];
      if depId !in w.jobs {
        failed := failed + [depId];
        continue;
      }
      var dep := depId;
      var hops := 0;
      while Superseded(w, dep) && hops < MAX_CHAIN_HOPS
        invariant dep in w.jobs && 0 <= hops <= MAX_CHAIN_HOPS
        invariant ChainEnd(w, dep, MAX_CHAIN_HOPS - hops) == ChainEnd(w, depId, MAX_CHAIN_HOPS)
      {
        dep, hops := w.retry[dep], hops + 1;
      }
      var job := w.jobs[dep];
      if job.status == Success {
        continue;
      }
      if job.status == Failed {
        if job.retryPending {
          pending := true;
        } else {
          failed := failed + [dep];
        }
        continue;
      }
      pending := true;
    }
    assert deps[..|deps|] == deps;
    DoomedIff(w, deps);
    VerdictMeans(w, deps);
    forall x ensures x in DoomedOf(w, deps) <==> exists d :: d in deps && Dooms(w, d, x) {
      DoomedMeans(w, deps, x);
    }
    if failed != [] {
      return Verdict(FailedDeps, failed);
    }
    return Verdict(if pending then Pending else Met, failed);
  }

  /** The verdict does not depend on the order of the dependencies or on repetitions. */
  lemma VerdictIgnoresOrder(w: World, a: seq<int>, b: seq<int>)
    requires Linked(w) && forall d :: d in a <==> d in b
    ensures StateOf(w, a) == StateOf(w, b)
  {
    SameFates(w, a, b);
    SameFates(w, b, a);
  }

  lemma SameFates(w: World, a: seq<int>, b: seq<int>)
    requires Linked(w) && forall d :: d in a ==> d in b
    ensures (exists i :: 0 <= i < |a| && FateOf(w, a[i]).Doomed?) ==> exists j :: 0 <= j < |b| && FateOf(w, b[j]).Doomed?
    ensures (exists i :: 0 <= i < |a| && FateOf(w, a[i]).Waiting?) ==> exists j :: 0 <= j < |b| && FateOf(w, b[j]).Waiting?
  {
    if i :| 0 <= i < |a| && FateOf(w, a[i]).Doomed? {
      assert a[i] in b;
      var j :| 0 <= j < |b| && b[j] == a[i];
      assert FateOf(w, b[j]).Doomed?;
    }
    if i :| 0 <= i < |a| && FateOf(w, a[i]).Waiting? {
      assert a[i] in b;
      var j :| 0 <= j < |b| && b[j] == a[i];
      assert FateOf(w, b[j]).Waiting?;
    }
  }
}
