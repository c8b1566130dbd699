/** The claim scan of core/claiming.py: pages of candidates, each tried in order under tag locks,
    tag limits, dependency state and the atomic claim, until one is claimed or none is left. */
module ClaimScan {

  datatype Option<T> = None | Some(value: T)

  type Tag = string
  datatype Job = Job(id: int, tags: seq<Tag>)
  datatype DependencyState = Met | Pending | DependencyFailed | LostRace

  /** At most `count` starts per `window`; `BadRate` is a setting that does not parse. */
  datatype RateSetting = RateSetting(count: int, window: int) | BadRate

  datatype Limits = Limits(concurrency: map<Tag, int>, rates: map<Tag, RateSetting>)

  /** The answers of the backend, held fixed during one scan. `order` is the ready queue in claim
      order; a job with entries in several slots appears several times. */
  datatype Backend = Backend(
    order: seq<Job>,
    lockable: Tag -> bool,
    running: Tag -> int,
    startedWithin: (Tag, int) -> int,
    dependencies: Job -> DependencyState,
    claimable: Job -> bool)

  /** Rows of one job are the same row. */
  ghost predicate Consistent(b: Backend) {
    forall i, j :: 0 <= i < |b.order| && 0 <= j < |b.order| && b.order[i].id == b.order[j].id ==> b.order[i] == b.order[j]
  }

  // ---------------------------------------------------------------------------------
  // What it means for a candidate to pass
  // ---------------------------------------------------------------------------------

  predicate LocksHeld(job: Job, l: Limits, b: Backend) {
    forall i :: 0 <= i < |job.tags| && (job.tags[i] in l.rates || job.tags[i] in l.concurrency) ==> b.lockable(job.tags[i])
  }

  predicate UnderConcurrency(tag: Tag, l: Limits, b: Backend) {
    tag in l.concurrency ==> b.running(tag) < l.concurrency[tag]
  }

  predicate UnderRate(tag: Tag, l: Limits, b: Backend) {
    tag in l.rates && l.rates[tag].RateSetting? ==> b.startedWithin(tag, l.rates[tag].window) < l.rates[tag].count
  }

  predicate TagsAllow(job: Job, l: Limits, b: Backend) {
    && LocksHeld(job, l, b)
    && (forall i :: 0 <= i < |job.tags| ==> UnderConcurrency(job.tags[i], l, b))
    && (forall i :: 0 <= i < |job.tags| ==> UnderRate(job.tags[i], l, b))
  }

  predicate Passes(job: Job, l: Limits, b: Backend) {
    TagsAllow(job, l, b) && b.dependencies(job) == Met && b.claimable(job)
  }

  /** Passing, in full: the limited tags can be locked, each limited tag has room for one more running job and one more
      start in its window, the dependencies are met, and nobody else claims the job first. */
  lemma PassesMeans(job: Job, l: Limits, b: Backend)
    ensures Passes(job, l, b) <==>
      && (forall t :: t in job.tags && (t in l.concurrency || t in l.rates) ==> b.lockable(t))
      && (forall t :: t in job.tags && t in l.concurrency ==> b.running(t) < l.concurrency[t])
      && (forall t :: t in job.tags && t in l.rates && l.rates[t].RateSetting? ==> b.startedWithin(t, l.rates[t].window) < l.rates[t].count)
      && b.dependencies(job) == Met && b.claimable(job)
  {
    forall i | 0 <= i < |job.tags| ensures job.tags[i] in job.tags {}
    assert (forall i :: 0 <= i < |job.tags| ==> UnderConcurrency(job.tags[i], l, b)) <==>
           (forall t :: t in job.tags ==> UnderConcurrency(t, l, b));
    assert (forall i :: 0 <= i < |job.tags| ==> UnderRate(job.tags[i], l, b)) <==> (forall t :: t in job.tags ==> UnderRate(t, l, b));
  }

  /** A candidate that is moved to the blocked set when tried. */
  predicate Waits(job: Job, l: Limits, b: Backend) {
    TagsAllow(job, l, b) && b.dependencies(job) == Pending
  }

  /** The position of the first candidate that passes, or the length when none does. */
  function FirstPassing(jobs: seq<Job>, l: Limits, b: Backend): (k: nat)
    ensures k <= |jobs|
    ensures forall i :: 0 <= i < k ==> !Passes(jobs[i], l, b)
    ensures k < |jobs| ==> Passes(jobs[k], l, b)
  {
    if jobs == [] then 0
    else if Passes(jobs[0], l, b) then 0
    else 1 + FirstPassing(jobs[1..], l, b)
  }

  /** The first candidate that passes. */
  function Winner(jobs: seq<Job>, l: Limits, b: Backend): Option<Job> {
    if jobs == [] then None
    else if Passes(jobs[0], l, b) then Some(jobs[0])
    else Winner(jobs[1..], l, b)
  }

  lemma {:induction false} WinnerAt(jobs: seq<Job>, k: nat, l: Limits, b: Backend)
    requires k <= |jobs| && forall i :: 0 <= i < k ==> !Passes(jobs[i], l, b)
    requires k < |jobs| ==> Passes(jobs[k], l, b)
    ensures Winner(jobs, l, b) == if k < |jobs| then Some(jobs[k]) else None
    ensures FirstPassing(jobs, l, b) == k
  {
    if k > 0 {
      WinnerAt(jobs[1..], k - 1, l, b);
    }
  }

  // ---------------------------------------------------------------------------------
  // The tag checks
  // ---------------------------------------------------------------------------------

  method CheckTagConcurrency(job: Job, l: Limits, b: Backend) returns (ok: bool)
    ensures ok <==> forall i :: 0 <= i < |job.tags| ==> UnderConcurrency(job.tags[i], l, b)
    ensures ok <==> forall t :: t in job.tags && t in l.concurrency ==> b.running(t) < l.concurrency[t]
  {
    for i := 0 to |job.tags|
      invariant forall k :: 0 <= k < i ==> UnderConcurrency(job.tags[k], l, b)
    {
      var tag := job.tags[i];
      if tag in l.concurrency && b.running(tag) >= l.concurrency[tag] {
        return false;
      }
    }
    return true;
  }

  method CheckTagRates(job: Job, l: Limits, b: Backend) returns (ok: bool)
    ensures ok <==> forall i :: 0 <= i < |job.tags| ==> UnderRate(job.tags[i], l, b)
    ensures ok <==> forall t :: t in job.tags && t in l.rates && l.rates[t].RateSetting? ==>
                                b.startedWithin(t, l.rates[t].window) < l.rates[t].count
  {
    for i := 0 to |job.tags|
      invariant forall k :: 0 <= k < i ==> UnderRate(job.tags[k], l, b)
    {
      var tag := job.tags[i];
      if tag in l.rates && l.rates[tag].RateSetting? {
        if b.startedWithin(tag, l.rates[tag].window) >= l.rates[tag].count {
          return false;
        }
      }
    }
    return true;
  }

  method AcquireTagLocks(job: Job, l: Limits, b: Backend) returns (ok: bool)
    ensures ok <==> LocksHeld(job, l, b)
  {
    for i := 0 to |job.tags|
      invariant forall k :: 0 <= k < i && (job.tags[k] in l.rates || job.tags[k] in l.concurrency) ==> b.lockable(job.tags[k])
    {
      var tag := job.tags[i];
      if (tag in l.rates || tag in l.concurrency) && !b.lockable(tag) {
        return false;
      }
    }
    return true;
  }

  // ---------------------------------------------------------------------------------
  // The worker and the scan
  // ---------------------------------------------------------------------------------

  class Worker {
    var busy: bool
    var currentJob: Option<int>
  }

  /** The jobs among `jobs[..k]` that wait for a dependency. */
  ghost predicate Blocks(blocked: seq<int>, jobs: seq<Job>, k: nat, l: Limits, b: Backend)
    requires k <= |jobs|
  {
    forall id :: id in blocked <==> exists i :: 0 <= i < k && jobs[i].id == id && Waits(jobs[i], l, b)
  }

  /** `_claim_from_candidates`: the first candidate that passes every check; those met on the way
      that wait for a dependency are blocked; only a claim touches the worker. */
  method ClaimFromCandidates(candidates: seq<Job>, worker: Worker, l: Limits, b: Backend)
    returns (claimed: Option<Job>, blocked: seq<int>)
    modifies worker
    ensures claimed == Winner(candidates, l, b)
    ensures Blocks(blocked, candidates, FirstPassing(candidates, l, b), l, b)
    ensures claimed.Some? ==> worker.busy && worker.currentJob == Some(claimed.value.id)
    ensures claimed.None? ==> unchanged(worker)
  {
    blocked := [];
    for i := 0 to |candidates|
      invariant forall k :: 0 <= k < i ==> !Passes(candidates[k], l, b)
      invariant Blocks(blocked, candidates, i, l, b)
      invariant unchanged(worker)
    {
      var job := candidates[i];
      var locked := AcquireTagLocks(job, l, b);
      if !locked {
        continue;
      }
      var concurrency := CheckTagConcurrency(job, l, b);
      if !concurrency {
        continue;
      }
      var rates := CheckTagRates(job, l, b);
      if !rates {
        continue;
      }
      var state := b.dependencies(job);
      if state == Pending {
        blocked := blocked + [job.id];
        continue;
      }
      if state != Met || !b.claimable(job) {
        continue;
      }
      worker.busy := true;
      worker.currentJob := Some(job.id);
      WinnerAt(candidates, i, l, b);
      return Some(job), blocked;
    }
    WinnerAt(candidates, |candidates|, l, b);
    return None, blocked;
  }

  /** The ready queue without the ids already inspected. */
  function Remaining(order: seq<Job>, seen: seq<int>): seq<Job> {
    if order == [] then []
    else if order[0].id in seen then Remaining(order[1..], seen)
    else [order[0]] + Remaining(order[1..], seen)
  }

  lemma {:induction false} RemainingMembers(order: seq<Job>, seen: seq<int>, j: Job)
    ensures j in Remaining(order, seen) <==> j in order && j.id !in seen
  {
    if order != [] {
      assert order == [order[0]] + order[1..];
      RemainingMembers(order[1..], seen, j);
    }
  }

  /** `get_claimable_jobs(limit, exclude_ids)`. */
  function Page(order: seq<Job>, limit: nat, seen: seq<int>): seq<Job> {
    var r := Remaining(order, seen);
    if |r| <= limit then r else r[..limit]
  }

  function Ids(jobs: seq<Job>): (ids: seq<int>)
    ensures |ids| == |jobs| && forall i :: 0 <= i < |jobs| ==> ids[i] == jobs[i].id
  {
    seq(|jobs|, i requires 0 <= i < |jobs| => jobs[i].id)
  }

  lemma {:induction false} RemainingShrinks(order: seq<Job>, seen: seq<int>, more: seq<int>)
    ensures |Remaining(order, seen + more)| <= |Remaining(order, seen)|
    ensures (exists j :: j in order && j.id !in seen && j.id in more) ==>
              |Remaining(order, seen + more)| < |Remaining(order, seen)|
  {
    if order != [] {
      assert order == [order[0]] + order[1..];
      RemainingShrinks(order[1..], seen, more);
    }
  }

  /** Skipping jobs that do not pass does not change the winner. */
  lemma {:induction false} SkippingKeepsWinner(order: seq<Job>, seen: seq<int>, l: Limits, b: Backend)
    requires forall j :: j in order && j.id in seen ==> !Passes(j, l, b)
    ensures Winner(Remaining(order, seen), l, b) == Winner(order, l, b)
  {
    if order != [] {
      SkippingKeepsWinner(order[1..], seen, l, b);
    }
  }

  /** A page either holds the winner of all that remains, or nothing in it passes. */
  lemma PageDecides(jobs: seq<Job>, limit: nat, l: Limits, b: Backend)
    requires limit <= |jobs|
    ensures Winner(jobs[..limit], l, b).Some? ==> Winner(jobs[..limit], l, b) == Winner(jobs, l, b)
    ensures Winner(jobs[..limit], l, b).None? ==> forall i :: 0 <= i < limit ==> !Passes(jobs[i], l, b)
  {
    var page := jobs[..limit];
    var k := FirstPassing(page, l, b);
    WinnerAt(page, k, l, b);
    if k < |page| {
      WinnerAt(jobs, k, l, b);
    } else {
      forall i | 0 <= i < limit ensures !Passes(jobs[i], l, b) {
        assert page[i] == jobs[i];
      }
    }
  }

  /** After a page in which nothing passes, nothing inspected so far passes, and less remains. */
  lemma PageInspected(b: Backend, l: Limits, seen: seq<int>, n: nat)
    requires Consistent(b) && forall j :: j in b.order && j.id in seen ==> !Passes(j, l, b)
    requires 1 <= n <= |Remaining(b.order, seen)|
    requires forall i :: 0 <= i < n ==> !Passes(Remaining(b.order, seen)[i], l, b)
    ensures var more := Ids(Remaining(b.order, seen)[..n]);
            && (forall j :: j in b.order && j.id in seen + more ==> !Passes(j, l, b))
            && |Remaining(b.order, seen + more)| < |Remaining(b.order, seen)|
  {
    var remaining := Remaining(b.order, seen);
    var page := remaining[..n];
    forall j | j in b.order && j.id in seen + Ids(page) ensures !Passes(j, l, b) {
      if j.id in Ids(page) {
        var i :| 0 <= i < n && Ids(page)[i] == j.id;
        RemainingMembers(b.order, seen, remaining[i]);
        assert remaining[i] == j;
      }
    }
    RemainingMembers(b.order, seen, remaining[0]);
    assert Ids(page)[0] == remaining[0].id;
    RemainingShrinks(b.order, seen, Ids(page));
  }

  /** `claim_next_job_with_queue_priority`: the scan ends and claims the first job in claim order
      that passes every check, or none exactly when none does, whatever the page size: blocked
      jobs at the head never hide runnable work. */
  method ClaimNext(worker: Worker, limit: nat, l: Limits, b: Backend) returns (claimed: Option<Job>)
    requires Consistent(b)
    modifies worker
    ensures limit >= 1 ==> claimed == Winner(b.order, l, b)
    ensures limit == 0 ==> claimed == None
    ensures claimed.Some? ==> worker.busy && worker.currentJob == Some(claimed.value.id)
    ensures claimed.None? ==> unchanged(worker)
  {
    var seen: seq<int> := [];
    while true
      invariant forall j :: j in b.order && j.id in seen ==> !Passes(j, l, b)
      invariant unchanged(worker)
      decreases |Remaining(b.order, seen)|
    {
      var remaining := Remaining(b.order, seen);
      var candidates := Page(b.order, limit, seen);
      SkippingKeepsWinner(b.order, seen, l, b);
      if candidates == [] {
        return None;
      }
      assert candidates == remaining[..|candidates|];
      PageDecides(remaining, |candidates|, l, b);
      var blocked;
      claimed, blocked := ClaimFromCandidates(candidates, worker, l, b);
      if claimed.Some? {
        return;
      }
      PageInspected(b, l, seen, |candidates|);
      seen := seen + Ids(candidates);
    }
  }

  /** The claimed job: it passes, and nothing before it in the order does; no job is claimed
      exactly when no job in the queue passes. */
  lemma WinnerIsFirst(jobs: seq<Job>, l: Limits, b: Backend)
    ensures Winner(jobs, l, b).None? <==> forall j :: j in jobs ==> !Passes(j, l, b)
    ensures Winner(jobs, l, b).Some? ==>
      exists k :: 0 <= k < |jobs| && jobs[k] == Winner(jobs, l, b).value && Passes(jobs[k], l, b) &&
                  forall i :: 0 <= i < k ==> !Passes(jobs[i], l, b)
  {
    var k := FirstPassing(jobs, l, b);
    WinnerAt(jobs, k, l, b);
    if k < |jobs| {
      assert jobs[k] in jobs;
    } else {
      forall j | j in jobs ensures !Passes(j, l, b) {
        var i :| 0 <= i < |jobs| && jobs[i] == j;
      }
    }
  }
}
