/** `ensure_live_partitions`: the walk that premakes partitions of the live table ahead of now,
    around existing partitions of any width. Times are microseconds since the epoch. */
module PartitionCover {

  datatype Option<T> = None | Some(value: T)

  const MINUTE := 60_000_000
  const DAY := 86_400_000_000
  const MAX_STEPS := 10_000

  datatype Range = Range(lo: int, hi: int)

  /** A partition's table name: the UTC day or minute its range starts in, or something else. */
  datatype Name = DayName(day: int) | MinuteName(minute: int) | OtherName(n: int)

  /** `defaultRows` are the creation times of the rows in the DEFAULT partition, which make the
      attachment of a range that contains one of them fail. */
  datatype Plan = Plan(width: int, end: int, defaultRows: set<int>)

  /** The partitions in the catalog and the local state of the loop. */
  datatype Walk = Walk(parts: map<Name, Range>, existing: seq<Range>, cursor: int, created: nat)

  predicate Contains(r: Range, t: int) { r.lo <= t < r.hi }

  predicate Disjoint(a: Range, b: Range) { a.hi <= b.lo || b.hi <= a.lo }

  // ---------------------------------------------------------------------------------
  // One iteration
  // ---------------------------------------------------------------------------------

  /** The end of the first listed range that contains `t`. */
  function Covering(existing: seq<Range>, t: int): (hi: Option<int>)
    ensures hi.None? <==> forall r :: r in existing ==> !Contains(r, t)
    ensures hi.Some? ==> exists r :: r in existing && Contains(r, t) && r.hi == hi.value
  {
    if existing == [] then None
    else if Contains(existing[0], t) then Some(existing[0].hi)
    else
      assert forall r :: r in existing <==> r == existing[0] || r in existing[1..];
      Covering(existing[1..], t)
  }

  /** `limit`, or the start of the first range after `t` if that is earlier. */
  function Clip(existing: seq<Range>, t: int, limit: int): (hi: int)
    requires t < limit
    ensures t < hi <= limit
    ensures forall r :: r in existing && t < r.lo ==> hi <= r.lo
    ensures hi < limit ==> exists r :: r in existing && r.lo == hi
  {
    if existing == [] then limit
    else
      assert forall r :: r in existing <==> r == existing[0] || r in existing[1..];
      var rest := Clip(existing[1..], t, limit);
      if t < existing[0].lo < rest then existing[0].lo else rest
  }

  function NameOf(width: int, lo: int): Name {
    if width < DAY then MinuteName(lo / MINUTE) else DayName(lo / DAY)
  }

  predicate Conflicts(plan: Plan, r: Range) {
    exists t :: t in plan.defaultRows && Contains(r, t)
  }

  function NextRange(plan: Plan, w: Walk): Range
    requires plan.width > 0
  {
    Range(w.cursor, Clip(w.existing, w.cursor, w.cursor + plan.width))
  }

  /** The CREATE has no effect: the name is taken, or the DEFAULT partition holds a row of the range. */
  predicate Blocked(plan: Plan, w: Walk)
    requires plan.width > 0
  {
    Covering(w.existing, w.cursor).None? && (NameOf(plan.width, w.cursor) in w.parts || Conflicts(plan, NextRange(plan, w)))
  }

  function Step(plan: Plan, w: Walk): Walk
    requires plan.width > 0
  {
    match Covering(w.existing, w.cursor)
    case Some(hi) => w.(cursor := hi)
    case None =>
      var r := NextRange(plan, w);
      var name := NameOf(plan.width, w.cursor);
      // CREATE TABLE IF NOT EXISTS looks at the name first
      if name in w.parts then Walk(w.parts, w.existing + [r], r.hi, w.created + 1)
      else if Conflicts(plan, r) then Walk(w.parts, w.existing + [r], r.hi, w.created)
      else Walk(w.parts[name := r], w.existing + [r], r.hi, w.created + 1)
  }

  function Iterate(plan: Plan, w: Walk, n: nat): Walk
    requires plan.width > 0
    decreases n
  {
    if n == 0 || w.cursor >= plan.end then w else Iterate(plan, Step(plan, w), n - 1)
  }

  // ---------------------------------------------------------------------------------
  // Disjointness
  // ---------------------------------------------------------------------------------

  ghost predicate AllDisjoint(existing: seq<Range>) {
    forall i, j :: 0 <= i < j < |existing| ==> Disjoint(existing[i], existing[j])
  }

  /** The catalog lists its ranges in `existing`, all non-empty and no two overlapping. */
  ghost predicate Inv(w: Walk) {
    && (forall r :: r in w.existing ==> r.lo < r.hi)
    && AllDisjoint(w.existing)
    && (forall name :: name in w.parts ==> w.parts[name] in w.existing)
    && PartsDisjoint(w.parts)
  }

  /** A range the walk creates touches no range it knows. */
  lemma NextRangeIsFree(plan: Plan, w: Walk)
    requires plan.width > 0 && Covering(w.existing, w.cursor).None?
    ensures forall r :: r in w.existing ==> Disjoint(r, NextRange(plan, w))
  {
    forall r | r in w.existing ensures Disjoint(r, NextRange(plan, w)) {
      assert !Contains(r, w.cursor);
    }
  }

  lemma DisjointExtends(existing: seq<Range>, r: Range)
    requires AllDisjoint(existing) && forall e :: e in existing ==> Disjoint(e, r)
    ensures AllDisjoint(existing + [r])
  {
    forall i, j | 0 <= i < j < |existing + [r]| ensures Disjoint((existing + [r])[i], (existing + [r])[j]) {
      assert existing[i] in existing;
    }
  }

  ghost predicate PartsDisjoint(parts: map<Name, Range>) {
    forall a, b :: a in parts && b in parts && a != b ==> Disjoint(parts[a], parts[b])
  }

  lemma PartsExtend(w: Walk, name: Name, r: Range)
    requires PartsDisjoint(w.parts) && name !in w.parts
    requires forall a :: a in w.parts ==> w.parts[a] in w.existing
    requires forall e :: e in w.existing ==> Disjoint(e, r)
    ensures PartsDisjoint(w.parts[name := r])
    ensures var parts := w.parts[name := r]; forall a :: a in parts ==> parts[a] in w.existing + [r]
  {
  }

  /** No partition is dropped, renamed or given other bounds. */
  ghost predicate Extends(parts: map<Name, Range>, parts': map<Name, Range>) {
    forall name :: name in parts ==> name in parts' && parts'[name] == parts[name]
  }

  lemma StepKeeps(plan: Plan, w: Walk)
    requires plan.width > 0 && Inv(w)
    ensures Inv(Step(plan, w))
    ensures Step(plan, w).cursor > w.cursor
    ensures Extends(w.parts, Step(plan, w).parts)
  {
    if Covering(w.existing, w.cursor).None? {
      NextRangeIsFree(plan, w);
      DisjointExtends(w.existing, NextRange(plan, w));
      if NameOf(plan.width, w.cursor) !in w.parts {
        PartsExtend(w, NameOf(plan.width, w.cursor), NextRange(plan, w));
      }
    }
  }

  /** Existing partitions are never touched, and no two partitions ever overlap. */
  lemma {:induction false} IterateKeeps(plan: Plan, w: Walk, n: nat)
    requires plan.width > 0 && Inv(w)
    ensures Inv(Iterate(plan, w, n)) && Iterate(plan, w, n).cursor >= w.cursor
    ensures Extends(w.parts, Iterate(plan, w, n).parts)
    decreases n
  {
    if n > 0 && w.cursor < plan.end {
      StepKeeps(plan, w);
      IterateKeeps(plan, Step(plan, w), n - 1);
    }
  }

  // ---------------------------------------------------------------------------------
  // The number of iterations
  // ---------------------------------------------------------------------------------

  function CountEndsAfter(existing: seq<Range>, t: int): nat {
    if existing == [] then 0 else CountEndsAfter(existing[1..], t) + if existing[0].hi > t then 1 else 0
  }

  function CountStartsAfter(existing: seq<Range>, t: int): nat {
    if existing == [] then 0 else CountStartsAfter(existing[1..], t) + if existing[0].lo > t then 1 else 0
  }

  lemma {:induction false} CountsShrink(existing: seq<Range>, t: int, u: int)
    requires t <= u
    ensures CountEndsAfter(existing, u) <= CountEndsAfter(existing, t) <= |existing|
    ensures CountStartsAfter(existing, u) <= CountStartsAfter(existing, t) <= |existing|
    ensures (exists r :: r in existing && t < r.hi <= u) ==> CountEndsAfter(existing, u) < CountEndsAfter(existing, t)
    ensures (exists r :: r in existing && t < r.lo <= u) ==> CountStartsAfter(existing, u) < CountStartsAfter(existing, t)
  {
    if existing != [] {
      CountsShrink(existing[1..], t, u);
      assert forall r :: r in existing <==> r == existing[0] || r in existing[1..];
    }
  }

  lemma {:induction false} CountsAppend(existing: seq<Range>, r: Range, t: int)
    requires r.hi <= t && r.lo <= t
    ensures CountEndsAfter(existing + [r], t) == CountEndsAfter(existing, t)
    ensures CountStartsAfter(existing + [r], t) == CountStartsAfter(existing, t)
  {
    if existing != [] {
      assert (existing + [r])[1..] == existing[1..] + [r];
      CountsAppend(existing[1..], r, t);
    } else {
      assert [r][1..] == [];
      assert CountEndsAfter([r], t) == CountEndsAfter([], t) && CountStartsAfter([r], t) == CountStartsAfter([], t);
      assert [] + [r] == [r];
    }
  }

  /** How many full widths still fit before `end`, rounded up. */
  function WidthsLeft(plan: Plan, t: int): nat
    requires plan.width > 0
  {
    if t >= plan.end then 0 else (plan.end - t - 1) / plan.width + 1
  }

  lemma WidthsShrink(plan: Plan, t: int, u: int)
    requires plan.width > 0 && t <= u
    ensures WidthsLeft(plan, u) <= WidthsLeft(plan, t)
    ensures t < plan.end && u >= t + plan.width ==> WidthsLeft(plan, u) < WidthsLeft(plan, t)
  {
    if u < plan.end {
      DivMonotone(plan.end - u - 1, plan.end - t - 1, plan.width);
      if u >= t + plan.width {
        DivMonotone(plan.end - u - 1 + plan.width, plan.end - t - 1, plan.width);
        DivPlusOne(plan.end - u - 1, plan.width);
      }
    }
  }

  lemma DivMonotone(a: int, b: int, d: int)
    requires d > 0 && 0 <= a <= b
    ensures a / d <= b / d
  {
    var p, q := a / d, b / d;
    assert a == d * p + a % d && b == d * q + b % d;
    assert p > q ==> d * p >= d * (q + 1);
  }

  lemma DivPlusOne(a: int, d: int)
    requires d > 0 && a >= 0
    ensures (a + d) / d == a / d + 1
  {
    assert (a + d) == d * (a / d + 1) + a % d;
    DivUnique(a + d, d, a / d + 1, a % d);
  }

  lemma DivUnique(x: int, d: int, q: int, r: int)
    requires d > 0 && 0 <= r < d && x == d * q + r
    ensures x / d == q
  {
    var k := x / d - q;
    assert d * k == r - x % d by {
      assert d * (x / d) == x - x % d;
      assert d * k == d * (x / d) - d * q;
    }
    SmallMultiple(d, k);
  }

  /** A multiple strictly between -d and d is zero. */
  lemma SmallMultiple(d: int, k: int)
    requires d > 0 && -d < d * k < d
    ensures k == 0
  {
    if k >= 1 {
      MultipleGrows(d, k);
    } else if k <= -1 {
      MultipleGrows(d, -k);
    }
  }

  lemma MultipleGrows(d: int, k: int)
    requires d > 0 && k >= 1
    ensures d * k >= d
  {
  }

  /** What is left to do: ranges to jump, ranges to stop at, and full widths to fill. */
  function Effort(plan: Plan, w: Walk): nat
    requires plan.width > 0
  {
    CountEndsAfter(w.existing, w.cursor) + CountStartsAfter(w.existing, w.cursor) + WidthsLeft(plan, w.cursor)
  }

  lemma StepSpendsEffort(plan: Plan, w: Walk)
    requires plan.width > 0 && Inv(w) && w.cursor < plan.end
    ensures Effort(plan, Step(plan, w)) < Effort(plan, w)
  {
    var w' := Step(plan, w);
    StepKeeps(plan, w);
    CountsShrink(w.existing, w.cursor, w'.cursor);
    WidthsShrink(plan, w.cursor, w'.cursor);
    if Covering(w.existing, w.cursor).None? {
      CountsAppend(w.existing, NextRange(plan, w), w'.cursor);
    }
  }

  /** One iteration before the end: the walk goes on from a good state with less left to do. */
  lemma StepTowardsEnd(plan: Plan, w: Walk, n: nat)
    requires plan.width > 0 && Inv(w) && w.cursor < plan.end && Effort(plan, w) <= n
    ensures n > 0 && Inv(Step(plan, w)) && Effort(plan, Step(plan, w)) <= n - 1
    ensures Iterate(plan, w, n) == Iterate(plan, Step(plan, w), n - 1)
  {
    StepSpendsEffort(plan, w);
    StepKeeps(plan, w);
  }

  lemma {:induction false} EffortSuffices(plan: Plan, w: Walk, n: nat)
    requires plan.width > 0 && Inv(w) && Effort(plan, w) <= n
    ensures Iterate(plan, w, n).cursor >= plan.end
    decreases n
  {
    if w.cursor < plan.end {
      StepTowardsEnd(plan, w, n);
      EffortSuffices(plan, Step(plan, w), n - 1);
    }
  }

  /** Two iterations per existing partition and one per width are enough. */
  lemma EnoughIterations(plan: Plan, w: Walk, n: nat)
    requires plan.width > 0 && Inv(w)
    requires 2 * |w.existing| + WidthsLeft(plan, w.cursor) <= n
    ensures Iterate(plan, w, n).cursor >= plan.end
  {
    CountsShrink(w.existing, w.cursor, w.cursor);
    EffortSuffices(plan, w, n);
  }

  // ---------------------------------------------------------------------------------
  // Coverage
  // ---------------------------------------------------------------------------------

  ghost predicate InPartition(parts: map<Name, Range>, t: int) {
    exists name :: name in parts && Contains(parts[name], t)
  }

  /** Every moment of an interval falls into a partition of the catalog. */
  ghost predicate Covers(parts: map<Name, Range>, lo: int, hi: int) {
    forall t :: lo <= t < hi ==> InPartition(parts, t)
  }

  /** Every known range is a partition of the catalog. */
  ghost predicate AllAttached(w: Walk) {
    forall r :: r in w.existing ==> exists name :: name in w.parts && w.parts[name] == r
  }

  /** No CREATE of the walk was without effect. */
  ghost predicate NoneBlocked(plan: Plan, w: Walk, n: nat)
    requires plan.width > 0
    decreases n
  {
    n > 0 && w.cursor < plan.end ==> !Blocked(plan, w) && NoneBlocked(plan, Step(plan, w), n - 1)
  }

  lemma StepAttaches(plan: Plan, w: Walk)
    requires plan.width > 0 && Inv(w) && AllAttached(w) && !Blocked(plan, w)
    ensures AllAttached(Step(plan, w))
    ensures Covers(Step(plan, w).parts, w.cursor, Step(plan, w).cursor)
  {
    var w' := Step(plan, w);
    if Covering(w.existing, w.cursor).Some? {
      var r :| r in w.existing && Contains(r, w.cursor) && r.hi == w'.cursor;
      var name :| name in w.parts && w.parts[name] == r;
      assert forall t :: w.cursor <= t < w'.cursor ==> Contains(w'.parts[name], t);
    } else {
      var name := NameOf(plan.width, w.cursor);
      assert w'.parts[name] == NextRange(plan, w);
      forall r | r in w'.existing ensures exists a :: a in w'.parts && w'.parts[a] == r {
        if r in w.existing {
          var a :| a in w.parts && w.parts[a] == r;
          assert w'.parts[a] == r;
        }
      }
    }
  }

  lemma CoversExtends(parts: map<Name, Range>, parts': map<Name, Range>, lo: int, hi: int)
    requires Covers(parts, lo, hi) && Extends(parts, parts')
    ensures Covers(parts', lo, hi)
  {
    forall t | lo <= t < hi ensures InPartition(parts', t) {
      assert InPartition(parts, t);
      var name :| name in parts && Contains(parts[name], t);
      assert Contains(parts'[name], t);
    }
  }

  lemma {:induction false} UnblockedCovers(plan: Plan, w: Walk, n: nat)
    requires plan.width > 0 && Inv(w) && AllAttached(w) && NoneBlocked(plan, w, n)
    ensures Covers(Iterate(plan, w, n).parts, w.cursor, Iterate(plan, w, n).cursor)
    decreases n
  {
    if n > 0 && w.cursor < plan.end {
      var w' := Step(plan, w);
      StepKeeps(plan, w);
      StepAttaches(plan, w);
      UnblockedCovers(plan, w', n - 1);
      IterateKeeps(plan, w', n - 1);
      CoversExtends(w'.parts, Iterate(plan, w', n - 1).parts, w.cursor, w'.cursor);
    }
  }

  /** A moment behind the cursor that no partition holds stays so. */
  lemma {:induction false} GapStays(plan: Plan, w: Walk, n: nat, t: int)
    requires plan.width > 0 && t < w.cursor && !InPartition(w.parts, t)
    ensures !InPartition(Iterate(plan, w, n).parts, t)
    decreases n
  {
    if n > 0 && w.cursor < plan.end {
      GapBehindStep(plan, w, t);
      GapStays(plan, Step(plan, w), n - 1, t);
    }
  }

  lemma GapBehindStep(plan: Plan, w: Walk, t: int)
    requires plan.width > 0 && t < w.cursor && !InPartition(w.parts, t)
    ensures t < Step(plan, w).cursor && !InPartition(Step(plan, w).parts, t)
  {
    var w' := Step(plan, w);
    forall name | name in w'.parts ensures !Contains(w'.parts[name], t) {
      assert name in w.parts && w'.parts[name] == w.parts[name] ==> !Contains(w.parts[name], t);
    }
  }

  lemma BlockedStepLeavesGap(plan: Plan, w: Walk)
    requires plan.width > 0 && Inv(w) && Blocked(plan, w)
    ensures w.cursor < Step(plan, w).cursor && !InPartition(Step(plan, w).parts, w.cursor)
  {
    assert forall name :: name in w.parts ==> !Contains(w.parts[name], w.cursor);
  }

  lemma {:induction false} BlockedLeavesGap(plan: Plan, w: Walk, n: nat) returns (t: int)
    requires plan.width > 0 && Inv(w) && !NoneBlocked(plan, w, n)
    ensures w.cursor <= t < plan.end && !InPartition(Iterate(plan, w, n).parts, t)
    decreases n
  {
    if Blocked(plan, w) {
      t := w.cursor;
      BlockedStepLeavesGap(plan, w);
      GapStays(plan, Step(plan, w), n - 1, t);
    } else {
      StepKeeps(plan, w);
      t := BlockedLeavesGap(plan, Step(plan, w), n - 1);
    }
  }

  /** Once the walk reached its end, there is no gap exactly when every CREATE took effect. */
  lemma CoveredExactlyWhenUnblocked(plan: Plan, w: Walk, n: nat)
    requires plan.width > 0 && Inv(w) && AllAttached(w) && Iterate(plan, w, n).cursor >= plan.end
    ensures Covers(Iterate(plan, w, n).parts, w.cursor, plan.end) <==> NoneBlocked(plan, w, n)
  {
    if NoneBlocked(plan, w, n) {
      UnblockedCovers(plan, w, n);
    } else {
      var t := BlockedLeavesGap(plan, w, n);
      assert !InPartition(Iterate(plan, w, n).parts, t);
    }
  }

  // ---------------------------------------------------------------------------------
  // Names
  // ---------------------------------------------------------------------------------

  /** The precision of the generated names. */
  function Unit(width: int): int { if width < DAY then MINUTE else DAY }

  predicate Aligned(t: int, unit: int)
    requires unit > 0
  {
    t % unit == 0
  }

  /** A partition with a generated name starts at the moment its name spells out. */
  ghost predicate WellNamed(parts: map<Name, Range>) {
    && (forall m :: MinuteName(m) in parts ==> parts[MinuteName(m)].lo == m * MINUTE)
    && (forall d :: DayName(d) in parts ==> parts[DayName(d)].lo == d * DAY)
  }

  /** All bounds are whole units of the names. */
  ghost predicate AllAligned(plan: Plan, w: Walk) {
    && Aligned(plan.width, Unit(plan.width)) && Aligned(w.cursor, Unit(plan.width))
    && forall r :: r in w.existing ==> Aligned(r.lo, Unit(plan.width)) && Aligned(r.hi, Unit(plan.width))
  }

  lemma SumAligned(a: int, b: int, unit: int)
    requires unit > 0 && Aligned(a, unit) && Aligned(b, unit)
    ensures Aligned(a + b, unit)
  {
    var q := a / unit + b / unit;
    assert a == unit * (a / unit) && b == unit * (b / unit);
    assert a + b == unit * q + 0;
    DivUnique(a + b, unit, q, 0);
  }

  /** The next name is free: a partition of that name would contain the cursor. */
  lemma NameIsFree(plan: Plan, w: Walk)
    requires plan.width > 0 && Inv(w) && WellNamed(w.parts) && AllAligned(plan, w) && Covering(w.existing, w.cursor).None?
    ensures NameOf(plan.width, w.cursor) !in w.parts
  {
    assert forall r :: r in w.existing ==> !Contains(r, w.cursor);
    assert w.cursor == w.cursor / Unit(plan.width) * Unit(plan.width);
  }

  lemma StepKeepsNames(plan: Plan, w: Walk)
    requires plan.width > 0 && Inv(w) && WellNamed(w.parts) && AllAligned(plan, w)
    ensures WellNamed(Step(plan, w).parts) && AllAligned(plan, Step(plan, w))
  {
    SumAligned(w.cursor, plan.width, Unit(plan.width));
  }

  lemma {:induction false} NamesNeverCollide(plan: Plan, w: Walk, n: nat)
    requires plan.width > 0 && Inv(w) && WellNamed(w.parts) && AllAligned(plan, w) && plan.defaultRows == {}
    ensures NoneBlocked(plan, w, n)
    decreases n
  {
    if n > 0 && w.cursor < plan.end {
      if Covering(w.existing, w.cursor).None? {
        NameIsFree(plan, w);
      }
      StepKeeps(plan, w);
      StepKeepsNames(plan, w);
      NamesNeverCollide(plan, Step(plan, w), n - 1);
    }
  }

  // ---------------------------------------------------------------------------------
  // The whole operation
  // ---------------------------------------------------------------------------------

  /** Where the walk starts: the day, or the bucket of the interval, that holds now. */
  function Bucket(now: int, width: int): (start: int)
    requires width > 0
    ensures now - (if width < DAY then width else if width % DAY == 0 then DAY else width) < start <= now
  {
    if width >= DAY && width % DAY == 0 then now - now % DAY else now - now % width
  }

  /** The bucket holds now: it begins at a whole number of days, or of intervals, and ends after now. */
  lemma BucketHoldsNow(now: int, width: int)
    requires width > 0
    ensures var step := if width % DAY == 0 then DAY else width;
            Aligned(Bucket(now, width), step) && Bucket(now, width) <= now < Bucket(now, width) + step
  {
    var step := if width % DAY == 0 then DAY else width;
    assert width % DAY == 0 ==> width >= DAY by {
      if width < DAY { DivUnique(width, DAY, 0, width); }
    }
    assert Bucket(now, width) == now - now % step == step * (now / step) + 0;
    DivUnique(step * (now / step), step, now / step, 0);
  }

  function Ahead(width: int, premake: int, lookahead: int): int {
    var span := width * (if premake < 1 then 1 else premake);
    if span < lookahead then lookahead else span
  }

  /** The catalog lists exactly its partitions, which do not overlap. */
  ghost predicate Catalogued(parts: map<Name, Range>, existing: seq<Range>) {
    Inv(Walk(parts, existing, 0, 0)) && AllAttached(Walk(parts, existing, 0, 0))
  }

  /** 10,000 iterations are enough whenever the existing partitions and the widths to fill, counted
      twice and once, leave room for two more. */
  lemma LoopReachesEnd(plan: Plan, w: Walk, now: int, ahead: int)
    requires plan.width > 0 && Inv(w) && ahead > 0 && plan.end == now + ahead && w.cursor == Bucket(now, plan.width)
    requires 2 * |w.existing| + ahead / plan.width + 2 <= MAX_STEPS
    ensures Iterate(plan, w, MAX_STEPS).cursor >= plan.end
  {
    var left := plan.end - w.cursor - 1;
    assert left <= ahead + plan.width - 1;
    DivMonotone(left, ahead + plan.width, plan.width);
    DivPlusOne(ahead, plan.width);
    EnoughIterations(plan, w, MAX_STEPS);
  }

  // ---------------------------------------------------------------------------------
  // What the new partitions are
  // ---------------------------------------------------------------------------------

  /** A partition that was not there before: it starts within the plan, is no wider than asked for, and holds no row
      of the DEFAULT partition. */
  ghost predicate NewWithin(plan: Plan, r: Range, from: int) {
    from <= r.lo < plan.end && r.lo < r.hi <= r.lo + plan.width && forall t :: t in plan.defaultRows ==> !Contains(r, t)
  }

  lemma StepExtends(plan: Plan, w: Walk)
    requires plan.width > 0
    ensures Extends(w.parts, Step(plan, w).parts) && Step(plan, w).cursor >= w.cursor
  {
  }

  lemma {:induction false} IterateExtends(plan: Plan, w: Walk, n: nat)
    requires plan.width > 0
    ensures Extends(w.parts, Iterate(plan, w, n).parts)
    decreases n
  {
    if n > 0 && w.cursor < plan.end {
      StepExtends(plan, w);
      IterateExtends(plan, Step(plan, w), n - 1);
    }
  }

  lemma {:induction false} NewPartitions(plan: Plan, w: Walk, n: nat, name: Name)
    requires plan.width > 0 && name in Iterate(plan, w, n).parts && name !in w.parts
    ensures NewWithin(plan, Iterate(plan, w, n).parts[name], w.cursor)
    decreases n
  {
    var w' := Step(plan, w);
    StepExtends(plan, w);
    if name in w'.parts {
      IterateExtends(plan, w', n - 1);
      StepAddsWithin(plan, w, name);
    } else {
      NewPartitions(plan, w', n - 1, name);
    }
  }

  lemma StepAddsWithin(plan: Plan, w: Walk, name: Name)
    requires plan.width > 0 && w.cursor < plan.end && name in Step(plan, w).parts && name !in w.parts
    ensures NewWithin(plan, Step(plan, w).parts[name], w.cursor)
  {
  }

  /** As long as no CREATE is without effect, `created` is the number of partitions added. */
  lemma {:induction false} CreatedCounts(plan: Plan, w: Walk, n: nat)
    requires plan.width > 0 && NoneBlocked(plan, w, n)
    ensures Iterate(plan, w, n).created - w.created == |Iterate(plan, w, n).parts| - |w.parts|
    decreases n
  {
    if n > 0 && w.cursor < plan.end {
      StepCounts(plan, w);
      CreatedCounts(plan, Step(plan, w), n - 1);
    }
  }

  lemma StepCounts(plan: Plan, w: Walk)
    requires plan.width > 0 && !Blocked(plan, w)
    ensures Step(plan, w).created - w.created == |Step(plan, w).parts| - |w.parts|
  {
    if Covering(w.existing, w.cursor).None? {
      var name := NameOf(plan.width, w.cursor);
      assert w.parts[name := NextRange(plan, w)].Keys == w.parts.Keys + {name};
      assert |w.parts.Keys + {name}| == |w.parts.Keys| + 1;
      assert |w.parts| == |w.parts.Keys| && |Step(plan, w).parts| == |Step(plan, w).parts.Keys|;
    }
  }

  /** A moment that the settings ask to be covered: before now + lookahead, or within one width, or within `premake`
      widths of now. */
  predicate Promised(now: int, width: int, premake: int, lookahead: int, t: int) {
    t < now + lookahead || t < now + width || t < now + width * premake
  }

  lemma PromisedIsAhead(now: int, width: int, premake: int, lookahead: int, t: int)
    requires width > 0
    ensures Promised(now, width, premake, lookahead, t) <==> t < now + Ahead(width, premake, lookahead)
  {
    if premake < 1 {
      assert width * premake <= 0 by { MultipleShrinks(width, premake); }
    } else {
      MultipleGrows(width, premake);
    }
  }

  lemma MultipleShrinks(d: int, k: int)
    requires d > 0 && k <= 0
    ensures d * k <= 0
  {
  }

  /** There is room in the loop for what the settings ask. */
  predicate RoomFor(listed: seq<Range>, width: int, premake: int, lookahead: int)
    requires width > 0
  {
    2 * |listed| + lookahead / width + 2 <= 10_000 && 2 * |listed| + premake + 2 <= 10_000 && 2 * |listed| + 3 <= 10_000
  }

  lemma RoomIsEnough(listed: seq<Range>, width: int, premake: int, lookahead: int)
    requires width > 0 && lookahead > 0 && RoomFor(listed, width, premake, lookahead)
    ensures 2 * |listed| + Ahead(width, premake, lookahead) / width + 2 <= MAX_STEPS
  {
    var k := if premake < 1 then 1 else premake;
    assert width * k == width * k + 0;
    DivUnique(width * k, width, k, 0);
  }

  /** The conditions under which the operation keeps its promise. */
  ghost predicate WellSetUp(parts: map<Name, Range>, listed: seq<Range>, width: int, premake: int, lookahead: int, defaultRows: set<int>)
    requires width > 0
  {
    && WellNamed(parts) && AllAligned(Plan(width, 0, {}), Walk(parts, listed, 0, 0)) && defaultRows == {}
    && RoomFor(listed, width, premake, lookahead)
  }

  /** The promise, moment by moment. */
  lemma PromisedIsCovered(parts: map<Name, Range>, listed: seq<Range>, now: int, width: int, premake: int, lookahead: int)
    requires width > 0 && lookahead > 0 && Catalogued(parts, listed) && WellSetUp(parts, listed, width, premake, lookahead, {})
    ensures var plan := Plan(width, now + Ahead(width, premake, lookahead), {});
            var last := Iterate(plan, Walk(parts, listed, Bucket(now, width), 0), MAX_STEPS);
            && (forall t :: now <= t && Promised(now, width, premake, lookahead, t) ==> InPartition(last.parts, t))
            && last.created == |last.parts| - |parts|
  {
    var plan := Plan(width, now + Ahead(width, premake, lookahead), {});
    var start := Walk(parts, listed, Bucket(now, width), 0);
    RoomIsEnough(listed, width, premake, lookahead);
    CoverageHasNoGap(parts, listed, now, width, premake, lookahead);
    BucketIsAligned(now, width);
    NamesNeverCollide(plan, start, MAX_STEPS);
    CreatedCounts(plan, start, MAX_STEPS);
    var last := Iterate(plan, start, MAX_STEPS);
    forall t | now <= t && Promised(now, width, premake, lookahead, t) ensures InPartition(last.parts, t) {
      PromisedIsAhead(now, width, premake, lookahead, t);
    }
  }

  class Catalog {
    var parts: map<Name, Range>

    /** `ensure_live_partitions`, given the ranges the catalog lists and the rows of the DEFAULT
        partition. */
    method EnsureLivePartitions(listed: seq<Range>, now: int, width: int, premake: int, lookahead: int, defaultRows: set<int>)
        returns (created: nat)
      requires width > 0 && lookahead > 0 && Catalogued(parts, listed)
      modifies this
      ensures PartsDisjoint(parts) && Extends(old(parts), parts)
      ensures var plan := Plan(width, now + Ahead(width, premake, lookahead), defaultRows);
              var start := Walk(old(parts), listed, Bucket(now, width), 0);
              parts == Iterate(plan, start, MAX_STEPS).parts && created == Iterate(plan, start, MAX_STEPS).created
      ensures forall name :: name in parts && name !in old(parts) ==>
                && Promised(now, width, premake, lookahead, parts[name].lo) && now < parts[name].lo + (if width % DAY == 0 then DAY else width)
                && parts[name].lo < parts[name].hi <= parts[name].lo + width
                && forall t :: t in defaultRows ==> !Contains(parts[name], t)
      ensures WellSetUp(old(parts), listed, width, premake, lookahead, defaultRows) ==>
                && (forall t :: now <= t && Promised(now, width, premake, lookahead, t) ==> InPartition(parts, t))
                && created == |parts| - |old(parts)|
    {
      var plan := Plan(width, now + Ahead(width, premake, lookahead), defaultRows);
      ghost var start := Walk(parts, listed, Bucket(now, width), 0);
      IterateKeeps(plan, start, MAX_STEPS);
      created := WalkAhead(plan, listed, Bucket(now, width), MAX_STEPS);
      forall name | name in parts && name !in start.parts
        ensures NewWithin(plan, parts[name], start.cursor) && Promised(now, width, premake, lookahead, parts[name].lo)
      {
        NewPartitions(plan, start, MAX_STEPS, name);
        PromisedIsAhead(now, width, premake, lookahead, parts[name].lo);
      }
      if WellSetUp(start.parts, listed, width, premake, lookahead, defaultRows) {
        PromisedIsCovered(start.parts, listed, now, width, premake, lookahead);
      }
    }

    method WalkAhead(plan: Plan, listed: seq<Range>, start: int, limit: nat) returns (created: nat)
      requires plan.width > 0
      modifies this
      ensures var last := Iterate(plan, Walk(old(parts), listed, start, 0), limit); parts == last.parts && created == last.created
    {
      ghost var goal := Iterate(plan, Walk(parts, listed, start, 0), limit);
      var cursor, existing := start, listed;
      created := 0;
      for i := 0 to limit
        invariant Iterate(plan, Walk(parts, existing, cursor, created), limit - i) == goal
      {
        if cursor >= plan.end {
          break;
        }
        existing, cursor, created := Advance(plan, existing, cursor, created);
      }
    }

    /** One iteration: jump over the range that covers the cursor, or create the next partition. */
    method Advance(plan: Plan, existing: seq<Range>, cursor: int, created: nat)
        returns (existing': seq<Range>, cursor': int, created': nat)
      requires plan.width > 0
      modifies this
      ensures Walk(parts, existing', cursor', created') == Step(plan, Walk(old(parts), existing, cursor, created))
    {
      existing', cursor', created' := existing, cursor, created;
      var covering := Covering(existing, cursor);
      if covering.Some? {
        cursor' := covering.value;
        return;
      }
      var range := Range(cursor, Clip(existing, cursor, cursor + plan.width));
      var name := NameOf(plan.width, cursor);
      if name in parts {
        created' := created + 1;
      } else if !Conflicts(plan, range) {
        parts := parts[name := range];
        created' := created + 1;
      }
      existing' := existing + [range];
      cursor' := range.hi;
    }
  }

  /** The promise of the operation: for widths, bounds and names of whole minutes (whole days from a
      day on), with nothing in the DEFAULT partition and room in the loop, every moment from the
      bucket of now until now + ahead falls into a partition. */
  lemma CoverageHasNoGap(parts: map<Name, Range>, listed: seq<Range>, now: int, width: int, premake: int, lookahead: int)
    requires width > 0 && lookahead > 0 && Catalogued(parts, listed) && WellNamed(parts)
    requires AllAligned(Plan(width, 0, {}), Walk(parts, listed, 0, 0))
    requires 2 * |listed| + Ahead(width, premake, lookahead) / width + 2 <= MAX_STEPS
    ensures var plan := Plan(width, now + Ahead(width, premake, lookahead), {});
            var start := Walk(parts, listed, Bucket(now, width), 0);
            Covers(Iterate(plan, start, MAX_STEPS).parts, start.cursor, plan.end)
  {
    var plan := Plan(width, now + Ahead(width, premake, lookahead), {});
    var start := Walk(parts, listed, Bucket(now, width), 0);
    BucketIsAligned(now, width);
    NamesNeverCollide(plan, start, MAX_STEPS);
    LoopReachesEnd(plan, start, now, Ahead(width, premake, lookahead));
    CoveredExactlyWhenUnblocked(plan, start, MAX_STEPS);
  }

  lemma BucketIsAligned(now: int, width: int)
    requires width > 0 && Aligned(width, Unit(width))
    ensures Aligned(Bucket(now, width), Unit(width))
  {
    if width >= DAY {
      assert now - now % DAY == DAY * (now / DAY) + 0;
      DivUnique(now - now % DAY, DAY, now / DAY, 0);
    } else {
      var k := width / MINUTE;
      assert width == MINUTE * k;
      var q := now / width;
      assert now - now % width == width * q;
      assert width * q == MINUTE * (k * q) by {
        assert width * q == (MINUTE * k) * q;
      }
      DivUnique(width * q, MINUTE, k * q, 0);
    }
  }

  // ---------------------------------------------------------------------------------
  // Day-wide partitions around shorter ones
  // ---------------------------------------------------------------------------------

  /** The hour after noon is a partition already; the morning may be one. */
  predicate Leftover(w: Walk, noon: int, morning: bool) {
    var hour := Range(noon, noon + 60 * MINUTE);
    && noon == DAY / 2
    && w.parts == (if morning then map[MinuteName(720) := hour, DayName(0) := Range(0, noon)] else map[MinuteName(720) := hour])
    && w.existing == (if morning then [hour, Range(0, noon)] else [hour])
  }

  lemma MorningIsCreated(plan: Plan, w: Walk, noon: int)
    requires plan.width == DAY && plan.defaultRows == {} && Leftover(w, noon, false) && w.cursor == 0
    ensures Leftover(Step(plan, w), noon, true) && Step(plan, w).cursor == noon && Step(plan, w).created == w.created + 1
  {
    var hour := Range(noon, noon + 60 * MINUTE);
    assert !Contains(hour, 0) && hour in w.existing;
    assert Covering(w.existing, 0).None?;
    assert Clip(w.existing, 0, DAY) == noon;
  }

  lemma AfternoonIsNot(plan: Plan, w: Walk, noon: int)
    requires plan.width == DAY && Leftover(w, noon, true) && w.cursor == noon + 60 * MINUTE
    ensures Step(plan, w).parts == w.parts && Step(plan, w).created == w.created + 1
    ensures Step(plan, w).cursor == w.cursor + DAY && !InPartition(w.parts, w.cursor)
  {
    assert forall r :: r in w.existing ==> !Contains(r, w.cursor) && r.lo <= w.cursor;
    assert NameOf(DAY, w.cursor) == DayName(0);
  }

  /** With day-wide partitions, an hourly partition left over in the middle of the day makes the
      walk use the day's name twice. The second CREATE has no effect, it is counted as created, and
      the rest of the day has no partition. */
  lemma LeftoverHourLeavesGap(plan: Plan, w: Walk, noon: int, n: nat)
    requires plan == Plan(DAY, DAY, {}) && Leftover(w, noon, false) && w.cursor == 0 && w.created == 0 && n >= 3
    ensures Inv(w) && AllAttached(w) && WellNamed(w.parts)
    ensures Iterate(plan, w, n).cursor >= plan.end && Iterate(plan, w, n).created == 2
    ensures !InPartition(Iterate(plan, w, n).parts, noon + 60 * MINUTE)
  {
    assert w.parts[MinuteName(720)] == Range(noon, noon + 60 * MINUTE);
    var w1 := Step(plan, w);
    MorningIsCreated(plan, w, noon);
    var w2 := Step(plan, w1);
    assert w2 == w1.(cursor := noon + 60 * MINUTE);
    AfternoonIsNot(plan, w2, noon);
    assert Iterate(plan, w, n) == Iterate(plan, w1, n - 1) == Iterate(plan, w2, n - 2) == Iterate(plan, Step(plan, w2), n - 3);
  }
}
