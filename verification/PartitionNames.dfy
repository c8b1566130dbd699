/** When `ensure_live_partitions` reuses a table name, stated on the existing partitions alone: where the
    walk will start a partition is decided by the gaps between them. */
module PartitionNames {
  import opened PartitionCover

  /** No listed range holds the moment. */
  ghost predicate Free(listed: seq<Range>, t: int) {
    forall r :: r in listed ==> !Contains(r, t)
  }

  ghost predicate FreeThrough(listed: seq<Range>, lo: int, hi: int) {
    forall u :: lo <= u <= hi ==> Free(listed, u)
  }

  /** A gap can begin at the start of the walk or where a listed range ends. */
  ghost predicate GapBegins(listed: seq<Range>, start: int, g: int) {
    g == start || exists r :: r in listed && r.hi == g
  }

  ghost predicate StartsFrom(listed: seq<Range>, start: int, width: int, g: int, t: int)
    requires width > 0
  {
    start <= g <= t && GapBegins(listed, start, g) && Aligned(t - g, width) && FreeThrough(listed, g, t)
  }

  /** The moments at which partitions are due: every width from the beginning of a gap until its end. */
  ghost predicate IsStart(listed: seq<Range>, start: int, width: int, t: int)
    requires width > 0
  {
    exists g :: StartsFrom(listed, start, width, g, t)
  }

  /** From `from` to the end of the plan, no due partition has a name that is taken, and no two have the same. */
  ghost predicate NamesFresh(plan: Plan, parts: map<Name, Range>, listed: seq<Range>, start: int, from: int)
    requires plan.width > 0
  {
    && (forall t :: from <= t < plan.end && IsStart(listed, start, plan.width, t) ==> NameOf(plan.width, t) !in parts)
    && (forall t, u :: from <= t < u < plan.end && IsStart(listed, start, plan.width, t) && IsStart(listed, start, plan.width, u) ==>
          NameOf(plan.width, t) != NameOf(plan.width, u))
  }

  /** The state of a walk that began at `start` with the ranges `listed`. */
  ghost predicate Follows(plan: Plan, w: Walk, listed: seq<Range>, start: int)
    requires plan.width > 0
  {
    && start <= w.cursor && (forall r :: r in w.existing ==> r.lo < r.hi)
    && (forall r :: r in listed ==> r in w.existing)
    && (forall r :: r in w.existing ==> r in listed || r.hi <= w.cursor)
    && (Free(listed, w.cursor) ==> IsStart(listed, start, plan.width, w.cursor))
  }

  lemma CoveredIffNotFree(plan: Plan, w: Walk, listed: seq<Range>, start: int)
    requires plan.width > 0 && Follows(plan, w, listed, start)
    ensures Covering(w.existing, w.cursor).None? <==> Free(listed, w.cursor)
  {
  }

  // ---------------------------------------------------------------------------------
  // Jumping over a range
  // ---------------------------------------------------------------------------------

  lemma JumpFollows(plan: Plan, w: Walk, listed: seq<Range>, start: int)
    requires plan.width > 0 && Follows(plan, w, listed, start) && !Free(listed, w.cursor)
    ensures Follows(plan, Step(plan, w), listed, start)
    ensures forall t :: w.cursor <= t < Step(plan, w).cursor ==> !IsStart(listed, start, plan.width, t)
  {
    CoveredIffNotFree(plan, w, listed, start);
    var hi := Step(plan, w).cursor;
    var r :| r in w.existing && Contains(r, w.cursor) && r.hi == hi;
    assert r in listed;
    forall t | w.cursor <= t < hi ensures !IsStart(listed, start, plan.width, t) {
      assert Contains(r, t);
      assert !Free(listed, t);
    }
    if Free(listed, hi) {
      assert Aligned(0, plan.width) by { DivUnique(0, plan.width, 0, 0); }
      assert FreeThrough(listed, hi, hi);
      assert StartsFrom(listed, start, plan.width, hi, hi);
    }
  }

  // ---------------------------------------------------------------------------------
  // Creating a partition
  // ---------------------------------------------------------------------------------

  lemma DifferenceAligned(a: int, b: int, unit: int)
    requires unit > 0
    ensures Aligned(a, unit) && Aligned(b, unit) ==> Aligned(a - b, unit)
  {
    if Aligned(a, unit) && Aligned(b, unit) {
      var q := a / unit - b / unit;
      assert a == unit * (a / unit) && b == unit * (b / unit);
      assert a - b == unit * q + 0;
      DivUnique(a - b, unit, q, 0);
    }
  }

  lemma SmallNotAligned(x: int, unit: int)
    requires 0 < x < unit
    ensures !Aligned(x, unit)
  {
    DivUnique(x, unit, 0, x);
  }

  /** Up to its end the new range holds no listed one. */
  lemma NewRangeIsFree(plan: Plan, w: Walk, listed: seq<Range>, start: int, u: int)
    requires plan.width > 0 && Follows(plan, w, listed, start) && Free(listed, w.cursor)
    requires w.cursor <= u < NextRange(plan, w).hi
    ensures Free(listed, u)
  {
    forall r | r in listed ensures !Contains(r, u) {
      assert !Contains(r, w.cursor) && r in w.existing;
    }
  }

  /** A gap that reaches a moment without interruption begins no earlier than any other begins before it. */
  lemma GapIsLatest(listed: seq<Range>, start: int, g: int, h: int, t: int)
    requires start <= g && h <= t && GapBegins(listed, start, h) && FreeThrough(listed, g, t)
    requires forall r :: r in listed ==> r.lo < r.hi
    ensures h <= g
  {
    forall r | r in listed && r.hi == h ensures h <= g {
      assert Contains(r, h - 1);
      assert g <= h - 1 ==> Free(listed, h - 1);
    }
  }

  lemma NoGapInside(plan: Plan, w: Walk, listed: seq<Range>, start: int, g: int)
    requires plan.width > 0 && Follows(plan, w, listed, start) && Free(listed, w.cursor)
    requires GapBegins(listed, start, g) && g < NextRange(plan, w).hi
    ensures g <= w.cursor
  {
    forall r | r in listed && r.hi == g ensures g <= w.cursor {
      assert !Contains(r, w.cursor) && r in w.existing;
    }
  }

  lemma NoStartFrom(plan: Plan, w: Walk, listed: seq<Range>, start: int, g: int, t: int)
    requires plan.width > 0 && Follows(plan, w, listed, start) && Free(listed, w.cursor)
    requires w.cursor < t < NextRange(plan, w).hi
    ensures !StartsFrom(listed, start, plan.width, g, t)
  {
    var c := w.cursor;
    var g0 :| StartsFrom(listed, start, plan.width, g0, c);
    if start <= g <= t && GapBegins(listed, start, g) && FreeThrough(listed, g, t) {
      NoGapInside(plan, w, listed, start, g);
      assert forall r :: r in listed ==> r.lo < r.hi;
      GapIsLatest(listed, start, g, g0, t);
      GapIsLatest(listed, start, g0, g, c);
      DifferenceAligned(t - g, c - g, plan.width);
      SmallNotAligned(t - c, plan.width);
    }
  }

  lemma NoStartInside(plan: Plan, w: Walk, listed: seq<Range>, start: int, t: int)
    requires plan.width > 0 && Follows(plan, w, listed, start) && Free(listed, w.cursor)
    requires w.cursor < t < NextRange(plan, w).hi
    ensures !IsStart(listed, start, plan.width, t)
  {
    forall g ensures !StartsFrom(listed, start, plan.width, g, t) {
      NoStartFrom(plan, w, listed, start, g, t);
    }
  }

  lemma NextIsStart(plan: Plan, w: Walk, listed: seq<Range>, start: int)
    requires plan.width > 0 && Follows(plan, w, listed, start) && Free(listed, w.cursor) && Free(listed, NextRange(plan, w).hi)
    ensures IsStart(listed, start, plan.width, NextRange(plan, w).hi)
  {
    var c, hi := w.cursor, NextRange(plan, w).hi;
    forall r | r in w.existing ensures r.lo != hi {
      assert r !in listed || !Contains(r, hi);
    }
    assert hi == c + plan.width;
    var g :| StartsFrom(listed, start, plan.width, g, c);
    forall u | g <= u <= hi ensures Free(listed, u) {
      if c <= u < hi {
        NewRangeIsFree(plan, w, listed, start, u);
      }
    }
    assert Aligned(plan.width, plan.width) by { DivUnique(plan.width, plan.width, 1, 0); }
    SumAligned(c - g, plan.width, plan.width);
    assert c - g + plan.width == hi - g;
    assert StartsFrom(listed, start, plan.width, g, hi);
  }

  lemma CreateFollows(plan: Plan, w: Walk, listed: seq<Range>, start: int)
    requires plan.width > 0 && Follows(plan, w, listed, start) && Free(listed, w.cursor)
    ensures Follows(plan, Step(plan, w), listed, start) && Step(plan, w).cursor == NextRange(plan, w).hi > w.cursor
    ensures forall t :: w.cursor < t < Step(plan, w).cursor ==> !IsStart(listed, start, plan.width, t)
  {
    CoveredIffNotFree(plan, w, listed, start);
    forall t | w.cursor < t < Step(plan, w).cursor ensures !IsStart(listed, start, plan.width, t) {
      NoStartInside(plan, w, listed, start, t);
    }
    if Free(listed, NextRange(plan, w).hi) {
      NextIsStart(plan, w, listed, start);
    }
  }

  // ---------------------------------------------------------------------------------
  // The exact condition
  // ---------------------------------------------------------------------------------

  lemma FreshAfterJump(plan: Plan, parts: map<Name, Range>, listed: seq<Range>, start: int, from: int, to: int)
    requires plan.width > 0 && from <= to && forall t :: from <= t < to ==> !IsStart(listed, start, plan.width, t)
    ensures NamesFresh(plan, parts, listed, start, from) <==> NamesFresh(plan, parts, listed, start, to)
  {
  }

  lemma FreshAfterCreate(plan: Plan, parts: map<Name, Range>, r: Range, listed: seq<Range>, start: int, from: int, to: int)
    requires plan.width > 0 && from < to && from < plan.end && IsStart(listed, start, plan.width, from)
    requires forall t :: from < t < to ==> !IsStart(listed, start, plan.width, t)
    ensures NamesFresh(plan, parts, listed, start, from) <==>
            NameOf(plan.width, from) !in parts && NamesFresh(plan, parts[NameOf(plan.width, from) := r], listed, start, to)
  {
    var parts' := parts[NameOf(plan.width, from) := r];
    if NameOf(plan.width, from) !in parts && NamesFresh(plan, parts', listed, start, to) {
      forall t | from <= t < plan.end && IsStart(listed, start, plan.width, t) ensures NameOf(plan.width, t) !in parts {
        assert t == from || NameOf(plan.width, t) !in parts';
      }
      forall t, u | from <= t < u < plan.end && IsStart(listed, start, plan.width, t) && IsStart(listed, start, plan.width, u)
        ensures NameOf(plan.width, t) != NameOf(plan.width, u)
      {
        assert NameOf(plan.width, u) !in parts';
      }
    }
  }

  /** A create before the end: the rest of the walk decides the rest of the names. */
  lemma CreateDecides(plan: Plan, w: Walk, n: nat, listed: seq<Range>, start: int)
    requires plan.width > 0 && plan.defaultRows == {} && Follows(plan, w, listed, start) && Free(listed, w.cursor)
    requires n > 0 && w.cursor < plan.end
    ensures var w' := Step(plan, w);
            && (NoneBlocked(plan, w, n) <==> NameOf(plan.width, w.cursor) !in w.parts && NoneBlocked(plan, w', n - 1))
            && (NamesFresh(plan, w.parts, listed, start, w.cursor) <==>
                  NameOf(plan.width, w.cursor) !in w.parts && NamesFresh(plan, w'.parts, listed, start, w'.cursor))
  {
    CoveredIffNotFree(plan, w, listed, start);
    CreateFollows(plan, w, listed, start);
    FreshAfterCreate(plan, w.parts, NextRange(plan, w), listed, start, w.cursor, Step(plan, w).cursor);
  }

  /** So does a jump. */
  lemma JumpDecides(plan: Plan, w: Walk, n: nat, listed: seq<Range>, start: int)
    requires plan.width > 0 && Follows(plan, w, listed, start) && !Free(listed, w.cursor)
    requires n > 0 && w.cursor < plan.end
    ensures var w' := Step(plan, w);
            && (NoneBlocked(plan, w, n) <==> NoneBlocked(plan, w', n - 1))
            && (NamesFresh(plan, w.parts, listed, start, w.cursor) <==> NamesFresh(plan, w'.parts, listed, start, w'.cursor))
  {
    CoveredIffNotFree(plan, w, listed, start);
    JumpFollows(plan, w, listed, start);
    JumpAdvances(plan, w);
    FreshAfterJump(plan, w.parts, listed, start, w.cursor, Step(plan, w).cursor);
  }

  lemma {:induction false} WalkIsUnblockedExactlyWhenFresh(plan: Plan, w: Walk, n: nat, listed: seq<Range>, start: int)
    requires plan.width > 0 && plan.defaultRows == {} && Follows(plan, w, listed, start)
    requires Iterate(plan, w, n).cursor >= plan.end
    ensures NoneBlocked(plan, w, n) <==> NamesFresh(plan, w.parts, listed, start, w.cursor)
    decreases n
  {
    if w.cursor < plan.end {
      if Free(listed, w.cursor) {
        CreateFollows(plan, w, listed, start);
        CreateDecides(plan, w, n, listed, start);
      } else {
        JumpFollows(plan, w, listed, start);
        JumpDecides(plan, w, n, listed, start);
      }
      WalkIsUnblockedExactlyWhenFresh(plan, Step(plan, w), n - 1, listed, start);
    }
  }

  lemma JumpAdvances(plan: Plan, w: Walk)
    requires plan.width > 0 && Covering(w.existing, w.cursor).Some?
    ensures Step(plan, w).cursor > w.cursor && Step(plan, w).parts == w.parts && !Blocked(plan, w)
  {
  }

  /** The promise, with its exact condition on the catalog: with nothing in the DEFAULT partition and room
      in the loop, there is no gap from the bucket of now until the end if and only if the names of the
      partitions due in the gaps of the existing ones are free and distinct. */
  lemma NoGapExactlyWhenNamesFresh(plan: Plan, parts: map<Name, Range>, listed: seq<Range>, now: int, ahead: int)
    requires plan.width > 0 && plan.defaultRows == {} && ahead > 0 && plan.end == now + ahead && Catalogued(parts, listed)
    requires 2 * |listed| + ahead / plan.width + 2 <= MAX_STEPS
    ensures var start := Bucket(now, plan.width);
            Covers(Iterate(plan, Walk(parts, listed, start, 0), MAX_STEPS).parts, start, plan.end) <==>
            NamesFresh(plan, parts, listed, start, start)
  {
    var start := Bucket(now, plan.width);
    var w := Walk(parts, listed, start, 0);
    LoopReachesEnd(plan, w, now, ahead);
    CoveredExactlyWhenUnblocked(plan, w, MAX_STEPS);
    if Free(listed, start) {
      assert Aligned(0, plan.width) by { DivUnique(0, plan.width, 0, 0); }
      assert FreeThrough(listed, start, start);
      assert StartsFrom(listed, start, plan.width, start, start);
    }
    WalkIsUnblockedExactlyWhenFresh(plan, w, MAX_STEPS, listed, start);
  }
}
