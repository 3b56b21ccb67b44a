/** The older copy of the interval code kept under booking-service/. Its
    methods are written out again and proved against the same specification
    functions as the current copy, which makes the two copies extensionally
    equal. */
module LegacyIntervals {
  import opened Domain
  import opened PeriodSort
  import opened PeriodAlgebra
  import Intervals

  /** The later of two instants; declared here again because this copy of the
      code has its own `maxTime`. */
  function MaxTime(a: Instant, b: Instant): (m: Instant)
    ensures m >= a && m >= b
    ensures m == a || m == b
  {
    if a > b then a else b
  }

  /** Bubble sort by start; neighbours are swapped only when the first starts
      strictly later, so equal starts keep their order. */
  method SortPeriodsByStartTime(periods: array<Period>)
    modifies periods
    ensures SortedByStart(periods[..])
    ensures SameStartGroups(periods[..], old(periods[..]))
    ensures multiset(periods[..]) == multiset(old(periods[..]))
    ensures periods[..] == StableSortByStart(old(periods[..]))
  {
    var n := periods.Length;
    var i := 0;
    while i < n - 1
      invariant 0 <= i <= n && (n > 0 ==> i <= n - 1)
      invariant SettledFrom(periods[..], n - i)
      invariant SameStartGroups(periods[..], old(periods[..]))
      invariant multiset(periods[..]) == multiset(old(periods[..]))
    {
      ghost var before := periods[..];
      ghost var bound := if i > 0 then periods[n - i].start else 0;
      BubblePass(periods, n - 1 - i, bound);
      PassSettles(before, periods[..], n - 1 - i, bound);
      i := i + 1;
    }
    SortedStableIsSort(periods[..], old(periods[..]));
  }

  /** One pass of the bubble sort over `periods[..last + 1]`: it leaves the
      latest start of that prefix at `last`, moves nothing behind it, and never
      raises the prefix above a bound it was already under. */
  method BubblePass(periods: array<Period>, last: int, ghost bound: Instant)
    requires 0 <= last < periods.Length
    modifies periods
    ensures StartsAtMost(periods[..], last + 1, periods[last].start)
    ensures periods[last + 1..] == old(periods[last + 1..])
    ensures StartsAtMost(old(periods[..]), last + 1, bound) ==> StartsAtMost(periods[..], last + 1, bound)
    ensures SameStartGroups(periods[..], old(periods[..]))
    ensures multiset(periods[..]) == multiset(old(periods[..]))
  {
    ghost var bounded := StartsAtMost(periods[..], last + 1, bound);
    var j := 0;
    while j < last
      invariant 0 <= j <= last
      invariant StartsAtMost(periods[..], j, periods[j].start)
      invariant periods[last + 1..] == old(periods[last + 1..])
      invariant bounded ==> StartsAtMost(periods[..], last + 1, bound)
      invariant SameStartGroups(periods[..], old(periods[..]))
      invariant multiset(periods[..]) == multiset(old(periods[..]))
    {
      CompareSwapStep(periods[..], j, last, bound);
      CompareAndSwap(periods, j);
      j := j + 1;
    }
  }

  /** The inner loop's body: exchanges the neighbours at `j` and `j + 1` when
      the first starts strictly later. */
  method CompareAndSwap(periods: array<Period>, j: int)
    requires 0 <= j < periods.Length - 1
    modifies periods
    ensures periods[..] == CompareSwap(old(periods[..]), j)
  {
    if periods[j].start > periods[j + 1].start {
      periods[j], periods[j + 1] := periods[j + 1], periods[j];
    }
  }

  /** Sorts `periods` in place (as the source does, so the caller's slice ends
      up sorted) and returns the merged list. */
  method MergeOverlappingPeriods(periods: array<Period>) returns (merged: seq<Period>)
    modifies periods
    ensures merged == Merge(old(periods[..]))
    ensures periods[..] == StableSortByStart(old(periods[..]))
    ensures periods.Length <= 1 ==> merged == old(periods[..])
    ensures SortedByStart(merged) && Separated(merged) && |merged| <= periods.Length
    ensures forall t :: Covers(merged, t) <==> Covers(old(periods[..]), t)
  {
    ghost var input := periods[..];
    if periods.Length <= 1 {
      merged := periods[..];
    } else {
      SortPeriodsByStartTime(periods);
      merged := SweepSorted(periods);
      assert periods[..][1..] == periods[1..];
    }
    MergeShape(input);
    forall t
      ensures Covers(merged, t) <==> Covers(input, t)
    {
      MergeCovers(input, t);
    }
  }

  /** The loop of the merge: one accumulator, extended while the next period
      starts no later than its end, emitted otherwise. */
  method SweepSorted(periods: array<Period>) returns (merged: seq<Period>)
    requires periods.Length >= 2
    ensures merged == Sweep(periods[0], periods[1..])
  {
    merged := [];
    var current := periods[0];
    var i := 1;
    while i < periods.Length
      invariant 1 <= i <= periods.Length
      invariant merged + Sweep(current, periods[i..]) == Sweep(periods[0], periods[1..])
    {
      assert periods[i..][0] == periods[i] && periods[i..][1..] == periods[i + 1..];
      if periods[i].start < current.end || periods[i].start == current.end {
        current := current.(end := MaxTime(current.end, periods[i].end));
      } else {
        merged := merged + [current];
        current := periods[i];
      }
      i := i + 1;
    }
    merged := merged + [current];
  }

  /** Appends `newPeriod` and merges. */
  method InsertPeriod(newPeriod: Period, periods: seq<Period>) returns (r: seq<Period>)
    ensures r == Merge(periods + [newPeriod])
    ensures SortedByStart(r) && Separated(r) && 1 <= |r| <= |periods| + 1
    ensures forall t :: Covers(r, t) <==> (Covers(periods, t) || newPeriod.start <= t <= newPeriod.end)
  {
    var appended := new Period[|periods| + 1](i requires 0 <= i <= |periods| =>
      if i < |periods| then periods[i] else newPeriod);
    assert appended[..] == periods + [newPeriod];
    r := MergeOverlappingPeriods(appended);
    MergeShape(periods + [newPeriod]);
    forall t
      ensures Covers(r, t) <==> (Covers(periods, t) || newPeriod.start <= t <= newPeriod.end)
    {
      Intervals.CoversAppend(periods, newPeriod, t);
    }
  }

  /** Subtracts `toRemove` from every period, keeping the pieces in input order. */
  method RemovePeriod(toRemove: Period, periods: seq<Period>) returns (result: seq<Period>)
    ensures result == Subtract(toRemove, periods)
    ensures |result| <= 2 * |periods|
  {
    result := [];
    for i := 0 to |periods|
      invariant result == Subtract(toRemove, periods[..i])
    {
      assert periods[..i + 1][..i] == periods[..i] && periods[..i + 1][i] == periods[i];
      var period := periods[i];
      if toRemove.start > period.end || toRemove.end < period.start {
        result := result + [period];
      } else {
        if toRemove.start > period.start && toRemove.end < period.end {
          result := result + [Fragment(period.start, toRemove.start)];
          result := result + [Fragment(toRemove.end, period.end)];
        } else if toRemove.start > period.start && toRemove.start < period.end {
          result := result + [Fragment(period.start, toRemove.start)];
        } else if toRemove.end > period.start && toRemove.end < period.end {
          result := result + [Fragment(toRemove.end, period.end)];
        }
      }
    }
    assert periods[..|periods|] == periods;
    SubtractLength(toRemove, periods);
  }
}
