/** Ordering periods by start instant: the stable sort both revisions of the
    interval code perform, stated as a function, and the facts that pin it down. */
module PeriodSort {
  import opened Domain

  predicate SortedByStart(s: seq<Period>)
  {
    forall i, j :: 0 <= i < j < |s| ==> s[i].start <= s[j].start
  }

  /** The periods of `s` that start at `k`, in their order in `s`. */
  function StartingAt(s: seq<Period>, k: Instant): seq<Period>
  {
    if s == [] then [] else (if s[0].start == k then [s[0]] else []) + StartingAt(s[1..], k)
  }

  /** `a` and `b` hold the same periods, and periods with equal starts appear
      in the same relative order: what a stable reordering keeps. */
  ghost predicate SameStartGroups(a: seq<Period>, b: seq<Period>)
  {
    forall k :: StartingAt(a, k) == StartingAt(b, k)
  }

  /** Puts `p` after every period of `s` that starts no later than it. */
  function InsertByStart(p: Period, s: seq<Period>): (r: seq<Period>)
    ensures |r| == |s| + 1
    ensures multiset(r) == multiset(s) + multiset{p}
  {
    if s == [] then [p]
    else if p.start < s[0].start then [p] + s
    else
      assert s == [s[0]] + s[1..];
      [s[0]] + InsertByStart(p, s[1..])
  }

  /** Insertion sort that inserts each later period behind the earlier ones
      with the same start. */
  function StableSortByStart(s: seq<Period>): (r: seq<Period>)
    ensures |r| == |s|
    ensures multiset(r) == multiset(s)
  {
    if s == [] then []
    else
      assert s == s[..|s| - 1] + [s[|s| - 1]];
      InsertByStart(s[|s| - 1], StableSortByStart(s[..|s| - 1]))
  }

  lemma {:induction false} StartingAtConcat(a: seq<Period>, b: seq<Period>, k: Instant)
    ensures StartingAt(a + b, k) == StartingAt(a, k) + StartingAt(b, k)
  {
    if a == [] {
      assert a + b == b;
    } else {
      var head := if a[0].start == k then [a[0]] else [];
      assert (a + b)[0] == a[0];
      assert (a + b)[1..] == a[1..] + b;
      assert StartingAt(a + b, k) == head + StartingAt(a[1..] + b, k);
      assert StartingAt(a, k) == head + StartingAt(a[1..], k);
      StartingAtConcat(a[1..], b, k);
    }
  }

  lemma {:induction false} StartingAtMember(s: seq<Period>, k: Instant, x: Period)
    requires x in StartingAt(s, k)
    ensures x in s && x.start == k
  {
    if s[0].start == k && x == s[0] {
    } else {
      StartingAtMember(s[1..], k, x);
    }
  }

  lemma {:induction false} StartingAtNonEmpty(s: seq<Period>, i: int)
    requires 0 <= i < |s|
    ensures StartingAt(s, s[i].start) != []
  {
    if i > 0 {
      StartingAtNonEmpty(s[1..], i - 1);
    }
  }

  /** Swapping two neighbours with different starts keeps every start group. */
  lemma SwapKeepsStartGroups(s: seq<Period>, j: int)
    requires 0 <= j < |s| - 1 && s[j].start != s[j + 1].start
    ensures SameStartGroups(s[j := s[j + 1]][j + 1 := s[j]], s)
  {
    var t := s[j := s[j + 1]][j + 1 := s[j]];
    assert s == s[..j] + [s[j], s[j + 1]] + s[j + 2..];
    assert t == s[..j] + [s[j + 1], s[j]] + s[j + 2..];
    forall k
      ensures StartingAt(t, k) == StartingAt(s, k)
    {
      StartingAtConcat(s[..j] + [s[j], s[j + 1]], s[j + 2..], k);
      StartingAtConcat(s[..j], [s[j], s[j + 1]], k);
      StartingAtConcat(s[..j] + [s[j + 1], s[j]], s[j + 2..], k);
      StartingAtConcat(s[..j], [s[j + 1], s[j]], k);
      assert [s[j], s[j + 1]][1..] == [s[j + 1]];
      assert [s[j + 1], s[j]][1..] == [s[j]];
    }
  }

  lemma StartingAtCons(p: Period, s: seq<Period>, k: Instant)
    ensures StartingAt([p] + s, k) == (if p.start == k then [p] else []) + StartingAt(s, k)
  {
    assert ([p] + s)[0] == p && ([p] + s)[1..] == s;
  }

  /** Dropping the first period keeps a list sorted. */
  lemma TailSorted(s: seq<Period>)
    requires SortedByStart(s) && s != []
    ensures SortedByStart(s[1..])
  {
    forall i, j | 0 <= i < j < |s[1..]|
      ensures s[1..][i].start <= s[1..][j].start
    {
      assert s[1..][i] == s[i + 1] && s[1..][j] == s[j + 1];
    }
  }

  /** Putting a period no later than the head in front keeps a list sorted. */
  lemma ConsSorted(p: Period, s: seq<Period>)
    requires SortedByStart(s) && (s != [] ==> p.start <= s[0].start)
    ensures SortedByStart([p] + s)
  {
    var t := [p] + s;
    forall i, j | 0 <= i < j < |t|
      ensures t[i].start <= t[j].start
    {
      assert t[j] == s[j - 1];
      if i > 0 {
        assert t[i] == s[i - 1];
      }
    }
  }

  lemma {:induction false} InsertByStartSorted(p: Period, s: seq<Period>)
    requires SortedByStart(s)
    ensures SortedByStart(InsertByStart(p, s))
  {
    if s == [] {
      assert InsertByStart(p, s) == [p];
    } else if p.start < s[0].start {
      ConsSorted(p, s);
    } else {
      var tail := s[1..];
      TailSorted(s);
      var r := InsertByStart(p, tail);
      InsertByStartSorted(p, tail);
      if tail == [] {
        assert r == [p];
      } else if p.start < tail[0].start {
        assert r == [p] + tail;
      } else {
        assert r == [tail[0]] + InsertByStart(p, tail[1..]);
        assert tail[0] == s[1];
      }
      assert s[0].start <= r[0].start;
      assert InsertByStart(p, s) == [s[0]] + r;
      ConsSorted(s[0], r);
    }
  }

  /** Putting the same period in front of two lists keeps a relation between
      their start groups. */
  lemma ConsKeepsGroups(x: Period, a: seq<Period>, b: seq<Period>, extra: seq<Period>, k: Instant)
    requires StartingAt(a, k) == StartingAt(b, k) + extra
    ensures StartingAt([x] + a, k) == StartingAt([x] + b, k) + extra
  {
    StartingAtCons(x, a, k);
    StartingAtCons(x, b, k);
    var head := if x.start == k then [x] else [];
    assert head + (StartingAt(b, k) + extra) == (head + StartingAt(b, k)) + extra;
  }

  /** A period placed in front of a sorted list that starts later forms a
      start group of its own. */
  lemma InsertFrontGroups(p: Period, s: seq<Period>, k: Instant)
    requires SortedByStart(s) && s != [] && p.start < s[0].start
    ensures StartingAt(InsertByStart(p, s), k) == StartingAt(s, k) + (if p.start == k then [p] else [])
  {
    assert InsertByStart(p, s) == [p] + s;
    StartingAtCons(p, s, k);
    if p.start == k {
      StartingAtNone(s, k);
    }
  }

  lemma {:induction false} InsertByStartGroups(p: Period, s: seq<Period>, k: Instant)
    requires SortedByStart(s)
    ensures StartingAt(InsertByStart(p, s), k) == StartingAt(s, k) + (if p.start == k then [p] else [])
  {
    var own := if p.start == k then [p] else [];
    if s == [] {
      StartingAtCons(p, [], k);
      assert [p] + [] == [p];
    } else if p.start < s[0].start {
      InsertFrontGroups(p, s, k);
    } else {
      var tail := s[1..];
      TailSorted(s);
      InsertByStartGroups(p, tail, k);
      ConsKeepsGroups(s[0], InsertByStart(p, tail), tail, own, k);
      assert InsertByStart(p, s) == [s[0]] + InsertByStart(p, tail);
      assert s == [s[0]] + tail;
    }
  }


  /** No period of a sorted sequence starts before its first one. */
  lemma StartingAtNone(s: seq<Period>, k: Instant)
    requires SortedByStart(s) && s != [] && k < s[0].start
    ensures StartingAt(s, k) == []
  {
    if StartingAt(s, k) != [] {
      StartingAtMember(s, k, StartingAt(s, k)[0]);
    }
  }

  /** The functional sort orders by start and keeps equal starts in input order. */
  lemma {:induction false} StableSortByStartCorrect(s: seq<Period>)
    ensures SortedByStart(StableSortByStart(s))
    ensures SameStartGroups(StableSortByStart(s), s)
  {
    if s != [] {
      var init, last := s[..|s| - 1], s[|s| - 1];
      assert s == init + [last];
      StableSortByStartCorrect(init);
      InsertByStartSorted(last, StableSortByStart(init));
      forall k
        ensures StartingAt(StableSortByStart(s), k) == StartingAt(s, k)
      {
        InsertByStartGroups(last, StableSortByStart(init), k);
        StartingAtConcat(init, [last], k);
      }
    }
  }

  /** A sorted sequence is determined by its start groups. */
  lemma {:induction false} SortedUnique(a: seq<Period>, b: seq<Period>)
    requires SortedByStart(a) && SortedByStart(b) && SameStartGroups(a, b)
    ensures a == b
  {
    if a == [] || b == [] {
      if a != [] {
        StartingAtNonEmpty(a, 0);
        assert false;
      }
      if b != [] {
        StartingAtNonEmpty(b, 0);
        assert false;
      }
    } else {
      var m, n := a[0].start, b[0].start;
      assert m <= n by {
        StartingAtNonEmpty(b, 0);
        assert StartingAt(a, n) == StartingAt(b, n);
        StartingAtMember(a, n, StartingAt(a, n)[0]);
        var i :| 0 <= i < |a| && a[i] == StartingAt(a, n)[0];
      }
      assert n <= m by {
        StartingAtNonEmpty(a, 0);
        assert StartingAt(b, m) == StartingAt(a, m);
        StartingAtMember(b, m, StartingAt(b, m)[0]);
        var i :| 0 <= i < |b| && b[i] == StartingAt(b, m)[0];
      }
      assert a == [a[0]] + a[1..] && b == [b[0]] + b[1..];
      assert a[0] == b[0] by {
        StartingAtCons(a[0], a[1..], m);
        StartingAtCons(b[0], b[1..], m);
        assert StartingAt(a, m) == StartingAt(b, m);
      }
      forall k
        ensures StartingAt(a[1..], k) == StartingAt(b[1..], k)
      {
        StartingAtCons(a[0], a[1..], k);
        StartingAtCons(b[0], b[1..], k);
        var head := if a[0].start == k then [a[0]] else [];
        assert head + StartingAt(a[1..], k) == head + StartingAt(b[1..], k);
        assert StartingAt(a[1..], k) == (head + StartingAt(a[1..], k))[|head|..];
        assert StartingAt(b[1..], k) == (head + StartingAt(b[1..], k))[|head|..];
      }
      TailSorted(a);
      TailSorted(b);
      SortedUnique(a[1..], b[1..]);
    }
  }


  /** Any sorted, stable rearrangement of `s` is the functional sort of `s`. */
  lemma SortedStableIsSort(r: seq<Period>, s: seq<Period>)
    requires SortedByStart(r) && SameStartGroups(r, s)
    ensures r == StableSortByStart(s)
  {
    StableSortByStartCorrect(s);
    SortedUnique(r, StableSortByStart(s));
  }

  /** Sorting an already sorted sequence changes nothing. */
  lemma SortSortedIdentity(s: seq<Period>)
    requires SortedByStart(s)
    ensures StableSortByStart(s) == s
  {
    SortedStableIsSort(s, s);
  }

  // The bubble sort's loops, stated on sequences.

  /** No period among the first `hi` of `s` starts later than `bound`. */
  ghost predicate StartsAtMost(s: seq<Period>, hi: int, bound: Instant)
  {
    forall k :: 0 <= k < hi && k < |s| ==> s[k].start <= bound
  }

  /** From `lo` on, `s` is sorted by start and nothing before `lo` starts later
      than anything from `lo` on: what the outer loop has established after
      `|s| - lo` passes. */
  ghost predicate SettledFrom(s: seq<Period>, lo: int)
  {
    forall p, q :: 0 <= p < q < |s| && lo <= q ==> s[p].start <= s[q].start
  }

  /** One compare-and-swap of the inner loop at `j`. */
  function CompareSwap(s: seq<Period>, j: int): (t: seq<Period>)
    requires 0 <= j < |s| - 1
    ensures |t| == |s|
  {
    if s[j].start > s[j + 1].start then s[j := s[j + 1]][j + 1 := s[j]] else s
  }

  /** A compare-and-swap carries the latest start seen so far one place right,
      keeps every start group, touches nothing after `j + 1`, and cannot lift
      the prefix above a bound. */
  lemma CompareSwapStep(s: seq<Period>, j: int, last: int, bound: Instant)
    requires 0 <= j < last < |s|
    requires StartsAtMost(s, j, s[j].start)
    ensures var t := CompareSwap(s, j);
      && StartsAtMost(t, j + 1, t[j + 1].start)
      && t[last + 1..] == s[last + 1..]
      && (StartsAtMost(s, last + 1, bound) ==> StartsAtMost(t, last + 1, bound))
      && SameStartGroups(t, s)
      && multiset(t) == multiset(s)
  {
    if s[j].start > s[j + 1].start {
      var t := s[j := s[j + 1]][j + 1 := s[j]];
      assert CompareSwap(s, j) == t;
      SwapKeepsStartGroups(s, j);
      SwapKeepsMultiset(s, j);
      SwapCarriesMax(s, j);
      SwapKeepsBound(s, j, last, bound);
    } else {
      assert CompareSwap(s, j) == s;
    }
  }

  lemma SwapKeepsMultiset(s: seq<Period>, j: int)
    requires 0 <= j < |s| - 1
    ensures multiset(s[j := s[j + 1]][j + 1 := s[j]]) == multiset(s)
  {
    var t := s[j := s[j + 1]][j + 1 := s[j]];
    assert s == s[..j] + [s[j], s[j + 1]] + s[j + 2..];
    assert t == s[..j] + [s[j + 1], s[j]] + s[j + 2..];
  }

  lemma SwapCarriesMax(s: seq<Period>, j: int)
    requires 0 <= j < |s| - 1 && s[j].start > s[j + 1].start
    requires StartsAtMost(s, j, s[j].start)
    ensures StartsAtMost(s[j := s[j + 1]][j + 1 := s[j]], j + 1, s[j].start)
  {
    var t := s[j := s[j + 1]][j + 1 := s[j]];
    forall k | 0 <= k < j + 1 && k < |t|
      ensures t[k].start <= s[j].start
    {
      if k < j {
        assert t[k] == s[k];
      }
    }
  }

  lemma SwapKeepsBound(s: seq<Period>, j: int, last: int, bound: Instant)
    requires 0 <= j < last < |s|
    ensures var t := s[j := s[j + 1]][j + 1 := s[j]];
      && t[last + 1..] == s[last + 1..]
      && (StartsAtMost(s, last + 1, bound) ==> StartsAtMost(t, last + 1, bound))
  {
    var t := s[j := s[j + 1]][j + 1 := s[j]];
    assert t[last + 1..] == s[last + 1..];
    if StartsAtMost(s, last + 1, bound) {
      forall k | 0 <= k < last + 1 && k < |t|
        ensures t[k].start <= bound
      {
        if k == j {
          assert t[k] == s[j + 1];
        } else if k == j + 1 {
          assert t[k] == s[j];
        } else {
          assert t[k] == s[k];
        }
      }
    }
  }

  /** One full inner pass turns "settled from `last + 1`" into "settled from
      `last`", given the bound the next settled period sets. */
  lemma PassSettles(s: seq<Period>, t: seq<Period>, last: int, bound: Instant)
    requires 0 <= last < |s| == |t|
    requires SettledFrom(s, last + 1)
    requires last + 1 < |s| ==> bound == s[last + 1].start
    requires t[last + 1..] == s[last + 1..]
    requires StartsAtMost(t, last + 1, t[last].start)
    requires StartsAtMost(s, last + 1, bound) ==> StartsAtMost(t, last + 1, bound)
    ensures SettledFrom(t, last)
  {
    forall p, q | 0 <= p < q < |t| && last <= q
      ensures t[p].start <= t[q].start
    {
      if q > last {
        assert t[q] == t[last + 1..][q - last - 1] == s[q];
        assert t[last + 1] == s[last + 1];
        if p > last {
          assert t[p] == t[last + 1..][p - last - 1] == s[p];
        } else {
          assert StartsAtMost(s, last + 1, bound) by {
            forall k | 0 <= k < last + 1
              ensures s[k].start <= bound
            {
              assert s[k].start <= s[last + 1].start;
            }
          }
          assert t[p].start <= bound;
        }
      }
    }
  }
}
