/** The interval algebra as functions: the merge sweep, the merge of a whole
    period list, and the subtraction of one span. Both revisions of the
    interval code are proved against these definitions. */
module PeriodAlgebra {
  import opened Domain
  import opened PeriodSort

  /** The later of two instants; on a tie either one. */
  function MaxTime(a: Instant, b: Instant): (m: Instant)
    ensures m >= a && m >= b
    ensures m == a || m == b
  {
    if a > b then a else b
  }

  /** Instant `t` lies in some period of `s` (periods are closed intervals). */
  predicate Covers(s: seq<Period>, t: Instant)
  {
    exists i :: 0 <= i < |s| && s[i].start <= t <= s[i].end
  }

  /** Each period starts strictly after the previous one ends. */
  predicate Separated(s: seq<Period>)
  {
    forall i :: 0 <= i < |s| - 1 ==> s[i].end < s[i + 1].start
  }

  /** Everything but the end instant agrees. */
  predicate SameHead(x: Period, y: Period)
  {
    x.id == y.id && x.start == y.start && x.reason == y.reason
  }

  predicate StartsNoEarlier(cur: Period, rest: seq<Period>)
  {
    forall i :: 0 <= i < |rest| ==> cur.start <= rest[i].start
  }

  /** The merge loop from its accumulator `cur` over the periods still to visit:
      a period starting at or before the accumulator's end extends it, any
      other period closes it. */
  function Sweep(cur: Period, rest: seq<Period>): seq<Period>
    decreases |rest|
  {
    if rest == [] then [cur]
    else if rest[0].start <= cur.end then Sweep(cur.(end := MaxTime(cur.end, rest[0].end)), rest[1..])
    else [cur] + Sweep(rest[0], rest[1..])
  }

  /** Lists of at most one period are returned as they are; longer ones are
      sorted stably by start and swept. */
  function Merge(s: seq<Period>): seq<Period>
  {
    if |s| <= 1 then s
    else
      var sorted := StableSortByStart(s);
      Sweep(sorted[0], sorted[1..])
  }

  /** A period built from a start and an end only: zero id, zero reason. */
  function Fragment(start: Instant, end: Instant): Period
  {
    Period(NilObjectId, start, end, Reserved)
  }

  /** What is left of `p` once `toRemove` is taken out, branch by branch. */
  function Pieces(toRemove: Period, p: Period): seq<Period>
  {
    if toRemove.start > p.end || toRemove.end < p.start then [p]
    else if toRemove.start > p.start && toRemove.end < p.end then
      [Fragment(p.start, toRemove.start), Fragment(toRemove.end, p.end)]
    else if toRemove.start > p.start && toRemove.start < p.end then [Fragment(p.start, toRemove.start)]
    else if toRemove.end > p.start && toRemove.end < p.end then [Fragment(toRemove.end, p.end)]
    else []
  }

  /** The pieces of every period, in input order. */
  function Subtract(toRemove: Period, s: seq<Period>): seq<Period>
  {
    if s == [] then []
    else Subtract(toRemove, s[..|s| - 1]) + Pieces(toRemove, s[|s| - 1])
  }

  /** An instant lies in a concatenation iff it lies in one of its parts. */
  lemma CoversConcat(a: seq<Period>, b: seq<Period>, t: Instant)
    ensures Covers(a + b, t) <==> Covers(a, t) || Covers(b, t)
  {
    var r := a + b;
    if Covers(r, t) {
      var i :| 0 <= i < |r| && r[i].start <= t <= r[i].end;
      if i < |a| {
        assert a[i] == r[i];
      } else {
        assert b[i - |a|] == r[i];
      }
    }
    if Covers(a, t) {
      var i :| 0 <= i < |a| && a[i].start <= t <= a[i].end;
      assert r[i] == a[i];
    }
    if Covers(b, t) {
      var i :| 0 <= i < |b| && b[i].start <= t <= b[i].end;
      assert r[|a| + i] == b[i];
    }
  }

  /** A single period covers exactly its own span. */
  lemma CoversSingle(p: Period, t: Instant)
    ensures Covers([p], t) <==> p.start <= t <= p.end
  {
    if p.start <= t <= p.end {
      assert [p][0] == p;
    }
  }

  // ---------------------------------------------------------------------
  // The sweep

  /** The sweep's output is sorted, strictly separated, no longer than its
      input, and opens with the accumulator's id, start and reason. */
  lemma {:induction false} SweepShape(cur: Period, rest: seq<Period>)
    requires SortedByStart(rest) && StartsNoEarlier(cur, rest)
    ensures var r := Sweep(cur, rest);
      && 1 <= |r| <= |rest| + 1
      && SameHead(r[0], cur) && r[0].end >= cur.end
      && SortedByStart(r) && StartsNoEarlier(cur, r)
      && Separated(r)
    decreases |rest|
  {
    if rest != [] {
      assert SortedByStart(rest[1..]);
      if rest[0].start <= cur.end {
        SweepShape(cur.(end := MaxTime(cur.end, rest[0].end)), rest[1..]);
      } else {
        var tail := Sweep(rest[0], rest[1..]);
        SweepShape(rest[0], rest[1..]);
        var r := [cur] + tail;
        assert r[1..] == tail;
        forall i, j | 0 <= i < j < |r|
          ensures r[i].start <= r[j].start
        {
          if i > 0 {
            assert r[i] == tail[i - 1];
          }
        }
      }
    }
  }

  /** The sweep covers exactly the accumulator's span plus the rest's spans. */
  lemma {:induction false} SweepCovers(cur: Period, rest: seq<Period>, t: Instant)
    requires SortedByStart(rest) && StartsNoEarlier(cur, rest)
    ensures Covers(Sweep(cur, rest), t) <==> (cur.start <= t <= cur.end || Covers(rest, t))
    decreases |rest|
  {
    if rest == [] {
      CoversSingle(cur, t);
    } else {
      assert SortedByStart(rest[1..]);
      var r0 := rest[0];
      assert rest == [r0] + rest[1..];
      CoversConcat([r0], rest[1..], t);
      CoversSingle(r0, t);
      if r0.start <= cur.end {
        var grown := cur.(end := MaxTime(cur.end, r0.end));
        SweepCovers(grown, rest[1..], t);
      } else {
        var tail := Sweep(r0, rest[1..]);
        SweepCovers(r0, rest[1..], t);
        assert Sweep(cur, rest) == [cur] + tail;
        CoversConcat([cur], tail, t);
        CoversSingle(cur, t);
      }
    }
  }

  /** Every period the sweep emits takes id, start and reason from one input
      period and its end from one input period. */
  lemma {:induction false} SweepProvenance(cur: Period, rest: seq<Period>)
    ensures forall x :: x in Sweep(cur, rest) ==>
      && (SameHead(x, cur) || exists y :: y in rest && SameHead(x, y))
      && (x.end == cur.end || exists z :: z in rest && z.end == x.end)
    decreases |rest|
  {
    if rest != [] {
      var grown := cur.(end := MaxTime(cur.end, rest[0].end));
      SweepProvenance(grown, rest[1..]);
      SweepProvenance(rest[0], rest[1..]);
      forall x | x in Sweep(cur, rest)
        ensures SameHead(x, cur) || exists y :: y in rest && SameHead(x, y)
        ensures x.end == cur.end || exists z :: z in rest && z.end == x.end
      {
        if rest[0].start <= cur.end {
          if !SameHead(x, grown) {
            var y :| y in rest[1..] && SameHead(x, y);
            assert y in rest;
          }
          if x.end != grown.end {
            var z :| z in rest[1..] && z.end == x.end;
            assert z in rest;
          }
          assert rest[0] in rest;
        } else if x != cur {
          assert x in Sweep(rest[0], rest[1..]);
          assert rest[0] in rest;
          if !SameHead(x, rest[0]) {
            var y :| y in rest[1..] && SameHead(x, y);
            assert y in rest;
          }
          if x.end != rest[0].end {
            var z :| z in rest[1..] && z.end == x.end;
            assert z in rest;
          }
        }
      }
    }
  }

  /** Every sweep output is the accumulator's run or starts after its end. */
  lemma {:induction false} SweepOpens(cur: Period, rest: seq<Period>)
    requires SortedByStart(rest) && StartsNoEarlier(cur, rest)
    ensures forall x :: x in Sweep(cur, rest) ==> x.start == cur.start || x.start > cur.end
    decreases |rest|
  {
    if rest != [] {
      assert SortedByStart(rest[1..]);
      var r0 := rest[0];
      if r0.start <= cur.end {
        SweepOpens(cur.(end := MaxTime(cur.end, r0.end)), rest[1..]);
      } else {
        var tail := Sweep(r0, rest[1..]);
        SweepShape(r0, rest[1..]);
        assert Sweep(cur, rest) == [cur] + tail;
        forall x | x in tail
          ensures x.start > cur.end
        {
          var i :| 0 <= i < |tail| && tail[i] == x;
        }
      }
    }
  }

  /** A sweep output that holds the accumulator's start ends no earlier than
      the accumulator. */
  lemma {:induction false} SweepKeepsAccumulatorEnd(cur: Period, rest: seq<Period>)
    requires SortedByStart(rest) && StartsNoEarlier(cur, rest)
    ensures forall x :: x in Sweep(cur, rest) && x.start <= cur.start <= x.end ==> cur.end <= x.end
    decreases |rest|
  {
    if rest != [] {
      assert SortedByStart(rest[1..]);
      var r0, r1 := rest[0], rest[1..];
      if r0.start <= cur.end {
        SweepKeepsAccumulatorEnd(cur.(end := MaxTime(cur.end, r0.end)), r1);
      } else {
        var tail := Sweep(r0, r1);
        SweepShape(r0, r1);
        assert Sweep(cur, rest) == [cur] + tail;
        forall x | x in tail
          ensures r0.start <= x.start
        {
          var i :| 0 <= i < |tail| && tail[i] == x;
        }
      }
    }
  }

  /** A sweep output ends no earlier than any visited period that starts
      inside it: each run closes at the largest end among its periods. */
  lemma {:induction false} SweepRunEnds(cur: Period, rest: seq<Period>)
    requires SortedByStart(rest) && StartsNoEarlier(cur, rest)
    ensures forall x, y :: x in Sweep(cur, rest) && y in rest && x.start <= y.start <= x.end ==> y.end <= x.end
    decreases |rest|
  {
    if rest != [] {
      assert SortedByStart(rest[1..]);
      var r0, r1 := rest[0], rest[1..];
      assert rest == [r0] + r1;
      if r0.start <= cur.end {
        var grown := cur.(end := MaxTime(cur.end, r0.end));
        SweepRunEnds(grown, r1);
        SweepOpens(grown, r1);
        SweepKeepsAccumulatorEnd(grown, r1);
        RunEndsAbsorbed(grown, r0, r1, Sweep(grown, r1));
      } else {
        var tail := Sweep(r0, r1);
        SweepShape(r0, r1);
        SweepRunEnds(r0, r1);
        SweepKeepsAccumulatorEnd(r0, r1);
        assert Sweep(cur, rest) == [cur] + tail;
        RunEndsClosed(cur, r0, r1, tail);
      }
    }
  }

  /** The step of `SweepRunEnds` where the accumulator absorbs `r0`. */
  lemma RunEndsAbsorbed(grown: Period, r0: Period, r1: seq<Period>, out: seq<Period>)
    requires grown.start <= r0.start && r0.end <= grown.end
    requires forall x :: x in out ==> x.start == grown.start || x.start > grown.end
    requires forall x :: x in out && x.start <= grown.start <= x.end ==> grown.end <= x.end
    requires forall x, y :: x in out && y in r1 && x.start <= y.start <= x.end ==> y.end <= x.end
    ensures forall x, y :: x in out && y in [r0] + r1 && x.start <= y.start <= x.end ==> y.end <= x.end
  {
    forall x, y | x in out && y in [r0] + r1 && x.start <= y.start <= x.end
      ensures y.end <= x.end
    {
      if y != r0 {
        assert y in r1;
      }
    }
  }

  /** The step of `SweepRunEnds` where the accumulator `cur` is closed and the
      sweep goes on from `r0`. */
  lemma RunEndsClosed(cur: Period, r0: Period, r1: seq<Period>, tail: seq<Period>)
    requires cur.end < r0.start && StartsNoEarlier(r0, r1) && StartsNoEarlier(r0, tail)
    requires forall x :: x in tail && x.start <= r0.start <= x.end ==> r0.end <= x.end
    requires forall x, y :: x in tail && y in r1 && x.start <= y.start <= x.end ==> y.end <= x.end
    ensures forall x, y :: x in [cur] + tail && y in [r0] + r1 && x.start <= y.start <= x.end ==> y.end <= x.end
  {
    forall x, y | x in [cur] + tail && y in [r0] + r1 && x.start <= y.start <= x.end
      ensures y.end <= x.end
    {
      if y != r0 {
        var j :| 0 <= j < |r1| && r1[j] == y;
      }
      if x != cur {
        var i :| 0 <= i < |tail| && tail[i] == x;
        if y != r0 {
          assert y in r1;
        }
      }
    }
  }

  /** Every period visited by the sweep lies inside one of its outputs. */
  lemma {:induction false} SweepContains(cur: Period, rest: seq<Period>)
    requires SortedByStart(rest) && StartsNoEarlier(cur, rest)
    ensures forall y :: y in [cur] + rest ==> exists x :: x in Sweep(cur, rest) && x.start <= y.start && y.end <= x.end
    decreases |rest|
  {
    if rest == [] {
      assert Sweep(cur, rest) == [cur];
    } else {
      var r0 := rest[0];
      assert rest == [r0] + rest[1..];
      assert SortedByStart(rest[1..]);
      if r0.start <= cur.end {
        var grown := cur.(end := MaxTime(cur.end, r0.end));
        SweepContains(grown, rest[1..]);
        assert grown in [grown] + rest[1..];
        forall y | y in [cur] + rest
          ensures exists x :: x in Sweep(cur, rest) && x.start <= y.start && y.end <= x.end
        {
          assert Sweep(cur, rest) == Sweep(grown, rest[1..]);
          if y == cur || y == r0 {
            var x :| x in Sweep(grown, rest[1..]) && x.start <= grown.start && grown.end <= x.end;
            assert x.start <= y.start && y.end <= x.end;
          } else {
            assert y in [grown] + rest[1..];
          }
        }
      } else {
        var tail := Sweep(r0, rest[1..]);
        SweepContains(r0, rest[1..]);
        assert Sweep(cur, rest) == [cur] + tail;
        forall y | y in [cur] + rest
          ensures exists x :: x in Sweep(cur, rest) && x.start <= y.start && y.end <= x.end
        {
          if y == cur {
            assert cur in Sweep(cur, rest);
          } else {
            var x :| x in tail && x.start <= y.start && y.end <= x.end;
            assert x in Sweep(cur, rest);
          }
        }
      }
    }
  }

  /** Over well-formed periods, every sweep output opens a new run: it is the
      accumulator or starts after the accumulator's end, and it keeps the id,
      start and reason of the first visited period with its start. */
  lemma {:induction false} SweepHeads(cur: Period, rest: seq<Period>)
    requires SortedByStart(rest) && StartsNoEarlier(cur, rest)
    requires WellFormed(cur) && forall k :: 0 <= k < |rest| ==> WellFormed(rest[k])
    ensures forall x :: x in Sweep(cur, rest) ==> x.start == cur.start || x.start > cur.end
    ensures forall x :: x in Sweep(cur, rest) ==>
      StartingAt([cur] + rest, x.start) != [] && SameHead(x, StartingAt([cur] + rest, x.start)[0])
    decreases |rest|
  {
    if rest == [] {
      StartingAtCons(cur, rest, cur.start);
    } else {
      assert SortedByStart(rest[1..]);
      var r0, r1 := rest[0], rest[1..];
      assert rest == [r0] + r1;
      assert WellFormed(r0);
      if r0.start <= cur.end {
        var grown := cur.(end := MaxTime(cur.end, r0.end));
        SweepHeads(grown, r1);
        forall x | x in Sweep(cur, rest)
          ensures StartingAt([cur] + rest, x.start) != [] && SameHead(x, StartingAt([cur] + rest, x.start)[0])
        {
          StartingAtCons(grown, r1, x.start);
          StartingAtCons(cur, rest, x.start);
          StartingAtCons(r0, r1, x.start);
        }
      } else {
        var tail := Sweep(r0, r1);
        SweepShape(r0, r1);
        SweepHeads(r0, r1);
        assert Sweep(cur, rest) == [cur] + tail;
        forall x | x in Sweep(cur, rest)
          ensures x.start == cur.start || x.start > cur.end
          ensures StartingAt([cur] + rest, x.start) != [] && SameHead(x, StartingAt([cur] + rest, x.start)[0])
        {
          StartingAtCons(cur, rest, x.start);
          if x != cur {
            var i :| 0 <= i < |tail| && tail[i] == x;
            assert r0.start <= x.start;
          }
        }
      }
    }
  }

  /** A sweep over periods that are already strictly separated emits them unchanged. */
  lemma {:induction false} SweepSeparatedIdentity(cur: Period, rest: seq<Period>)
    requires Separated([cur] + rest)
    ensures Sweep(cur, rest) == [cur] + rest
    decreases |rest|
  {
    if rest != [] {
      var all := [cur] + rest;
      assert all[0] == cur && all[1] == rest[0];
      assert rest == [rest[0]] + rest[1..];
      forall i | 0 <= i < |rest| - 1
        ensures rest[i].end < rest[i + 1].start
      {
        assert all[i + 1] == rest[i] && all[i + 2] == rest[i + 1];
      }
      SweepSeparatedIdentity(rest[0], rest[1..]);
    }
  }

  // ---------------------------------------------------------------------
  // Merge

  /** The merged list is sorted by start, each period starts strictly after the
      previous one ends (touching periods were joined), it is no longer than
      the input and empty only for empty input. */
  lemma MergeShape(s: seq<Period>)
    ensures SortedByStart(Merge(s)) && Separated(Merge(s))
    ensures |Merge(s)| <= |s|
    ensures |Merge(s)| == 0 <==> |s| == 0
  {
    if |s| > 1 {
      var sorted := StableSortByStart(s);
      StableSortByStartCorrect(s);
      assert SortedByStart(sorted[1..]);
      SweepShape(sorted[0], sorted[1..]);
    }
  }

  /** Merging keeps the covered instants: an instant is in some input period
      iff it is in some merged period. */
  lemma MergeCovers(s: seq<Period>, t: Instant)
    ensures Covers(Merge(s), t) <==> Covers(s, t)
  {
    if |s| > 1 {
      var sorted := StableSortByStart(s);
      StableSortByStartCorrect(s);
      assert SortedByStart(sorted[1..]);
      SweepCovers(sorted[0], sorted[1..], t);
      assert sorted == [sorted[0]] + sorted[1..];
      CoversSameElements(sorted, s, t);
      assert Covers(sorted, t) <==> (sorted[0].start <= t <= sorted[0].end || Covers(sorted[1..], t)) by {
        if Covers(sorted, t) {
          var i :| 0 <= i < |sorted| && sorted[i].start <= t <= sorted[i].end;
          if i > 0 {
            assert sorted[1..][i - 1] == sorted[i];
          }
        }
        if Covers(sorted[1..], t) {
          var i :| 0 <= i < |sorted[1..]| && sorted[1..][i].start <= t <= sorted[1..][i].end;
          assert sorted[i + 1] == sorted[1..][i];
        }
      }
    }
  }

  lemma CoversSameElements(a: seq<Period>, b: seq<Period>, t: Instant)
    requires multiset(a) == multiset(b)
    ensures Covers(a, t) <==> Covers(b, t)
  {
    if Covers(a, t) {
      var i :| 0 <= i < |a| && a[i].start <= t <= a[i].end;
      assert a[i] in multiset(b);
      var j :| 0 <= j < |b| && b[j] == a[i];
    }
    if Covers(b, t) {
      var i :| 0 <= i < |b| && b[i].start <= t <= b[i].end;
      assert b[i] in multiset(a);
      var j :| 0 <= j < |a| && a[j] == b[i];
    }
  }

  /** Each merged period keeps the id, start and reason of an input period, and
      its end is the end of an input period. */
  lemma MergeProvenance(s: seq<Period>)
    ensures forall x :: x in Merge(s) ==>
      && (exists y :: y in s && SameHead(x, y))
      && (exists z :: z in s && z.end == x.end)
  {
    if |s| > 1 {
      var sorted := StableSortByStart(s);
      SweepProvenance(sorted[0], sorted[1..]);
      forall x | x in Merge(s)
        ensures exists y :: y in s && SameHead(x, y)
        ensures exists z :: z in s && z.end == x.end
      {
        assert sorted[0] in multiset(s);
        if !SameHead(x, sorted[0]) {
          var y :| y in sorted[1..] && SameHead(x, y);
          assert y in multiset(s);
        }
        if x.end != sorted[0].end {
          var z :| z in sorted[1..] && z.end == x.end;
          assert z in multiset(s);
        }
      }
    }
  }

  /** A list of two or more periods is merged by sweeping its stable sort,
      which holds the same periods, from its first period. */
  lemma MergeIsSweep(s: seq<Period>)
    requires |s| > 1
    ensures var sorted := StableSortByStart(s);
      && Merge(s) == Sweep(sorted[0], sorted[1..])
      && SortedByStart(sorted[1..]) && StartsNoEarlier(sorted[0], sorted[1..])
      && SameStartGroups(sorted, s)
      && forall y :: y in s ==> y in [sorted[0]] + sorted[1..]
  {
    var sorted := StableSortByStart(s);
    StableSortByStartCorrect(s);
    SortedTail(sorted);
    assert sorted == [sorted[0]] + sorted[1..];
    forall y | y in s
      ensures y in sorted
    {
      assert y in multiset(s);
    }
  }

  lemma SortedTail(s: seq<Period>)
    requires SortedByStart(s) && s != []
    ensures SortedByStart(s[1..]) && StartsNoEarlier(s[0], s[1..])
  {
    TailSorted(s);
    forall i | 0 <= i < |s[1..]|
      ensures s[0].start <= s[1..][i].start
    {
      assert s[1..][i] == s[i + 1];
    }
  }

  /** Each merged period ends at the largest end among the input periods
      starting inside it. */
  lemma MergeRunEnds(s: seq<Period>)
    ensures forall x, y :: x in Merge(s) && y in s && x.start <= y.start <= x.end ==> y.end <= x.end
  {
    if |s| > 1 {
      MergeIsSweep(s);
      var sorted := StableSortByStart(s);
      SweepRunEnds(sorted[0], sorted[1..]);
      SweepKeepsAccumulatorEnd(sorted[0], sorted[1..]);
      forall x, y | x in Merge(s) && y in s && x.start <= y.start <= x.end
        ensures y.end <= x.end
      {
        assert y in [sorted[0]] + sorted[1..];
        if y != sorted[0] {
          assert y in sorted[1..];
        }
      }
    }
  }

  /** Every input period lies inside one merged period. */
  lemma MergeContains(s: seq<Period>)
    ensures forall y :: y in s ==> exists x :: x in Merge(s) && x.start <= y.start && y.end <= x.end
  {
    if |s| > 1 {
      MergeIsSweep(s);
      var sorted := StableSortByStart(s);
      SweepContains(sorted[0], sorted[1..]);
    } else {
      forall y | y in s
        ensures exists x :: x in Merge(s) && x.start <= y.start && y.end <= x.end
      {
        assert y in Merge(s);
      }
    }
  }

  /** Over well-formed periods, each merged period keeps the id, start and
      reason of the first input period, in input order, with its start. */
  lemma MergeHeads(s: seq<Period>)
    requires forall k :: 0 <= k < |s| ==> WellFormed(s[k])
    ensures forall x :: x in Merge(s) ==> StartingAt(s, x.start) != [] && SameHead(x, StartingAt(s, x.start)[0])
  {
    if |s| == 1 {
      StartingAtCons(s[0], [], s[0].start);
      assert [s[0]] + [] == s;
    } else if |s| > 1 {
      MergeIsSweep(s);
      var sorted := StableSortByStart(s);
      var head, tail := sorted[0], sorted[1..];
      assert sorted == [head] + tail;
      forall y | y in [head] + tail
        ensures WellFormed(y)
      {
        assert y in multiset(s);
        var k :| 0 <= k < |s| && s[k] == y;
      }
      assert WellFormed(head) && forall k :: 0 <= k < |tail| ==> WellFormed(tail[k]) by {
        assert head in [head] + tail;
        forall k | 0 <= k < |tail|
          ensures WellFormed(tail[k])
        {
          assert tail[k] in [head] + tail;
        }
      }
      SweepHeads(head, tail);
      HeadsCarryOver(sorted, s, Merge(s));
    }
  }

  /** Heads taken from the first period of each start group carry over to any
      list with the same start groups. */
  lemma HeadsCarryOver(a: seq<Period>, b: seq<Period>, out: seq<Period>)
    requires SameStartGroups(a, b)
    requires forall x :: x in out ==> StartingAt(a, x.start) != [] && SameHead(x, StartingAt(a, x.start)[0])
    ensures forall x :: x in out ==> StartingAt(b, x.start) != [] && SameHead(x, StartingAt(b, x.start)[0])
  {
    forall x | x in out
      ensures StartingAt(b, x.start) != [] && SameHead(x, StartingAt(b, x.start)[0])
    {
      assert StartingAt(a, x.start) == StartingAt(b, x.start);
    }
  }

  /** Merging a merged list changes nothing. */
  lemma MergeIdempotent(s: seq<Period>)
    ensures Merge(Merge(s)) == Merge(s)
  {
    var m := Merge(s);
    MergeShape(s);
    if |m| > 1 {
      SortSortedIdentity(m);
      assert m == [m[0]] + m[1..];
      SweepSeparatedIdentity(m[0], m[1..]);
    }
  }

  /** Two periods in start order: joined into one when the second starts at or
      before the first one's end, otherwise left as they are. */
  lemma MergeTwo(p: Period, q: Period)
    requires p.start <= q.start
    ensures q.start <= p.end ==> Merge([p, q]) == [p.(end := MaxTime(p.end, q.end))]
    ensures q.start > p.end ==> Merge([p, q]) == [p, q]
  {
    assert [p, q][..1] == [p];
    assert StableSortByStart([p]) == [p] by {
      assert [p][..0] == [];
    }
    assert StableSortByStart([p, q]) == [p, q];
    assert [p, q][1..] == [q];
    assert [q][1..] == [];
    if q.start > p.end {
      assert Sweep(p, [q]) == [p] + Sweep(q, []);
    } else {
      assert Sweep(p, [q]) == Sweep(p.(end := MaxTime(p.end, q.end)), []);
    }
  }

  // ---------------------------------------------------------------------
  // Subtraction

  lemma {:induction false} SubtractConcat(toRemove: Period, a: seq<Period>, b: seq<Period>)
    ensures Subtract(toRemove, a + b) == Subtract(toRemove, a) + Subtract(toRemove, b)
    decreases |b|
  {
    if b == [] {
      assert a + b == a;
    } else {
      var init := b[..|b| - 1];
      assert (a + b)[..|a + b| - 1] == a + init;
      assert (a + b)[|a + b| - 1] == b[|b| - 1];
      SubtractConcat(toRemove, a, init);
    }
  }

  /** At most two pieces per period. */
  lemma {:induction false} SubtractLength(toRemove: Period, s: seq<Period>)
    ensures |Subtract(toRemove, s)| <= 2 * |s|
  {
    if s != [] {
      SubtractLength(toRemove, s[..|s| - 1]);
    }
  }

  /** Periods the removed span misses pass through unchanged and in order. */
  lemma {:induction false} SubtractDisjoint(toRemove: Period, s: seq<Period>)
    requires forall i :: 0 <= i < |s| ==> toRemove.start > s[i].end || toRemove.end < s[i].start
    ensures Subtract(toRemove, s) == s
  {
    if s != [] {
      SubtractDisjoint(toRemove, s[..|s| - 1]);
      assert s == s[..|s| - 1] + [s[|s| - 1]];
    }
  }

  /** A removed span strictly inside a period splits it into the part before
      and the part after, both fresh fragments. */
  lemma PiecesInside(toRemove: Period, p: Period)
    requires WellFormed(toRemove)
    requires p.start < toRemove.start && toRemove.end < p.end
    ensures Pieces(toRemove, p) == [Fragment(p.start, toRemove.start), Fragment(toRemove.end, p.end)]
  {
  }

  /** A period the removed span covers leaves nothing. */
  lemma PiecesCovered(toRemove: Period, p: Period)
    requires WellFormed(p)
    requires toRemove.start <= p.start && p.end <= toRemove.end
    ensures Pieces(toRemove, p) == []
  {
  }

  /** A removed span that meets a period only at an end point takes the whole
      period away, although the period has instants outside the span. */
  lemma PiecesTouching(toRemove: Period, p: Period)
    requires WellFormed(toRemove) && WellFormed(p)
    requires toRemove.start == p.end || toRemove.end == p.start
    ensures Pieces(toRemove, p) == []
  {
  }

  /** Every output period is an input period or a fragment with zero id and
      zero reason (`Reserved`). */
  lemma {:induction false} SubtractFragments(toRemove: Period, s: seq<Period>)
    ensures forall x :: x in Subtract(toRemove, s) ==>
      x in s || (x.id == NilObjectId && x.reason == Reserved)
  {
    if s != [] {
      var init := s[..|s| - 1];
      SubtractFragments(toRemove, init);
      forall x | x in Subtract(toRemove, s)
        ensures x in s || (x.id == NilObjectId && x.reason == Reserved)
      {
        if x in Subtract(toRemove, init) {
          if x in init {
            assert x in s;
          }
        } else {
          assert x in Pieces(toRemove, s[|s| - 1]);
        }
      }
    }
  }

  /** No instant strictly inside the removed span is covered afterwards, and
      nothing that was not covered before becomes covered. */
  lemma {:induction false} SubtractCovers(toRemove: Period, s: seq<Period>, t: Instant)
    ensures Covers(Subtract(toRemove, s), t) ==> Covers(s, t)
    ensures toRemove.start < t < toRemove.end ==> !Covers(Subtract(toRemove, s), t)
  {
    if s != [] {
      var init, last := s[..|s| - 1], s[|s| - 1];
      SubtractCovers(toRemove, init, t);
      var left, pieces := Subtract(toRemove, init), Pieces(toRemove, last);
      assert Subtract(toRemove, s) == left + pieces;
      assert s == init + [last];
      CoversConcat(left, pieces, t);
      CoversConcat(init, [last], t);
      CoversSingle(last, t);
      if Covers(pieces, t) {
        var k :| 0 <= k < |pieces| && pieces[k].start <= t <= pieces[k].end;
      }
    }
  }

  /** An instant of a period, outside the removed span, survives, unless the
      period and the span merely touch. */
  lemma {:induction false} SubtractKeepsOutside(toRemove: Period, s: seq<Period>, i: int, t: Instant)
    requires 0 <= i < |s| && s[i].start <= t <= s[i].end
    requires t < toRemove.start || toRemove.end < t
    requires var p := s[i];
      p.end < toRemove.start || toRemove.end < p.start || (p.start < toRemove.end && toRemove.start < p.end)
    ensures Covers(Subtract(toRemove, s), t)
  {
    var init, last := s[..|s| - 1], s[|s| - 1];
    var left, pieces := Subtract(toRemove, init), Pieces(toRemove, last);
    assert Subtract(toRemove, s) == left + pieces;
    CoversConcat(left, pieces, t);
    if i < |s| - 1 {
      assert init[i] == s[i];
      SubtractKeepsOutside(toRemove, init, i, t);
    } else {
      var p := s[i];
      if p.end < toRemove.start || toRemove.end < p.start {
        assert pieces == [p];
        assert pieces[0].start <= t <= pieces[0].end;
      } else if t < toRemove.start {
        assert pieces[0] == Fragment(p.start, toRemove.start);
        assert pieces[0].start <= t <= pieces[0].end;
      } else {
        assert pieces[|pieces| - 1] == Fragment(toRemove.end, p.end);
        assert pieces[|pieces| - 1].start <= t <= pieces[|pieces| - 1].end;
      }
    }
  }

  /** Removing a period from a list holding only that period empties it. */
  lemma RemoveAfterInsert(p: Period)
    requires WellFormed(p)
    ensures Subtract(p, Merge([p])) == []
  {
    assert [p][..0] == [];
  }

  // ---------------------------------------------------------------------
  // What removal keeps of the coalesced shape

  /** In a separated list of well-formed periods every period ends before any
      later one starts. */
  lemma {:induction false} SeparatedPair(s: seq<Period>, i: int, j: int)
    requires Separated(s) && forall k :: 0 <= k < |s| ==> WellFormed(s[k])
    requires 0 <= i < j < |s|
    ensures s[i].end < s[j].start
    decreases j - i
  {
    if j > i + 1 {
      SeparatedPair(s, i, j - 1);
    }
  }

  /** Two separated lists, the first ending before the second starts, join
      into a separated list. */
  lemma SeparatedConcat(a: seq<Period>, b: seq<Period>)
    requires Separated(a) && Separated(b)
    requires a != [] && b != [] ==> a[|a| - 1].end < b[0].start
    ensures Separated(a + b)
  {
    var r := a + b;
    forall i | 0 <= i < |r| - 1
      ensures r[i].end < r[i + 1].start
    {
      if i < |a| - 1 {
        assert r[i] == a[i] && r[i + 1] == a[i + 1];
      } else if i == |a| - 1 {
        assert r[i] == a[|a| - 1] && r[i + 1] == b[0];
      } else {
        assert r[i] == b[i - |a|] && r[i + 1] == b[i - |a| + 1];
      }
    }
  }

  /** The pieces of a period lie within it. */
  lemma PiecesWithin(toRemove: Period, p: Period)
    requires WellFormed(toRemove)
    ensures forall x :: x in Pieces(toRemove, p) ==> p.start <= x.start && x.end <= p.end
  {
  }

  /** Removal never reaches past a bound its input stays under. */
  lemma {:induction false} SubtractEndsBefore(toRemove: Period, s: seq<Period>, bound: Instant)
    requires WellFormed(toRemove)
    requires forall k :: 0 <= k < |s| ==> s[k].end < bound
    ensures forall x :: x in Subtract(toRemove, s) ==> x.end < bound
  {
    if s != [] {
      SubtractEndsBefore(toRemove, s[..|s| - 1], bound);
      PiecesWithin(toRemove, s[|s| - 1]);
    }
  }

  /** Removing a span of positive length from a coalesced list leaves it
      coalesced: consecutive periods stay strictly apart. */
  lemma {:induction false} SubtractSeparated(toRemove: Period, s: seq<Period>)
    requires toRemove.start < toRemove.end
    requires Separated(s) && forall k :: 0 <= k < |s| ==> WellFormed(s[k])
    ensures Separated(Subtract(toRemove, s))
  {
    if s != [] {
      var init, last := s[..|s| - 1], s[|s| - 1];
      assert Separated(init) by {
        forall i | 0 <= i < |init| - 1
          ensures init[i].end < init[i + 1].start
        {
          assert init[i] == s[i] && init[i + 1] == s[i + 1];
        }
      }
      SubtractSeparated(toRemove, init);
      forall k | 0 <= k < |init|
        ensures init[k].end < last.start
      {
        SeparatedPair(s, k, |s| - 1);
      }
      SubtractEndsBefore(toRemove, init, last.start);
      PiecesWithin(toRemove, last);
      var left, pieces := Subtract(toRemove, init), Pieces(toRemove, last);
      if left != [] && pieces != [] {
        assert left[|left| - 1] in left;
        assert pieces[0] in pieces;
      }
      SeparatedConcat(left, pieces);
    }
  }

  /** A removed span of length zero strictly inside a period splits it into two
      fragments that touch, so the list is no longer coalesced, and the
      period's id and reason are lost. */
  lemma ZeroLengthRemovalSplits()
    ensures Subtract(Period(0, 5, 5, Reserved), [Period(7, 0, 10, OwnerSet)])
      == [Fragment(0, 5), Fragment(5, 10)]
    ensures !Separated(Subtract(Period(0, 5, 5, Reserved), [Period(7, 0, 10, OwnerSet)]))
  {
    assert [Period(7, 0, 10, OwnerSet)][..0] == [];
    var r := [Fragment(0, 5), Fragment(5, 10)];
    assert !(r[0].end < r[1].start);
  }

  /** A removed span that only touches a period drops it whole, instants
      outside the span included. */
  lemma TouchingRemovalDropsPeriod()
    ensures Covers([Period(1, 0, 10, OwnerSet)], 5)
    ensures Subtract(Period(0, 10, 20, Reserved), [Period(1, 0, 10, OwnerSet)]) == []
  {
    assert [Period(1, 0, 10, OwnerSet)][..0] == [];
    assert [Period(1, 0, 10, OwnerSet)][0].start <= 5 <= [Period(1, 0, 10, OwnerSet)][0].end;
  }
}
