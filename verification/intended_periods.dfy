/** Corrected forms of two interval operations whose written behaviour breaks
    the ledger's coalesced-periods invariant: removal that takes out only the
    instants strictly inside the removed span, and a merge that coalesces each
    reason on its own so a Reserved span is never absorbed by an OwnerSet one. */
module IntendedPeriods {
  import opened Domain
  import opened PeriodAlgebra
  import PeriodSort

  // ---------------------------------------------------------------------
  // Removal

  /** What is left of `p`: a span that does not reach into `p`'s interior, or
      has no length, leaves `p` whole; otherwise the parts before and after it
      remain as fragments. */
  function CarvePieces(toRemove: Period, p: Period): seq<Period>
  {
    if toRemove.end <= p.start || toRemove.start >= p.end || toRemove.start >= toRemove.end then [p]
    else if p.start < toRemove.start && toRemove.end < p.end then
      [Fragment(p.start, toRemove.start), Fragment(toRemove.end, p.end)]
    else if p.start < toRemove.start then [Fragment(p.start, toRemove.start)]
    else if toRemove.end < p.end then [Fragment(toRemove.end, p.end)]
    else []
  }

  /** Corrected removal of one span, period by period. */
  function Carve(toRemove: Period, s: seq<Period>): seq<Period>
  {
    if s == [] then []
    else Carve(toRemove, s[..|s| - 1]) + CarvePieces(toRemove, s[|s| - 1])
  }

  lemma CarvePiecesWithin(toRemove: Period, p: Period)
    requires WellFormed(p)
    ensures Separated(CarvePieces(toRemove, p))
    ensures forall x :: x in CarvePieces(toRemove, p) ==> p.start <= x.start && x.end <= p.end
  {
  }

  /** Instants of `p` before or after the removed span stay; instants strictly
      inside it go; nothing outside `p` is added. */
  lemma CarvePiecesCovers(toRemove: Period, p: Period, t: Instant)
    requires WellFormed(p)
    ensures Covers(CarvePieces(toRemove, p), t) ==> p.start <= t <= p.end && !(toRemove.start < t < toRemove.end)
    ensures p.start <= t <= p.end && (t < toRemove.start || toRemove.end < t) ==> Covers(CarvePieces(toRemove, p), t)
  {
    var r := CarvePieces(toRemove, p);
    if Covers(r, t) {
      var i :| 0 <= i < |r| && r[i].start <= t <= r[i].end;
    }
    if p.start <= t <= p.end && (t < toRemove.start || toRemove.end < t) {
      if t < toRemove.start && toRemove.start < p.end && toRemove.end > p.start && toRemove.start < toRemove.end && p.start < toRemove.start {
        assert r[0] == Fragment(p.start, toRemove.start);
      } else if toRemove.end < t && toRemove.start < p.end && toRemove.end > p.start && toRemove.start < toRemove.end && toRemove.end < p.end {
        assert r[|r| - 1] == Fragment(toRemove.end, p.end);
      } else {
        assert r == [p];
      }
    }
  }

  /** Corrected removal keeps a coalesced list coalesced, whatever the length
      of the removed span. */
  lemma {:induction false} CarveSeparated(toRemove: Period, s: seq<Period>)
    requires Separated(s) && forall k :: 0 <= k < |s| ==> WellFormed(s[k])
    ensures Separated(Carve(toRemove, s))
    ensures forall x :: x in Carve(toRemove, s) ==> s != [] && x.end <= s[|s| - 1].end
  {
    if s != [] {
      var init, last := s[..|s| - 1], s[|s| - 1];
      assert Separated(init) by {
        forall i | 0 <= i < |init| - 1
          ensures init[i].end < init[i + 1].start
        {
          assert init[i] == s[i] && init[i + 1] == s[i + 1];
        }
      }
      CarveSeparated(toRemove, init);
      CarvePiecesWithin(toRemove, last);
      var left, pieces := Carve(toRemove, init), CarvePieces(toRemove, last);
      if left != [] && pieces != [] {
        assert left[|left| - 1] in left;
        assert init[|init| - 1].end < last.start by {
          SeparatedPair(s, |init| - 1, |s| - 1);
        }
        assert pieces[0] in pieces;
      }
      forall x | x in left
        ensures x.end <= last.end
      {
        SeparatedPair(s, |init| - 1, |s| - 1);
      }
      SeparatedConcat(left, pieces);
    }
  }

  /** Corrected removal keeps every instant outside the closed removed span and
      drops every instant strictly inside it. */
  lemma {:induction false} CarveCovers(toRemove: Period, s: seq<Period>, t: Instant)
    requires forall k :: 0 <= k < |s| ==> WellFormed(s[k])
    ensures toRemove.start < t < toRemove.end ==> !Covers(Carve(toRemove, s), t)
    ensures (t < toRemove.start || toRemove.end < t) ==> (Covers(Carve(toRemove, s), t) <==> Covers(s, t))
  {
    if s != [] {
      var init, last := s[..|s| - 1], s[|s| - 1];
      CarveCovers(toRemove, init, t);
      assert s == init + [last];
      CoversConcat(Carve(toRemove, init), CarvePieces(toRemove, last), t);
      CoversConcat(init, [last], t);
      CoversSingle(last, t);
      CarvePiecesCovers(toRemove, last, t);
    }
  }

  // ---------------------------------------------------------------------
  // Merge

  /** The periods of `s` with reason `reason`, in order. */
  function OfReason(s: seq<Period>, reason: Reason): (r: seq<Period>)
    ensures forall x :: x in r ==> x in s && x.reason == reason
  {
    if s == [] then []
    else (if s[0].reason == reason then [s[0]] else []) + OfReason(s[1..], reason)
  }

  /** Some Reserved period of `s` holds `t`. */
  predicate ReservedCovers(s: seq<Period>, t: Instant)
  {
    exists i :: 0 <= i < |s| && s[i].reason == Reserved && s[i].start <= t <= s[i].end
  }

  /** Coalesces Reserved and OwnerSet periods separately. */
  function MergeByReason(s: seq<Period>): seq<Period>
  {
    Merge(OfReason(s, Reserved)) + Merge(OfReason(s, OwnerSet))
  }

  lemma {:induction false} OfReasonCovers(s: seq<Period>, t: Instant)
    ensures Covers(OfReason(s, Reserved), t) <==> ReservedCovers(s, t)
  {
    if s != [] {
      OfReasonCovers(s[1..], t);
      var head := if s[0].reason == Reserved then [s[0]] else [];
      CoversConcat(head, OfReason(s[1..], Reserved), t);
      CoversSingle(s[0], t);
      assert s == [s[0]] + s[1..];
      ReservedCoversConcat([s[0]], s[1..], t);
      assert ReservedCovers([s[0]], t) ==> [s[0]][0].reason == Reserved && [s[0]][0].start <= t <= [s[0]][0].end;
    }
  }

  /** A list whose periods all carry one reason is Reserved-covered exactly
      where it is covered, if that reason is Reserved, and nowhere otherwise. */
  lemma OneReasonCovers(s: seq<Period>, reason: Reason, t: Instant)
    requires forall x :: x in s ==> x.reason == reason
    ensures ReservedCovers(s, t) <==> reason == Reserved && Covers(s, t)
  {
    if ReservedCovers(s, t) {
      var i :| 0 <= i < |s| && s[i].reason == Reserved && s[i].start <= t <= s[i].end;
      assert s[i] in s;
    }
    if reason == Reserved && Covers(s, t) {
      var i :| 0 <= i < |s| && s[i].start <= t <= s[i].end;
      assert s[i] in s;
    }
  }

  /** Each reason's periods end up coalesced: sorted and strictly apart. */
  lemma MergeByReasonCoalesced(s: seq<Period>)
    ensures PeriodSort.SortedByStart(Merge(OfReason(s, Reserved))) && Separated(Merge(OfReason(s, Reserved)))
    ensures PeriodSort.SortedByStart(Merge(OfReason(s, OwnerSet))) && Separated(Merge(OfReason(s, OwnerSet)))
  {
    MergeShape(OfReason(s, Reserved));
    MergeShape(OfReason(s, OwnerSet));
  }

  /** Every period of a merge carries the reason shared by its input. */
  lemma MergeKeepsReason(s: seq<Period>, reason: Reason)
    requires forall x :: x in s ==> x.reason == reason
    ensures forall x :: x in Merge(s) ==> x.reason == reason
  {
    MergeProvenance(s);
  }

  lemma ReservedCoversConcat(a: seq<Period>, b: seq<Period>, t: Instant)
    ensures ReservedCovers(a + b, t) <==> ReservedCovers(a, t) || ReservedCovers(b, t)
  {
    var r := a + b;
    if ReservedCovers(r, t) {
      var i :| 0 <= i < |r| && r[i].reason == Reserved && r[i].start <= t <= r[i].end;
      if i < |a| {
        assert a[i] == r[i];
      } else {
        assert b[i - |a|] == r[i];
      }
    }
    if ReservedCovers(a, t) {
      var i :| 0 <= i < |a| && a[i].reason == Reserved && a[i].start <= t <= a[i].end;
      assert r[i] == a[i];
    }
    if ReservedCovers(b, t) {
      var i :| 0 <= i < |b| && b[i].reason == Reserved && b[i].start <= t <= b[i].end;
      assert r[|a| + i] == b[i];
    }
  }

  /** The corrected merge holds a Reserved period exactly where the input did,
      so the conflict check still sees every Reserved instant. */
  lemma MergeByReasonKeepsReserved(s: seq<Period>, t: Instant)
    ensures ReservedCovers(MergeByReason(s), t) <==> ReservedCovers(s, t)
  {
    var reserved, owner := OfReason(s, Reserved), OfReason(s, OwnerSet);
    var m1, m2 := Merge(reserved), Merge(owner);
    assert ReservedCovers(m1, t) <==> Covers(reserved, t) by {
      MergeKeepsReason(reserved, Reserved);
      OneReasonCovers(m1, Reserved, t);
      MergeCovers(reserved, t);
    }
    assert !ReservedCovers(m2, t) by {
      MergeKeepsReason(owner, OwnerSet);
      OneReasonCovers(m2, OwnerSet, t);
    }
    OfReasonCovers(s, t);
    ReservedCoversConcat(m1, m2, t);
  }
}
