/** The older availability ledger kept under booking-service/: entries are
    addressed by their own id, carry only an accommodation id and periods, and
    a new period is stored without any conflict check. */
module LegacyUnavailability {
  import opened Domain
  import opened PeriodAlgebra
  import LegacyIntervals
  import Unavailability

  /** This copy's overlap test: the first span starts strictly inside the
      second, or strictly before it and ends after its start. */
  predicate LegacyPeriodsOverlap(start1: Instant, end1: Instant, start2: Instant, end2: Instant)
    ensures start1 == start2 ==> !LegacyPeriodsOverlap(start1, end1, start2, end2)
    ensures start1 < end1 && start2 < end2 ==>
      (LegacyPeriodsOverlap(start1, end1, start2, end2) <==> start1 < start2 < end1 || start2 < start1 < end2)
  {
    (start1 > start2 && start1 < end2) || (start1 < start2 && end1 > start2)
  }

  datatype LegacyEntry = LegacyEntry(accommodationId: ObjectId, periods: seq<Period>)

  /** Some entry belongs to accommodation `id`. */
  predicate Hosts(entries: map<ObjectId, LegacyEntry>, id: ObjectId)
  {
    exists u :: u in entries && entries[u].accommodationId == id
  }

  /** No period of accommodation `id` overlaps `[start, end]` under this copy's test. */
  predicate LegacyFree(entries: map<ObjectId, LegacyEntry>, id: ObjectId, start: Instant, end: Instant)
  {
    forall u, i :: u in entries && entries[u].accommodationId == id && 0 <= i < |entries[u].periods| ==>
      !LegacyPeriodsOverlap(start, end, entries[u].periods[i].start, entries[u].periods[i].end)
  }

  function LegacyAvailable(entries: map<ObjectId, LegacyEntry>, ids: seq<ObjectId>, start: Instant, end: Instant): (r: seq<ObjectId>)
    ensures |r| <= |ids|
  {
    if ids == [] then []
    else
      var last := ids[|ids| - 1];
      LegacyAvailable(entries, ids[..|ids| - 1], start, end) + (if LegacyFree(entries, last, start, end) then [last] else [])
  }

  /** Exactly the listed ids that are free under this copy's test are kept. */
  lemma {:induction false} LegacyAvailableMembers(entries: map<ObjectId, LegacyEntry>, ids: seq<ObjectId>, start: Instant, end: Instant, x: ObjectId)
    ensures x in LegacyAvailable(entries, ids, start, end) <==> x in ids && LegacyFree(entries, x, start, end)
  {
    if ids != [] {
      var init, last := ids[..|ids| - 1], ids[|ids| - 1];
      assert ids == init + [last];
      LegacyAvailableMembers(entries, init, start, end, x);
    }
  }

  /** This filter also works id by id and keeps the order of `ids`. */
  lemma {:induction false} LegacyAvailableConcat(entries: map<ObjectId, LegacyEntry>, a: seq<ObjectId>, b: seq<ObjectId>, start: Instant, end: Instant)
    ensures LegacyAvailable(entries, a + b, start, end) == LegacyAvailable(entries, a, start, end) + LegacyAvailable(entries, b, start, end)
    decreases |b|
  {
    if b == [] {
      assert a + b == a;
    } else {
      var init, last := b[..|b| - 1], b[|b| - 1];
      assert a + b == (a + init) + [last];
      assert (a + b)[..|a + b| - 1] == a + init;
      LegacyAvailableConcat(entries, a, init, start, end);
    }
  }

  lemma LegacyOverlapSymmetric(start1: Instant, end1: Instant, start2: Instant, end2: Instant)
    ensures LegacyPeriodsOverlap(start1, end1, start2, end2) == LegacyPeriodsOverlap(start2, end2, start1, end1)
  {
  }

  /** Spans that start at the same instant never overlap under this test, not
      even identical ones. */
  lemma LegacySameStartNeverOverlaps(start: Instant, end1: Instant, end2: Instant)
    ensures !LegacyPeriodsOverlap(start, end1, start, end2)
  {
  }

  /** For well-formed spans with distinct starts the two tests agree. */
  lemma OverlapTestsAgree(start1: Instant, end1: Instant, start2: Instant, end2: Instant)
    requires start1 <= end1 && start2 <= end2 && start1 != start2
    ensures LegacyPeriodsOverlap(start1, end1, start2, end2) == Unavailability.PeriodsOverlap(start1, end1, start2, end2)
  {
  }

  /** A non-empty span overlaps itself under the current test but not under
      this one. */
  lemma OverlapTestsDisagreeOnSameSpan(start: Instant, end: Instant)
    requires start < end
    ensures Unavailability.PeriodsOverlap(start, end, start, end)
    ensures !LegacyPeriodsOverlap(start, end, start, end)
  {
  }

  /** An accommodation blocked for a night is offered for exactly that night. */
  lemma LegacyOffersBlockedSpan(accommodation: ObjectId, u: ObjectId, start: Instant, end: Instant)
    requires start < end
    ensures var entries := map[u := LegacyEntry(accommodation, [Period(NilObjectId, start, end, Reserved)])];
      LegacyAvailable(entries, [accommodation], start, end) == [accommodation]
  {
    var entries := map[u := LegacyEntry(accommodation, [Period(NilObjectId, start, end, Reserved)])];
    assert [accommodation][..0] == [];
    assert LegacyFree(entries, accommodation, start, end);
  }

  class LegacyUnavailabilityService {
    /** The unavailability store, keyed by the entry's own id. */
    var entries: map<ObjectId, LegacyEntry>
    /** Accommodations whose lookup by accommodation id fails in the store. */
    const unreachable: set<ObjectId>

    /** At most one entry per accommodation, which `AddUnavailability` keeps. */
    ghost predicate Valid()
      reads this
    {
      forall u, v :: u in entries && v in entries && entries[u].accommodationId == entries[v].accommodationId ==> u == v
    }

    constructor (unreachable: set<ObjectId>)
      ensures Valid() && entries == map[] && this.unreachable == unreachable
    {
      entries := map[];
      this.unreachable := unreachable;
    }

    method AddUnavailability(accommodationId: ObjectId, freshId: ObjectId) returns (o: Outcome)
      requires Valid() && freshId !in entries
      modifies this
      ensures Valid()
      ensures accommodationId in unreachable ==> o == Fail(StoreFailure) && entries == old(entries)
      ensures accommodationId !in unreachable && Hosts(old(entries), accommodationId) ==>
        o == Fail(AlreadyExists) && entries == old(entries)
      ensures accommodationId !in unreachable && !Hosts(old(entries), accommodationId) ==>
        o == Ok && entries == old(entries)[freshId := LegacyEntry(accommodationId, [])]
    {
      if accommodationId in unreachable {
        return Fail(StoreFailure);
      }
      if u :| u in entries && entries[u].accommodationId == accommodationId {
        return Fail(AlreadyExists);
      }
      entries := entries[freshId := LegacyEntry(accommodationId, [])];
      o := Ok;
    }

    /** Stores append-then-merge under the entry's id; nothing is checked. */
    method AddUnavailabilityPeriod(unavailabilityId: ObjectId, period: Period, freshId: ObjectId) returns (o: Outcome)
      requires Valid()
      modifies this
      ensures Valid()
      ensures unavailabilityId !in old(entries) ==> o == Fail(NotFound) && entries == old(entries)
      ensures unavailabilityId in old(entries) ==> o == Ok && entries == old(entries)[unavailabilityId :=
        old(entries[unavailabilityId]).(periods := Merge(old(entries[unavailabilityId].periods) + [period.(id := freshId)]))]
      ensures unavailabilityId in old(entries) ==>
        forall t :: period.start <= t <= period.end ==> Covers(entries[unavailabilityId].periods, t)
    {
      if unavailabilityId !in entries {
        return Fail(NotFound);
      }
      var entry := entries[unavailabilityId];
      var merged := LegacyIntervals.InsertPeriod(period.(id := freshId), entry.periods);
      entries := entries[unavailabilityId := entry.(periods := merged)];
      o := Ok;
    }

    method RemoveUnavailabilityPeriod(unavailabilityId: ObjectId, period: Period) returns (o: Outcome)
      requires Valid()
      modifies this
      ensures Valid()
      ensures unavailabilityId !in old(entries) ==> o == Fail(NotFound) && entries == old(entries)
      ensures unavailabilityId in old(entries) ==> o == Ok && entries == old(entries)[unavailabilityId :=
        old(entries[unavailabilityId]).(periods := Subtract(period, old(entries[unavailabilityId].periods)))]
    {
      if unavailabilityId !in entries {
        return Fail(NotFound);
      }
      var entry := entries[unavailabilityId];
      var updated := LegacyIntervals.RemovePeriod(period, entry.periods);
      entries := entries[unavailabilityId := entry.(periods := updated)];
      o := Ok;
    }

    /** Keeps, in order, the ids free under this copy's overlap test. A failed
        lookup aborts, and so does an id without an entry, which the source
        dereferences. */
    method FilterAvailable(ids: seq<ObjectId>, start: Instant, end: Instant) returns (r: Result<seq<ObjectId>>)
      requires Valid()
      ensures r.Failure? <==> exists i :: 0 <= i < |ids| && (ids[i] in unreachable || !Hosts(entries, ids[i]))
      ensures r.Failure? ==> r.error == StoreFailure || r.error == NilEntry
      ensures r.Success? ==> r.value == LegacyAvailable(entries, ids, start, end)
    {
      var response: seq<ObjectId> := [];
      for i := 0 to |ids|
        invariant response == LegacyAvailable(entries, ids[..i], start, end)
        invariant forall k :: 0 <= k < i ==> ids[k] !in unreachable && Hosts(entries, ids[k])
      {
        assert ids[..i + 1][..i] == ids[..i] && ids[..i + 1][i] == ids[i];
        var id := ids[i];
        if id in unreachable {
          return Failure(StoreFailure);
        }
        if !(exists u :: u in entries && entries[u].accommodationId == id) {
          return Failure(NilEntry);
        }
        var u :| u in entries && entries[u].accommodationId == id;
        var periods := entries[u].periods;
        var available := true;
        var j := 0;
        while j < |periods|
          invariant 0 <= j <= |periods|
          invariant available
          invariant forall k :: 0 <= k < j ==> !LegacyPeriodsOverlap(start, end, periods[k].start, periods[k].end)
        {
          if LegacyPeriodsOverlap(start, end, periods[j].start, periods[j].end) {
            available := false;
            break;
          }
          j := j + 1;
        }
        assert available <==> LegacyFree(entries, id, start, end);
        if available {
          response := response + [id];
        }
      }
      assert ids[..|ids|] == ids;
      r := Success(response);
    }
  }
}
