/** The availability ledger: one entry per accommodation holding its blocked
    periods, its name, its host and whether its requests are approved
    automatically. */
module Unavailability {
  import opened Domain
  import opened PeriodAlgebra
  import Intervals

  /** Two spans overlap when each starts strictly before the other ends, so
      spans that only touch do not overlap. */
  predicate PeriodsOverlap(start1: Instant, end1: Instant, start2: Instant, end2: Instant)
    ensures end1 <= start2 || end2 <= start1 ==> !PeriodsOverlap(start1, end1, start2, end2)
    ensures start1 < end1 && start2 < end2 ==>
      (PeriodsOverlap(start1, end1, start2, end2) <==> start1 <= start2 < end1 || start2 <= start1 < end2)
  {
    start1 < end2 && end1 > start2
  }

  /** A period lies in the future when it starts strictly after `now`. */
  predicate IsFuturePeriod(p: Period, now: Instant)
    ensures IsFuturePeriod(p, now) && WellFormed(p) ==> now < p.end
    ensures !IsFuturePeriod(p, now) ==> p.start <= now
  {
    p.start > now
  }

  /** Some stored Reserved period overlaps `period`; OwnerSet periods never block. */
  predicate Blocks(periods: seq<Period>, period: Period)
  {
    exists i :: 0 <= i < |periods| && periods[i].reason == Reserved
      && PeriodsOverlap(periods[i].start, periods[i].end, period.start, period.end)
  }

  /** An accommodation is free for `[start, end]` when it has no entry or none of
      its periods overlaps the span. */
  predicate Free(entries: map<ObjectId, Entry>, id: ObjectId, start: Instant, end: Instant)
  {
    id !in entries
    || forall i :: 0 <= i < |entries[id].periods| ==>
         !PeriodsOverlap(start, end, entries[id].periods[i].start, entries[id].periods[i].end)
  }

  /** The free ids among `ids`, in their order in `ids`. */
  function Available(entries: map<ObjectId, Entry>, ids: seq<ObjectId>, start: Instant, end: Instant): (r: seq<ObjectId>)
    ensures |r| <= |ids|
  {
    if ids == [] then []
    else
      var last := ids[|ids| - 1];
      Available(entries, ids[..|ids| - 1], start, end) + (if Free(entries, last, start, end) then [last] else [])
  }

  predicate FutureReserved(periods: seq<Period>, now: Instant)
  {
    exists i :: 0 <= i < |periods| && IsFuturePeriod(periods[i], now) && periods[i].reason == Reserved
  }

  /** Some entry of the host still holds a Reserved period that starts after `now`. */
  predicate HostHasFutureReservation(entries: map<ObjectId, Entry>, hostId: string, now: Instant)
  {
    exists a :: a in entries && entries[a].hostId == hostId && FutureReserved(entries[a].periods, now)
  }

  /** Overlap does not depend on which span comes first. */
  lemma OverlapSymmetric(start1: Instant, end1: Instant, start2: Instant, end2: Instant)
    ensures PeriodsOverlap(start1, end1, start2, end2) == PeriodsOverlap(start2, end2, start1, end1)
  {
  }

  /** Spans that meet at an endpoint do not overlap. */
  lemma TouchingDoNotOverlap(start1: Instant, end1: Instant, start2: Instant, end2: Instant)
    requires start1 <= end1 && start2 <= end2
    requires end1 == start2 || end2 == start1
    ensures !PeriodsOverlap(start1, end1, start2, end2)
  {
  }

  /** `t` lies in the half-open span `[start, end)`. */
  predicate InSpan(t: Instant, start: Instant, end: Instant)
  {
    start <= t < end
  }

  /** For non-empty spans, overlap means that some instant lies in both
      half-open spans. */
  lemma OverlapMeansSharedInstant(start1: Instant, end1: Instant, start2: Instant, end2: Instant)
    requires start1 < end1 && start2 < end2
    ensures PeriodsOverlap(start1, end1, start2, end2) <==>
      exists t :: InSpan(t, start1, end1) && InSpan(t, start2, end2)
  {
    if PeriodsOverlap(start1, end1, start2, end2) {
      var t := MaxTime(start1, start2);
      assert InSpan(t, start1, end1) && InSpan(t, start2, end2);
    }
  }

  /** An approved stay that touches an owner block is merged into it and
      loses its Reserved reason, so an overlapping second approval is no
      longer refused. */
  lemma MergedOwnerBlockHidesReservation()
    ensures var stored := [Period(1, 0, 10, OwnerSet), Period(2, 10, 15, Reserved)];
      && Blocks(stored, Period(0, 12, 14, Reserved))
      && Merge(stored) == [Period(1, 0, 15, OwnerSet)]
      && !Blocks(Merge(stored), Period(0, 12, 14, Reserved))
  {
    var stored := [Period(1, 0, 10, OwnerSet), Period(2, 10, 15, Reserved)];
    MergeTwo(stored[0], stored[1]);
    assert stored[1].reason == Reserved;
  }

  /** Exactly the free ids of `ids` are kept. */
  lemma {:induction false} AvailableMembers(entries: map<ObjectId, Entry>, ids: seq<ObjectId>, start: Instant, end: Instant, x: ObjectId)
    ensures x in Available(entries, ids, start, end) <==> x in ids && Free(entries, x, start, end)
  {
    if ids != [] {
      var init, last := ids[..|ids| - 1], ids[|ids| - 1];
      assert ids == init + [last];
      AvailableMembers(entries, init, start, end, x);
    }
  }

  /** Filtering works id by id: it keeps the order of `ids`. */
  lemma {:induction false} AvailableConcat(entries: map<ObjectId, Entry>, a: seq<ObjectId>, b: seq<ObjectId>, start: Instant, end: Instant)
    ensures Available(entries, a + b, start, end) == Available(entries, a, start, end) + Available(entries, b, start, end)
    decreases |b|
  {
    if b == [] {
      assert a + b == a;
    } else {
      var init, last := b[..|b| - 1], b[|b| - 1];
      assert a + b == (a + init) + [last];
      assert (a + b)[..|a + b| - 1] == a + init;
      AvailableConcat(entries, a, init, start, end);
    }
  }

  class UnavailabilityService {
    /** The unavailability store, keyed by accommodation id. */
    var entries: map<ObjectId, Entry>
    /** Accommodations whose lookup fails in the store. */
    const unreachable: set<ObjectId>
    /** Hosts whose lookup fails in the store. */
    const unreachableHosts: set<string>
    /** Whether the reservation request store fails its bulk deletions. */
    const requestStoreFails: bool
    ghost var requestStoreCalls: seq<RequestStoreCall>
    ghost var events: seq<Event>

    ghost predicate Valid()
      reads this
    {
      forall a :: a in entries ==> entries[a].accommodationId == a
    }

    constructor (unreachable: set<ObjectId>, unreachableHosts: set<string>, requestStoreFails: bool)
      ensures Valid() && entries == map[]
      ensures this.unreachable == unreachable && this.unreachableHosts == unreachableHosts
      ensures this.requestStoreFails == requestStoreFails
      ensures requestStoreCalls == [] && events == []
    {
      entries := map[];
      this.unreachable := unreachable;
      this.unreachableHosts := unreachableHosts;
      this.requestStoreFails := requestStoreFails;
      requestStoreCalls := [];
      events := [];
    }

    /** What loading the entry of `accommodationId` yields. */
    function Lookup(accommodationId: ObjectId): Outcome
      reads this
    {
      if accommodationId in unreachable then Fail(StoreFailure)
      else if accommodationId !in entries then Fail(NilEntry)
      else Ok
    }

    /** What `AddUnavailabilityPeriod` returns in the current state. */
    function AddPeriodOutcome(accommodationId: ObjectId, period: Period): Outcome
      reads this
    {
      if Lookup(accommodationId).Fail? then Lookup(accommodationId)
      else if Blocks(entries[accommodationId].periods, period) then Fail(Conflict)
      else if requestStoreFails then Fail(StoreFailure)
      else Ok
    }

    /** Whether `AddUnavailabilityPeriod` writes the period in the current state:
        the entry loads and no Reserved period of it overlaps the new one. */
    predicate AddsPeriod(accommodationId: ObjectId, period: Period)
      reads this
    {
      Lookup(accommodationId).Ok? && !Blocks(entries[accommodationId].periods, period)
    }

    /** The store `AddUnavailabilityPeriod` leaves behind: the entry's periods
        merged with the stamped period when it writes, the old store otherwise. */
    function EntriesAfterAdd(accommodationId: ObjectId, period: Period, freshId: ObjectId): map<ObjectId, Entry>
      reads this
    {
      if AddsPeriod(accommodationId, period) then
        entries[accommodationId := entries[accommodationId].(periods :=
          Merge(entries[accommodationId].periods + [period.(id := freshId)]))]
      else entries
    }

    /** The request-store calls `AddUnavailabilityPeriod` records: one deletion
        for the accommodation when it writes. */
    ghost function CallsAfterAdd(accommodationId: ObjectId, period: Period): seq<RequestStoreCall>
      reads this
    {
      requestStoreCalls + (if AddsPeriod(accommodationId, period) then [DeleteByAccommodation(accommodationId)] else [])
    }

    /** On an entry with no periods, adding a period stores exactly that
        period under its fresh id. */
    lemma AddToEmptyEntry(accommodationId: ObjectId, period: Period, freshId: ObjectId)
      requires Lookup(accommodationId).Ok? && entries[accommodationId].periods == []
      ensures AddsPeriod(accommodationId, period)
      ensures EntriesAfterAdd(accommodationId, period, freshId)[accommodationId].periods == [period.(id := freshId)]
    {
      assert [] + [period.(id := freshId)] == [period.(id := freshId)];
    }

    method AddUnavailability(accommodationId: ObjectId, accommodationName: string, automatically: bool, hostId: string, freshId: ObjectId)
      returns (o: Outcome)
      requires Valid()
      modifies this
      ensures Valid()
      ensures accommodationId in unreachable ==> o == Fail(StoreFailure) && entries == old(entries)
      ensures accommodationId !in unreachable && accommodationId in old(entries) ==>
        o == Fail(AlreadyExists) && entries == old(entries)
      ensures accommodationId !in unreachable && accommodationId !in old(entries) ==>
        o == Ok && entries == old(entries)[accommodationId := Entry(freshId, accommodationId, accommodationName, hostId, [], automatically)]
      ensures requestStoreCalls == old(requestStoreCalls) && events == old(events)
    {
      if accommodationId in unreachable {
        return Fail(StoreFailure);
      }
      if accommodationId in entries {
        return Fail(AlreadyExists);
      }
      entries := entries[accommodationId := Entry(freshId, accommodationId, accommodationName, hostId, [], automatically)];
      o := Ok;
    }

    /** Rewrites name, host and auto-approval flag; the periods stay as they were. */
    method UpdateUnavailability(accommodationId: ObjectId, accommodationName: string, automatically: bool, hostId: string)
      returns (o: Outcome)
      requires Valid()
      modifies this
      ensures Valid()
      ensures o == old(Lookup(accommodationId))
      ensures o.Fail? ==> entries == old(entries)
      ensures o.Ok? ==> entries == old(entries)[accommodationId :=
        old(entries[accommodationId]).(accommodationName := accommodationName, hostId := hostId, automatic := automatically)]
      ensures o.Ok? ==> entries[accommodationId].periods == old(entries[accommodationId].periods)
      ensures requestStoreCalls == old(requestStoreCalls) && events == old(events)
    {
      o := Lookup(accommodationId);
      if o.Fail? {
        return;
      }
      var entry := entries[accommodationId];
      entries := entries[accommodationId := entry.(accommodationName := accommodationName, hostId := hostId, automatic := automatically)];
    }

    /** Blocks `period` (under the fresh id the service gives it) unless a
        Reserved period overlaps it, then drops the accommodation's requests. */
    method AddUnavailabilityPeriod(accommodationId: ObjectId, period: Period, freshId: ObjectId)
      returns (o: Outcome)
      requires Valid()
      modifies this
      ensures Valid()
      ensures o == old(AddPeriodOutcome(accommodationId, period))
      ensures entries == old(EntriesAfterAdd(accommodationId, period, freshId))
      ensures requestStoreCalls == old(CallsAfterAdd(accommodationId, period))
      ensures events == old(events)
      ensures !old(AddsPeriod(accommodationId, period)) ==> entries == old(entries)
      ensures old(AddsPeriod(accommodationId, period)) ==>
        forall t :: period.start <= t <= period.end ==> Covers(entries[accommodationId].periods, t)
    {
      o := Lookup(accommodationId);
      if o.Fail? {
        return;
      }
      var entry := entries[accommodationId];
      var stamped := period.(id := freshId);
      var ok := CheckIfCouldAddUnavailability(entry.periods, stamped);
      if !ok {
        return Fail(Conflict);
      }
      var merged := Intervals.InsertPeriod(stamped, entry.periods);
      entries := entries[accommodationId := entry.(periods := merged)];
      requestStoreCalls := requestStoreCalls + [DeleteByAccommodation(accommodationId)];
      if requestStoreFails {
        return Fail(StoreFailure);
      }
      o := Ok;
    }

    /** Scans the stored periods and stops at the first Reserved one that
        overlaps `period`. */
    method CheckIfCouldAddUnavailability(periods: seq<Period>, period: Period) returns (ok: bool)
      ensures ok <==> !Blocks(periods, period)
    {
      for i := 0 to |periods|
        invariant forall k :: 0 <= k < i ==>
          !(periods[k].reason == Reserved && PeriodsOverlap(periods[k].start, periods[k].end, period.start, period.end))
      {
        if PeriodsOverlap(periods[i].start, periods[i].end, period.start, period.end) {
          if periods[i].reason == Reserved {
            return false;
          }
        }
      }
      ok := true;
    }

    /** Subtracts `period` from the entry's periods. The flag is accepted and
        has no effect. */
    method RemoveUnavailabilityPeriod(accommodationId: ObjectId, period: Period, shouldRemainReserved: bool)
      returns (o: Outcome)
      requires Valid()
      modifies this
      ensures Valid()
      ensures o == old(Lookup(accommodationId))
      ensures o.Fail? ==> entries == old(entries)
      ensures o.Ok? ==> entries == old(entries)[accommodationId :=
        old(entries[accommodationId]).(periods := Subtract(period, old(entries[accommodationId].periods)))]
      ensures o.Ok? ==> forall t :: period.start < t < period.end ==> !Covers(entries[accommodationId].periods, t)
      ensures requestStoreCalls == old(requestStoreCalls) && events == old(events)
    {
      o := Lookup(accommodationId);
      if o.Fail? {
        return;
      }
      var entry := entries[accommodationId];
      var updated := Intervals.RemovePeriod(period, entry.periods);
      entries := entries[accommodationId := entry.(periods := updated)];
      forall t | period.start < t < period.end
        ensures !Covers(updated, t)
      {
        SubtractCovers(period, entry.periods, t);
      }
    }

    method DeleteByAccommodationId(accommodationId: ObjectId) returns (o: Outcome)
      requires Valid()
      modifies this
      ensures Valid()
      ensures accommodationId in unreachable ==> o == Fail(StoreFailure) && entries == old(entries)
      ensures accommodationId !in unreachable ==> o == Ok && entries == old(entries) - {accommodationId}
      ensures requestStoreCalls == old(requestStoreCalls) && events == old(events)
    {
      if accommodationId in unreachable {
        return Fail(StoreFailure);
      }
      entries := entries - {accommodationId};
      o := Ok;
    }

    /** Keeps, in order, the ids free for `[start, end]`; ids with no entry are
        free. A failed lookup aborts the whole call. */
    method FilterAvailable(ids: seq<ObjectId>, start: Instant, end: Instant) returns (r: Result<seq<ObjectId>>)
      ensures r.Failure? <==> exists i :: 0 <= i < |ids| && ids[i] in unreachable
      ensures r.Failure? ==> r.error == StoreFailure
      ensures r.Success? ==> r.value == Available(entries, ids, start, end)
    {
      var response: seq<ObjectId> := [];
      for i := 0 to |ids|
        invariant response == Available(entries, ids[..i], start, end)
        invariant forall k :: 0 <= k < i ==> ids[k] !in unreachable
      {
        assert ids[..i + 1][..i] == ids[..i] && ids[..i + 1][i] == ids[i];
        var id := ids[i];
        if id in unreachable {
          return Failure(StoreFailure);
        }
        if id !in entries {
          response := response + [id];
        } else {
          var periods := entries[id].periods;
          var available := true;
          var j := 0;
          while j < |periods|
            invariant 0 <= j <= |periods|
            invariant available
            invariant forall k :: 0 <= k < j ==> !PeriodsOverlap(start, end, periods[k].start, periods[k].end)
          {
            if PeriodsOverlap(start, end, periods[j].start, periods[j].end) {
              available := false;
              break;
            }
            j := j + 1;
          }
          assert available <==> Free(entries, id, start, end);
          if available {
            response := response + [id];
          }
        }
      }
      assert ids[..|ids|] == ids;
      r := Success(response);
    }

    /** Refuses while any entry of the host holds a future Reserved period;
        otherwise announces the deletion and drops the host's requests. */
    method DeleteHost(hostId: string, now: Instant) returns (r: Result<bool>)
      requires Valid()
      modifies this
      ensures Valid() && entries == old(entries)
      ensures hostId in unreachableHosts ==>
        r == Failure(StoreFailure) && events == old(events) && requestStoreCalls == old(requestStoreCalls)
      ensures hostId !in unreachableHosts && HostHasFutureReservation(entries, hostId, now) ==>
        r == Success(false) && events == old(events) && requestStoreCalls == old(requestStoreCalls)
      ensures hostId !in unreachableHosts && !HostHasFutureReservation(entries, hostId, now) ==>
        && events == old(events) + [AccommodationDelete(hostId)]
        && requestStoreCalls == old(requestStoreCalls) + [DeleteByHost(hostId)]
        && r == (if requestStoreFails then Failure(StoreFailure) else Success(true))
    {
      if hostId in unreachableHosts {
        return Failure(StoreFailure);
      }
      var remaining := set a | a in entries && entries[a].hostId == hostId;
      while remaining != {}
        invariant forall a :: a in remaining ==> a in entries && entries[a].hostId == hostId
        invariant forall a :: a in entries && entries[a].hostId == hostId && a !in remaining ==>
          !FutureReserved(entries[a].periods, now)
        decreases remaining
      {
        var a :| a in remaining;
        var periods := entries[a].periods;
        for i := 0 to |periods|
          invariant forall k :: 0 <= k < i ==> !(IsFuturePeriod(periods[k], now) && periods[k].reason == Reserved)
        {
          if IsFuturePeriod(periods[i], now) && periods[i].reason == Reserved {
            return Success(false);
          }
        }
        remaining := remaining - {a};
      }
      events := events + [AccommodationDelete(hostId)];
      requestStoreCalls := requestStoreCalls + [DeleteByHost(hostId)];
      if requestStoreFails {
        return Failure(StoreFailure);
      }
      r := Success(true);
    }

    method IsAutomatic(accommodationId: ObjectId) returns (r: Result<bool>)
      ensures accommodationId in unreachable ==> r == Failure(StoreFailure)
      ensures accommodationId !in unreachable && accommodationId !in entries ==> r == Failure(NilEntry)
      ensures accommodationId !in unreachable && accommodationId in entries ==>
        r == Success(entries[accommodationId].automatic)
    {
      if accommodationId in unreachable {
        return Failure(StoreFailure);
      }
      if accommodationId !in entries {
        return Failure(NilEntry);
      }
      r := Success(entries[accommodationId].automatic);
    }
  }
}
