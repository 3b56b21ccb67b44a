/** The reservation workflow: a guest's request starts Pending, the host
    approves it (blocking its span in the ledger) or declines it, and the guest
    may cancel an approved stay while more than a day remains before it. */
module ReservationRequests {
  import opened Domain
  import opened PeriodAlgebra
  import opened Unavailability

  /** More than one day remains before the stay begins. */
  predicate IsReservationInFuture(r: Request, now: Instant)
    ensures IsReservationInFuture(r, now) ==> now < r.start
    ensures !IsReservationInFuture(r, now) ==> r.start <= now + Day
  {
    now < r.start - Day
  }

  /** The period that blocks a request's span: zero id, reason Reserved. */
  function ReservedSpan(r: Request): Period
  {
    Period(NilObjectId, r.start, r.end, Reserved)
  }

  /** The status changes the workflow performs. */
  predicate Step(before: Status, after: Status)
  {
    || (before == Pending && (after == Approved || after == DeclinedByHost))
    || (before == Approved && after == DeclinedByUser)
  }

  /** Every request present before and after kept its status or took one step. */
  predicate StepsOnly(before: map<ObjectId, Request>, after: map<ObjectId, Request>)
  {
    forall id :: id in before && id in after ==>
      after[id].status == before[id].status || Step(before[id].status, after[id].status)
  }

  function Rank(s: Status): nat
  {
    match s
    case Pending => 0
    case Approved => 1
    case _ => 2
  }

  /** A status history made of steps never returns: its rank only grows, a
      decided request is never Pending again, and a declined or cancelled
      request stays so. */
  lemma {:induction false} HistoryNeverReturns(h: seq<Status>)
    requires |h| >= 1
    requires forall i :: 0 <= i < |h| - 1 ==> h[i + 1] == h[i] || Step(h[i], h[i + 1])
    ensures Rank(h[0]) <= Rank(h[|h| - 1])
    ensures h[0] != Pending ==> h[|h| - 1] != Pending
    ensures Rank(h[0]) == 2 ==> h[|h| - 1] == h[0]
  {
    if |h| > 1 {
      var init := h[..|h| - 1];
      assert forall i :: 0 <= i < |init| - 1 ==> init[i + 1] == init[i] || Step(init[i], init[i + 1]);
      HistoryNeverReturns(init);
      assert init[0] == h[0] && init[|init| - 1] == h[|h| - 2];
    }
  }

  /** The pending requests of the same accommodation whose span overlaps the
      approved one: what the store's bulk cancellation selects. */
  function CancelTargets(requests: map<ObjectId, Request>, approved: Request): set<ObjectId>
  {
    set id | id in requests && requests[id].accommodationId == approved.accommodationId
      && requests[id].status == Pending
      && requests[id].start < approved.end && requests[id].end > approved.start
  }

  /** The requests of `clientId` the guest cancelled. */
  function CanceledBy(requests: map<ObjectId, Request>, clientId: string): set<ObjectId>
  {
    set id | id in requests && requests[id].userId == clientId && requests[id].status == DeclinedByUser
  }

  lemma {:induction false} SubsetCardinality(a: set<ObjectId>, b: set<ObjectId>)
    requires a <= b
    ensures |a| <= |b|
    decreases b
  {
    if a != {} {
      var x :| x in a;
      SubsetCardinality(a - {x}, b - {x});
    }
  }

  lemma NoneCanceled(requests: map<ObjectId, Request>, clientId: string)
    ensures CanceledBy(requests, clientId) == {} <==>
      forall id :: id in requests && requests[id].userId == clientId ==> requests[id].status != DeclinedByUser
  {
    var canceled := CanceledBy(requests, clientId);
    if canceled != {} {
      var x :| x in canceled;
      assert requests[x].userId == clientId && requests[x].status == DeclinedByUser;
    }
    assert forall id :: id in requests && requests[id].userId == clientId && requests[id].status == DeclinedByUser ==>
      id in canceled;
  }

  /** Only the requests a deletion loop was given may disappear, each one
      whose deletion does not fail, and nothing else changes. */
  predicate DeletedOnly(before: map<ObjectId, Request>, after: map<ObjectId, Request>, targets: set<ObjectId>, failing: set<ObjectId>)
  {
    && after.Keys <= before.Keys
    && (forall id :: id in after ==> after[id] == before[id])
    && (forall id :: id in before && id !in after ==> id in targets && id !in failing)
  }

  class ReservationRequestService {
    /** The reservation request store. */
    var requests: map<ObjectId, Request>
    const ledger: UnavailabilityService
    /** Requests whose update or deletion fails in the store. */
    const failing: set<ObjectId>
    ghost var storeCalls: seq<RequestStoreCall>
    ghost var events: seq<Event>

    ghost predicate Valid()
      reads this, ledger
    {
      ledger.Valid() && forall id :: id in requests ==> requests[id].id == id
    }

    constructor (ledger: UnavailabilityService, failing: set<ObjectId>)
      requires ledger.Valid()
      ensures Valid() && requests == map[] && storeCalls == [] && events == []
      ensures this.ledger == ledger && this.failing == failing
    {
      requests := map[];
      this.ledger := ledger;
      this.failing := failing;
      storeCalls := [];
      events := [];
    }

    /** How many of the client's requests the guest cancelled. */
    function GetNumberOfCanceled(clientId: string): (n: nat)
      reads this
      ensures n <= |requests|
      ensures n == 0 <==> forall id :: id in requests && requests[id].userId == clientId ==>
        requests[id].status != DeclinedByUser
    {
      var canceled := CanceledBy(requests, clientId);
      SubsetCardinality(canceled, requests.Keys);
      NoneCanceled(requests, clientId);
      |canceled|
    }

    /** Stores the request as Pending under a fresh id; on an accommodation that
        approves automatically it is approved at once. */
    method AddReservationRequest(request: Request, freshId: ObjectId, periodId: ObjectId) returns (o: Outcome)
      requires Valid() && freshId !in requests
      modifies this, ledger
      ensures Valid()
      ensures old(ledger.Lookup(request.accommodationId)).Fail? ==>
        && o == old(ledger.Lookup(request.accommodationId))
        && requests == old(requests) && events == old(events) && storeCalls == old(storeCalls)
        && unchanged(ledger)
      ensures old(ledger.Lookup(request.accommodationId)).Ok? && !old(ledger.entries[request.accommodationId].automatic) ==>
        && o == Ok
        && requests == old(requests)[freshId := request.(id := freshId, status := Pending)]
        && events == old(events) + [Notification("reservation-request.created", request.hostId, freshId, "")]
        && storeCalls == old(storeCalls) && unchanged(ledger)
      ensures old(ledger.Lookup(request.accommodationId)).Ok? && old(ledger.entries[request.accommodationId].automatic) ==>
        var approved := request.(id := freshId, status := Approved);
        && events == old(events)
             + (if o.Ok? then [Notification("host-reviewed-reservation-request", request.userId, freshId, "accept-request")] else [])
             + [Notification("reservation-request.created", request.hostId, freshId, "automatic")]
        && (freshId in failing ==>
              && o == Fail(StoreFailure)
              && requests == old(requests)[freshId := request.(id := freshId, status := Pending)]
              && storeCalls == old(storeCalls)
              && unchanged(ledger))
        && (freshId !in failing ==>
              && requests == old(requests)[freshId := approved]
              && storeCalls == old(storeCalls) + [CancelOverlappingPending(approved)]
              && o == old(ledger.AddPeriodOutcome(request.accommodationId, ReservedSpan(request)))
              && ledger.entries == old(ledger.EntriesAfterAdd(request.accommodationId, ReservedSpan(request), periodId))
              && ledger.requestStoreCalls == old(ledger.CallsAfterAdd(request.accommodationId, ReservedSpan(request)))
              && ledger.events == old(ledger.events))
    {
      var pending := request.(id := freshId, status := Pending);
      var automatic := ledger.IsAutomatic(request.accommodationId);
      if automatic.Failure? {
        return Fail(automatic.error);
      }
      requests := requests[freshId := pending];
      if automatic.value {
        o := ApproveRequest(freshId, periodId);
        events := events + [Notification("reservation-request.created", pending.hostId, freshId, "automatic")];
      } else {
        events := events + [Notification("reservation-request.created", pending.hostId, freshId, "")];
        o := Ok;
      }
    }

    /** Approves a Pending request, asks the store to cancel the overlapping
        pending ones (ignoring its answer) and blocks the span in the ledger.
        The guest is told only when the ledger accepts the span. */
    method ApproveRequest(id: ObjectId, periodId: ObjectId) returns (o: Outcome)
      requires Valid()
      modifies this, ledger
      ensures Valid()
      ensures StepsOnly(old(requests), requests)
      ensures id !in old(requests) ==>
        o == Fail(NotFound) && requests == old(requests) && events == old(events) && storeCalls == old(storeCalls) && unchanged(ledger)
      ensures id in old(requests) && old(requests[id].status) != Pending ==>
        o == Fail(NotPending) && requests == old(requests) && events == old(events) && storeCalls == old(storeCalls) && unchanged(ledger)
      ensures id in old(requests) && old(requests[id].status) == Pending && id in failing ==>
        o == Fail(StoreFailure) && requests == old(requests) && events == old(events) && storeCalls == old(storeCalls) && unchanged(ledger)
      ensures id in old(requests) && old(requests[id].status) == Pending && id !in failing ==>
        var r := old(requests[id]).(status := Approved);
        && requests == old(requests)[id := r]
        && storeCalls == old(storeCalls) + [CancelOverlappingPending(r)]
        && id !in CancelTargets(requests, r)
        && o == old(ledger.AddPeriodOutcome(r.accommodationId, ReservedSpan(r)))
        && ledger.entries == old(ledger.EntriesAfterAdd(r.accommodationId, ReservedSpan(r), periodId))
        && ledger.requestStoreCalls == old(ledger.CallsAfterAdd(r.accommodationId, ReservedSpan(r)))
        && ledger.events == old(ledger.events)
        && events == old(events) + (if o.Ok? then [Notification("host-reviewed-reservation-request", r.userId, id, "accept-request")] else [])
        && (o.Ok? ==> (r.accommodationId in ledger.entries
              && forall t :: r.start <= t <= r.end ==> Covers(ledger.entries[r.accommodationId].periods, t)))
    {
      if id !in requests {
        return Fail(NotFound);
      }
      var r := requests[id];
      if r.status != Pending {
        return Fail(NotPending);
      }
      r := r.(status := Approved);
      if id in failing {
        return Fail(StoreFailure);
      }
      requests := requests[id := r];
      storeCalls := storeCalls + [CancelOverlappingPending(r)];
      o := CreateUnavailabilityPeriod(r, periodId);
      if o.Fail? {
        return;
      }
      events := events + [Notification("host-reviewed-reservation-request", r.userId, id, "accept-request")];
    }

    /** Blocks the request's span as a Reserved period of its accommodation. */
    method CreateUnavailabilityPeriod(r: Request, periodId: ObjectId) returns (o: Outcome)
      requires ledger.Valid()
      modifies ledger
      ensures ledger.Valid()
      ensures o == old(ledger.AddPeriodOutcome(r.accommodationId, ReservedSpan(r)))
      ensures ledger.entries == old(ledger.EntriesAfterAdd(r.accommodationId, ReservedSpan(r), periodId))
      ensures ledger.requestStoreCalls == old(ledger.CallsAfterAdd(r.accommodationId, ReservedSpan(r)))
      ensures ledger.events == old(ledger.events)
      ensures o.Ok? ==> (r.accommodationId in ledger.entries
        && forall t :: r.start <= t <= r.end ==> Covers(ledger.entries[r.accommodationId].periods, t))
    {
      o := ledger.AddUnavailabilityPeriod(r.accommodationId, ReservedSpan(r), periodId);
    }

    method DeclineRequest(id: ObjectId) returns (o: Outcome)
      requires Valid()
      modifies this
      ensures Valid()
      ensures StepsOnly(old(requests), requests) && storeCalls == old(storeCalls)
      ensures id !in old(requests) ==> o == Fail(NotFound) && requests == old(requests) && events == old(events)
      ensures id in old(requests) && old(requests[id].status) != Pending ==>
        o == Fail(NotPending) && requests == old(requests) && events == old(events)
      ensures id in old(requests) && old(requests[id].status) == Pending && id in failing ==>
        o == Fail(StoreFailure) && requests == old(requests) && events == old(events)
      ensures id in old(requests) && old(requests[id].status) == Pending && id !in failing ==>
        && o == Ok
        && requests == old(requests)[id := old(requests[id]).(status := DeclinedByHost)]
        && events == old(events) + [Notification("host-reviewed-reservation-request", old(requests[id].userId), id, "decline-request")]
    {
      if id !in requests {
        return Fail(NotFound);
      }
      var r := requests[id];
      if r.status != Pending {
        return Fail(NotPending);
      }
      r := r.(status := DeclinedByHost);
      if id in failing {
        return Fail(StoreFailure);
      }
      requests := requests[id := r];
      events := events + [Notification("host-reviewed-reservation-request", r.userId, id, "decline-request")];
      o := Ok;
    }

    method DeleteRequest(id: ObjectId) returns (o: Outcome)
      requires Valid()
      modifies this
      ensures Valid() && events == old(events) && storeCalls == old(storeCalls)
      ensures id in failing ==> o == Fail(StoreFailure) && requests == old(requests)
      ensures id !in failing ==> o == Ok && requests == old(requests) - {id}
    {
      if id in failing {
        return Fail(StoreFailure);
      }
      requests := requests - {id};
      o := Ok;
    }

    /** The guest cancels an approved stay while more than a day remains; its
        span is released in the ledger and the host is told. */
    method DeclineReservation(id: ObjectId, now: Instant) returns (o: Outcome)
      requires Valid()
      modifies this, ledger
      ensures Valid()
      ensures StepsOnly(old(requests), requests) && storeCalls == old(storeCalls)
      ensures id !in old(requests) ==> o == Fail(NotFound) && requests == old(requests) && events == old(events) && unchanged(ledger)
      ensures id in old(requests) && old(requests[id].status) != Approved ==>
        o == Fail(NotApproved) && requests == old(requests) && events == old(events) && unchanged(ledger)
      ensures id in old(requests) && old(requests[id].status) == Approved && !IsReservationInFuture(old(requests[id]), now) ==>
        o == Fail(TooLate) && requests == old(requests) && events == old(events) && unchanged(ledger)
      ensures id in old(requests) && old(requests[id].status) == Approved && IsReservationInFuture(old(requests[id]), now) && id in failing ==>
        o == Fail(StoreFailure) && requests == old(requests) && events == old(events) && unchanged(ledger)
      ensures id in old(requests) && old(requests[id].status) == Approved && IsReservationInFuture(old(requests[id]), now) && id !in failing ==>
        var r := old(requests[id]);
        && requests == old(requests)[id := r.(status := DeclinedByUser)]
        && o == old(ledger.Lookup(r.accommodationId))
        && (o.Fail? ==> ledger.entries == old(ledger.entries))
        && (o.Ok? ==> ledger.entries == old(ledger.entries)[r.accommodationId :=
              old(ledger.entries[r.accommodationId]).(periods := Subtract(ReservedSpan(r), old(ledger.entries[r.accommodationId].periods)))])
        && ledger.requestStoreCalls == old(ledger.requestStoreCalls) && ledger.events == old(ledger.events)
        && events == old(events) + (if o.Ok? then [Notification("reservation.canceled", r.hostId, id, "canceled")] else [])
    {
      if id !in requests {
        return Fail(NotFound);
      }
      var r := requests[id];
      if r.status != Approved {
        return Fail(NotApproved);
      }
      if !IsReservationInFuture(r, now) {
        return Fail(TooLate);
      }
      if id in failing {
        return Fail(StoreFailure);
      }
      requests := requests[id := r.(status := DeclinedByUser)];
      o := ledger.RemoveUnavailabilityPeriod(r.accommodationId, ReservedSpan(r), false);
      if o.Fail? {
        return;
      }
      events := events + [Notification("reservation.canceled", r.hostId, id, "canceled")];
    }

    /** Deletes all requests of a guest unless one of them is an approved stay
        more than a day away. Deletion stops at the first failure, so some
        requests may already be gone. */
    method DeleteClient(clientId: string, now: Instant) returns (deleted: bool)
      requires Valid()
      modifies this
      ensures Valid() && events == old(events) && storeCalls == old(storeCalls)
      ensures var targets := set id | id in old(requests) && old(requests[id].userId) == clientId;
        && ((exists id :: id in targets && old(requests[id].status) == Approved && IsReservationInFuture(old(requests[id]), now)) ==>
              !deleted && requests == old(requests))
        && DeletedOnly(old(requests), requests, targets, failing)
        && (deleted <==> requests == old(requests) - targets)
        && (((forall id :: id in targets ==> !(old(requests[id].status) == Approved && IsReservationInFuture(old(requests[id]), now)))
               && targets !! failing) ==> deleted)
    {
      var targets := set id | id in requests && requests[id].userId == clientId;
      var unchecked := targets;
      while unchecked != {}
        invariant unchecked <= targets
        invariant forall id :: id in targets - unchecked ==> !(requests[id].status == Approved && IsReservationInFuture(requests[id], now))
        invariant events == old(events) && storeCalls == old(storeCalls)
        decreases unchecked
      {
        var id :| id in unchecked;
        if IsReservationInFuture(requests[id], now) && requests[id].status == Approved {
          return false;
        }
        unchecked := unchecked - {id};
      }
      ghost var before := requests;
      var remaining := targets;
      while remaining != {}
        invariant remaining <= targets
        invariant requests == before - (targets - remaining)
        invariant (targets - remaining) !! failing
        invariant Valid() && events == old(events) && storeCalls == old(storeCalls)
        decreases remaining
      {
        var id :| id in remaining;
        if id in failing {
          assert requests != before - targets by {
            assert id in requests;
          }
          return false;
        }
        requests := requests - {id};
        remaining := remaining - {id};
      }
      deleted := true;
    }

    /** Deletes the approved requests of an accommodation and then its ledger
        entry, unless one of them is more than a day away. */
    method CheckAccommodationHasReservation(accommodationId: ObjectId, now: Instant) returns (deleted: bool)
      requires Valid()
      modifies this, ledger
      ensures Valid() && events == old(events) && storeCalls == old(storeCalls)
      ensures ledger.requestStoreCalls == old(ledger.requestStoreCalls) && ledger.events == old(ledger.events)
      ensures var targets := set id | id in old(requests) && old(requests[id].accommodationId) == accommodationId
                                        && old(requests[id].status) == Approved;
        && ((exists id :: id in targets && IsReservationInFuture(old(requests[id]), now)) ==>
              !deleted && requests == old(requests) && unchanged(ledger))
        && (!(targets !! failing) ==> !deleted && unchanged(ledger))
        && DeletedOnly(old(requests), requests, targets, failing)
        && (deleted ==> requests == old(requests) - targets && accommodationId !in ledger.entries)
        && ((forall id :: id in targets ==> !IsReservationInFuture(old(requests[id]), now)) && targets !! failing ==>
              && requests == old(requests) - targets
              && (deleted <==> accommodationId !in ledger.unreachable)
              && ledger.entries == old(ledger.entries) - (if deleted then {accommodationId} else {}))
    {
      var targets := set id | id in requests && requests[id].accommodationId == accommodationId && requests[id].status == Approved;
      var unchecked := targets;
      while unchecked != {}
        invariant unchecked <= targets
        invariant forall id :: id in targets - unchecked ==> !IsReservationInFuture(requests[id], now)
        decreases unchecked
      {
        var id :| id in unchecked;
        if IsReservationInFuture(requests[id], now) {
          return false;
        }
        unchecked := unchecked - {id};
      }
      ghost var before := requests;
      var remaining := targets;
      while remaining != {}
        invariant remaining <= targets
        invariant requests == before - (targets - remaining)
        invariant (targets - remaining) !! failing
        invariant Valid() && unchanged(ledger)
        invariant events == old(events) && storeCalls == old(storeCalls)
        decreases remaining
      {
        var id :| id in remaining;
        var o := DeleteRequest(id);
        if o.Fail? {
          return false;
        }
        remaining := remaining - {id};
      }
      var o := ledger.DeleteByAccommodationId(accommodationId);
      deleted := o.Ok?;
    }
  }
}
