/** Mapping between the transport records and the domain: the reason parser,
    the period and request builders and the request response list. */
module Dto {
  import opened Domain
  import opened UnavailabilityResponse

  /** The body of a period request; the reason may be omitted. */
  datatype ManageUnavailabilityPeriodDto = ManageUnavailabilityPeriodDto(
    start: Instant,
    end: Instant,
    reason: Option<string>)

  datatype AddReservationRequestDto = AddReservationRequestDto(
    accommodationId: ObjectId,
    accommodationName: string,
    hostId: string,
    userId: string,
    start: Instant,
    end: Instant,
    numberOfGuests: int,
    priceTotal: Price)

  datatype ReservationRequestResponse = ReservationRequestResponse(
    id: ObjectId,
    accommodationId: ObjectId,
    accommodationName: string,
    userId: string,
    start: Instant,
    end: Instant,
    numberOfGuests: int,
    priceTotal: Price,
    status: Status,
    numberOfCanceledReservations: int)

  /** Parses a reason name; the parse succeeds exactly on the names the
      printer produces, and yields the reason printed under that name. */
  function MapReason(reason: string): (r: Result<Reason>)
    ensures r.Success? ==> UnavailabilityReasonToString(ReasonCode(r.value)) == reason
    ensures r.Failure? ==> r.error == InvalidReason
    ensures r.Failure? <==> forall x: Reason :: UnavailabilityReasonToString(ReasonCode(x)) != reason
  {
    if reason == "Reserved" then Success(Reserved)
    else if reason == "OwnerSet" then Success(OwnerSet)
    else Failure(InvalidReason)
  }

  /** Printing a known reason and parsing it back gives the reason; what is
      printed for any other code is rejected. */
  lemma ReasonRoundTrip(code: int)
    ensures code == ReasonCode(Reserved) ==> MapReason(UnavailabilityReasonToString(code)) == Success(Reserved)
    ensures code == ReasonCode(OwnerSet) ==> MapReason(UnavailabilityReasonToString(code)) == Success(OwnerSet)
    ensures code != ReasonCode(Reserved) && code != ReasonCode(OwnerSet) ==>
      MapReason(UnavailabilityReasonToString(code)) == Failure(InvalidReason)
  {
  }

  /** A period with zero id, the request's span and its parsed reason. The
      source dereferences the parsed reason, so it must be present and valid. */
  function MapUnavailabilityPeriod(dto: ManageUnavailabilityPeriodDto): (p: Period)
    requires dto.reason.Some? && MapReason(dto.reason.value).Success?
    ensures p.start == dto.start && p.end == dto.end && p.id == NilObjectId
    ensures UnavailabilityReasonToString(ReasonCode(p.reason)) == dto.reason.value
  {
    Period(NilObjectId, dto.start, dto.end, MapReason(dto.reason.value).value)
  }

  /** Copies six fields; id, name, host and status keep their zero values, so
      the status is Pending. */
  function MapRegistrationRequest(dto: AddReservationRequestDto): (r: Request)
    ensures r.status == Pending && r.id == NilObjectId
    ensures r.accommodationName == "" && r.hostId == ""
    ensures r.accommodationId == dto.accommodationId && r.userId == dto.userId
    ensures r.start == dto.start && r.end == dto.end
    ensures r.numberOfGuests == dto.numberOfGuests && r.priceTotal == dto.priceTotal
  {
    Request(NilObjectId, dto.accommodationId, "", "", dto.userId, dto.start, dto.end,
      dto.numberOfGuests, dto.priceTotal, Pending)
  }

  /** The response for one request: the name is left empty and the cancel count 0. */
  function ResponseOf(r: Request): ReservationRequestResponse
  {
    ReservationRequestResponse(r.id, r.accommodationId, "", r.userId, r.start, r.end,
      r.numberOfGuests, r.priceTotal, r.status, 0)
  }

  method MapReservationRequestResponse(requests: seq<Request>) returns (response: seq<ReservationRequestResponse>)
    ensures |response| == |requests|
    ensures forall i :: 0 <= i < |requests| ==> response[i] == ResponseOf(requests[i])
  {
    response := [];
    for i := 0 to |requests|
      invariant |response| == i
      invariant forall k :: 0 <= k < i ==> response[k] == ResponseOf(requests[k])
    {
      response := response + [ResponseOf(requests[i])];
    }
  }

  /** A request built from a registration body answers with that body's
      accommodation, guest, span, guest count and price, still Pending. */
  lemma RegistrationResponse(dto: AddReservationRequestDto)
    ensures var resp := ResponseOf(MapRegistrationRequest(dto));
      && resp.accommodationId == dto.accommodationId && resp.userId == dto.userId
      && resp.start == dto.start && resp.end == dto.end
      && resp.numberOfGuests == dto.numberOfGuests && resp.priceTotal == dto.priceTotal
      && resp.status == Pending && resp.numberOfCanceledReservations == 0
  {
  }
}
