/** Entities of the booking core: unavailability periods, ledger entries and
    reservation requests, with the error kinds the services return. */
module Domain {

  /** An instant, in seconds; the services only ever compare instants. */
  type Instant = int

  /** A store identifier; 0 is the zero value a freshly built struct carries. */
  type ObjectId = nat

  const NilObjectId: ObjectId := 0

  /** One day in seconds: the window `AddDate(0, 0, -1)` subtracts. */
  const Day: int := 86400

  /** Why a span is blocked; `Reserved` is the zero value (iota 0). */
  datatype Reason = Reserved | OwnerSet

  /** The integer a reason is stored as. */
  function ReasonCode(r: Reason): int
  {
    match r
    case Reserved => 0
    case OwnerSet => 1
  }

  /** Lifecycle of a reservation request. Pending is the zero value. */
  datatype Status = Pending | Approved | Declined | Completed | DeclinedByHost | DeclinedByUser

  datatype Period = Period(id: ObjectId, start: Instant, end: Instant, reason: Reason)

  /** A period as the validated request builds it: its end is not before its start. */
  predicate WellFormed(p: Period)
  {
    p.start <= p.end
  }

  /** The ledger entry of one accommodation. */
  datatype Entry = Entry(
    id: ObjectId,
    accommodationId: ObjectId,
    accommodationName: string,
    hostId: string,
    periods: seq<Period>,
    automatic: bool)

  /** The 32 raw bits of a `float32` price; never interpreted. */
  type Price = bv32

  datatype Request = Request(
    id: ObjectId,
    accommodationId: ObjectId,
    accommodationName: string,
    hostId: string,
    userId: string,
    start: Instant,
    end: Instant,
    numberOfGuests: int,
    priceTotal: Price,
    status: Status)

  /** What went wrong, named after the condition the services test. */
  datatype Error =
    | StoreFailure   // the store could not be read or written
    | NotFound       // no document with that id
    | NilEntry       // a missing entry was dereferenced (the service panics)
    | AlreadyExists
    | Conflict       // an overlapping Reserved period blocks the new one
    | NotPending
    | NotApproved
    | TooLate        // inside the day before the stay begins
    | InvalidReason  // a reason name other than "Reserved" or "OwnerSet"

  datatype Outcome = Ok | Fail(error: Error)

  /** A message handed to the broker; only what identifies it is kept. */
  datatype Event =
    | Notification(topic: string, receiver: string, reservationId: ObjectId, status: string)
    | AccommodationDelete(hostId: string)   // topic "accommodation.delete"

  /** A bulk call into the reservation request store whose body is not part of
      this model; it is recorded, not performed. */
  datatype RequestStoreCall =
    | DeleteByAccommodation(accommodationId: ObjectId)
    | DeleteByHost(hostId: string)
    | CancelOverlappingPending(approved: Request)

  datatype Result<T> = Success(value: T) | Failure(error: Error)

  /** An optional field: a Go pointer that may be nil. */
  datatype Option<T> = None | Some(value: T)
}
