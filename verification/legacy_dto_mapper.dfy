/** The older mapper kept under booking-service/: the same reason parser and
    period builder. */
module LegacyDto {
  import opened Domain
  import Dto

  function MapReason(reason: string): (r: Result<Reason>)
    ensures r == Dto.MapReason(reason)
  {
    match reason
    case "Reserved" => Success(Reserved)
    case "OwnerSet" => Success(OwnerSet)
    case _ => Failure(InvalidReason)
  }

  function MapUnavailabilityPeriod(dto: Dto.ManageUnavailabilityPeriodDto): (p: Period)
    requires dto.reason.Some? && MapReason(dto.reason.value).Success?
    ensures p == Dto.MapUnavailabilityPeriod(dto)
  {
    Period(NilObjectId, dto.start, dto.end, MapReason(dto.reason.value).value)
  }
}
