/** The response shape of one unavailability period and the printer of its
    reason. */
module UnavailabilityResponse {
  import opened Domain

  /** The response fields that are not instants; ids stay ids here. */
  datatype UnavailabilityResponseDto = UnavailabilityResponseDto(
    id: ObjectId,
    accommodationId: ObjectId,
    accommodationName: string,
    reason: string)

  /** Names a stored reason code; a code outside the enum prints as "Unknown". */
  function UnavailabilityReasonToString(reason: int): (s: string)
    ensures s == "Unknown" <==> reason != ReasonCode(Reserved) && reason != ReasonCode(OwnerSet)
  {
    if reason == ReasonCode(Reserved) then "Reserved"
    else if reason == ReasonCode(OwnerSet) then "OwnerSet"
    else "Unknown"
  }

  /** The two reasons print differently. */
  lemma ReasonNamesDistinct(a: Reason, b: Reason)
    ensures UnavailabilityReasonToString(ReasonCode(a)) == UnavailabilityReasonToString(ReasonCode(b)) <==> a == b
  {
  }

  function MapToUnavailabilityResponse(id: ObjectId, accommodationId: ObjectId, accommodationName: string, reason: int)
    : (r: UnavailabilityResponseDto)
    ensures r.accommodationName == accommodationName
    ensures r.reason == UnavailabilityReasonToString(reason)
  {
    UnavailabilityResponseDto(id, accommodationId, accommodationName, UnavailabilityReasonToString(reason))
  }
}
