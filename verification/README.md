# Booking service core in Dafny

This project models the core of the booking service: the per-accommodation
interval engine that keeps blocked periods, the availability ledger built on
it, the reservation-request workflow, and the small codecs that map reasons
and requests to and from their transport records.

- **Periods** (`domain.dfy`) are `Period(id, start, end, reason)` with
  instants as integer seconds, reason `Reserved` (the zero value) or
  `OwnerSet`, and ids as naturals where `0` is the zero id.
- **Interval engine.** `PeriodSort` and `PeriodAlgebra` define the behaviour
  as functions:
  - a stable sort by start;
  - the sweep that merges overlapping or touching periods;
  - subtraction of one span, period by period.
  `Intervals` holds the code as it is written: an in-place bubble sort on an
  `array`, the merge loop with its `currentPeriod` accumulator, append-then-merge
  insertion and the removal loop. Each method is proved equal to the
  function. `LegacyIntervals` holds the older copy under `booking-service/`,
  written out again. It is proved against the same functions, so the two
  copies compute the same results.
- **Ledger** (`Unavailability.UnavailabilityService`) is a class whose store
  is a `map` from accommodation id to entry. Accommodations whose lookup fails
  form a fixed set. A missing entry, which the source dereferences, yields
  the error `NilEntry`. The bulk calls into the request store are recorded in
  a ghost log, and so are broker notices. `LegacyUnavailability` is the older
  ledger: it is keyed by entry id, has no conflict check and uses a different
  overlap test.
- **Workflow** (`ReservationRequests.ReservationRequestService`) keeps the
  request store as a `map` and holds the ledger. Broker messages go to a ghost
  event log, and the clock is a `now` parameter. Every operation only moves a
  status along Pending→Approved, Pending→DeclinedByHost or
  Approved→DeclinedByUser. `HistoryNeverReturns` shows that such histories
  never come back.
- **Codecs** (`Dto`, `UnavailabilityResponse`, `LegacyDto`): the reason
  parser and printer round-trip. The request builders copy the fields they
  name and leave the others at zero.
- **Corrected interval operations** (`IntendedPeriods`, `intended_periods.dfy`)
  sit beside the written ones for the findings below: a removal that releases
  only the instants inside the removed span, and a merge that coalesces each
  reason on its own.

The HTTP handler forces periods added by a host to `OwnerSet`
(infrastructure/api/unavailability_handler.go:61). It also passes `true` as the
`shouldRemainReserved` flag when a host removes a period (line 89). The ledger
accepts that flag and ignores it, because the removal it calls takes no such
argument.

## Model

| member | source | states |
|---|---|---|
| PeriodSort.StableSortByStartCorrect | application/merge-overlapping-periods.go:36-45 | the functional sort orders periods by non-decreasing start and keeps, for every start instant, the periods with that start in input order (stability) |
| PeriodSort.SortedStableIsSort | application/merge-overlapping-periods.go:36-45 | any rearrangement that is sorted by start and keeps every start group's order equals the functional stable sort, so the in-place sort is determined |
| PeriodSort.SwapKeepsStartGroups | application/merge-overlapping-periods.go:40-42 | swapping two neighbours with different starts keeps the order of every start group, which is why swapping only on "strictly after" is stable |
| PeriodSort.CompareSwapStep | application/merge-overlapping-periods.go:39-43 | one compare-and-swap moves the latest start seen so far one place right, keeps contents and start groups, touches nothing past the next index and keeps the prefix under any bound it was under |
| PeriodSort.PassSettles | application/merge-overlapping-periods.go:38-44 | after a full inner pass the periods from the pass's last index on are sorted and no earlier period starts later than any of them |
| PeriodSort.SortSortedIdentity | application/merge-overlapping-periods.go:36-45 | sorting an already sorted list changes nothing |
| PeriodAlgebra.MaxTime | application/merge-overlapping-periods.go:47-52 | the result is one of the two instants and no earlier than either |
| PeriodAlgebra.SweepShape | application/merge-overlapping-periods.go:17-31 | the sweep over sorted periods yields a sorted, strictly separated list no longer than its input whose first period keeps the head's id, start and reason |
| PeriodAlgebra.SweepCovers | application/merge-overlapping-periods.go:17-31 | an instant is covered by the sweep's output iff it lies in the accumulator or in one of the remaining periods |
| PeriodAlgebra.SweepProvenance | application/merge-overlapping-periods.go:17-31 | each output period takes id, start and reason from some input period and its end from some input period |
| PeriodAlgebra.SweepOpens | application/merge-overlapping-periods.go:19-28 | every output of the sweep is the accumulator's run or starts after the accumulator's end |
| PeriodAlgebra.SweepKeepsAccumulatorEnd | application/merge-overlapping-periods.go:19-28 | an output that holds the accumulator's start ends no earlier than the accumulator |
| PeriodAlgebra.SweepRunEnds | application/merge-overlapping-periods.go:19-28 | an output ends no earlier than any visited period that starts inside it, so each run closes at the largest end among its periods |
| PeriodAlgebra.SweepContains | application/merge-overlapping-periods.go:19-31 | every visited period, the accumulator included, lies inside one output |
| PeriodAlgebra.SweepHeads | application/merge-overlapping-periods.go:17-31 | over well-formed periods, each output keeps the id, start and reason of the first visited period with its start |
| PeriodAlgebra.SweepSeparatedIdentity | application/merge-overlapping-periods.go:19-28 | on a strictly separated list the sweep emits every period unchanged |
| PeriodAlgebra.MergeShape | application/merge-overlapping-periods.go:8-34 | the merge is sorted by start, consecutive periods are strictly separated (touching ones merge), it is no longer than its input and empty iff its input is |
| PeriodAlgebra.MergeCovers | application/merge-overlapping-periods.go:8-34 | an instant lies in some output period iff it lies in some input period |
| PeriodAlgebra.MergeProvenance | application/merge-overlapping-periods.go:17-31 | each merged period keeps id, start and reason of an input period, and its end is the end of an input period |
| PeriodAlgebra.MergeIsSweep | application/merge-overlapping-periods.go:8-17 | two or more periods are merged by sweeping their stable sort from its first period, and the sort holds the same periods in the same start groups |
| PeriodAlgebra.MergeRunEnds | application/merge-overlapping-periods.go:19-28 | each merged period ends no earlier than any input period that starts inside it |
| PeriodAlgebra.MergeContains | application/merge-overlapping-periods.go:8-34 | every input period lies inside one merged period; with `MergeRunEnds`, `MergeCovers` and `MergeShape` this fixes the merged spans as the runs of touching periods |
| PeriodAlgebra.MergeHeads | application/merge-overlapping-periods.go:13-26 | over well-formed periods, each merged period keeps the id, start and reason of the first input period, in input order, with its start |
| PeriodAlgebra.MergeIdempotent | application/merge-overlapping-periods.go:8-34 | merging a merged list changes nothing |
| PeriodAlgebra.MergeTwo | application/merge-overlapping-periods.go:19-28 | two periods in start order merge into one ending at the later end when the second starts no later than the first ends, and stay apart otherwise |
| PeriodAlgebra.SubtractConcat | application/merge-overlapping-periods.go:62-79 | removal works period by period: removing from a concatenation concatenates the removals |
| PeriodAlgebra.SubtractLength | application/merge-overlapping-periods.go:59-82 | removal yields at most two periods per input period |
| PeriodAlgebra.SubtractDisjoint | application/merge-overlapping-periods.go:63-65 | periods wholly before or after the removed span are copied unchanged, with id and reason, in input order |
| PeriodAlgebra.PiecesInside | application/merge-overlapping-periods.go:68-71 | a span strictly inside a period yields exactly the fragments before and after it |
| PeriodAlgebra.PiecesCovered | application/merge-overlapping-periods.go:66-79 | a period the removed span covers yields nothing |
| PeriodAlgebra.PiecesTouching | application/merge-overlapping-periods.go:63-78 | a period that meets the removed span only at an end point falls through every branch and is dropped whole |
| PeriodAlgebra.SubtractFragments | application/merge-overlapping-periods.go:70-77 | every output period is an input period or a fragment with zero id and zero reason `Reserved` |
| PeriodAlgebra.SubtractCovers | application/merge-overlapping-periods.go:59-82 | removal covers nothing new, and no instant strictly inside the removed span stays covered |
| PeriodAlgebra.SubtractKeepsOutside | application/merge-overlapping-periods.go:62-79 | an instant of a period outside the removed span stays covered unless the period merely touches the span |
| PeriodAlgebra.SubtractSeparated | application/merge-overlapping-periods.go:59-82 | removing a span of positive length from a coalesced list of well-formed periods leaves it coalesced |
| PeriodAlgebra.ZeroLengthRemovalSplits | application/merge-overlapping-periods.go:66-71 | removing the zero-length span `[5, 5]` from an OwnerSet period `[0, 10]` yields two touching Reserved fragments, so the list is no longer coalesced |
| PeriodAlgebra.TouchingRemovalDropsPeriod | application/merge-overlapping-periods.go:63-78 | removing `[10, 20]` drops the whole period `[0, 10]`, including instant 5 outside the removed span |
| PeriodAlgebra.RemoveAfterInsert | application/merge-overlapping-periods.go:54-82 | removing a well-formed period from the list holding only it leaves nothing |
| Intervals.SortPeriodsByStartTime | application/merge-overlapping-periods.go:36-45 | the in-place bubble sort leaves a permutation of its input, sorted by start, stable, equal to the functional stable sort |
| Intervals.BubblePass | application/merge-overlapping-periods.go:39-43 | one inner pass moves the latest start of the unsorted prefix to its end, touches nothing behind it and keeps start groups and contents |
| Intervals.CompareAndSwap | application/merge-overlapping-periods.go:40-42 | the inner loop's body leaves the array as the compare-and-swap step at that index prescribes |
| Intervals.MergeOverlappingPeriods | application/merge-overlapping-periods.go:8-34 | returns the merge of its input (inputs of length 0 or 1 unchanged), sorted, separated, no longer than the input and covering the same instants; leaves the caller's array sorted |
| Intervals.SweepSorted | application/merge-overlapping-periods.go:16-31 | the accumulator loop over a sorted array computes the sweep |
| Intervals.InsertPeriod | application/merge-overlapping-periods.go:54-57 | the result is the merge of the periods with the new one appended: sorted, separated, covering exactly the old instants plus the new span |
| Intervals.RemovePeriod | application/merge-overlapping-periods.go:59-82 | the loop computes the subtraction and yields at most two periods per input period |
| Intervals.CoversAppend | application/merge-overlapping-periods.go:54-57 | appending a period adds exactly its span to the covered instants |
| LegacyIntervals.MaxTime | booking-service/application/merge_overlapping_periods.go:42-47 | the result is one of the two instants and no earlier than either |
| LegacyIntervals.SortPeriodsByStartTime | booking-service/application/merge_overlapping_periods.go:32-40 | the older bubble sort is a stable permutation sorted by start, equal to the same functional sort |
| LegacyIntervals.BubblePass | booking-service/application/merge_overlapping_periods.go:34-38 | one inner pass moves the latest start of the prefix to its end and keeps start groups and contents |
| LegacyIntervals.CompareAndSwap | booking-service/application/merge_overlapping_periods.go:35-37 | the inner loop's body leaves the array as the compare-and-swap step at that index prescribes |
| LegacyIntervals.MergeOverlappingPeriods | booking-service/application/merge_overlapping_periods.go:8-30 | the older merge returns the same merge as the current copy; short inputs are returned unchanged; the output is sorted and separated |
| LegacyIntervals.SweepSorted | booking-service/application/merge_overlapping_periods.go:15-27 | the older accumulator loop computes the same sweep |
| LegacyIntervals.InsertPeriod | booking-service/application/merge_overlapping_periods.go:49-52 | the older insertion is append-then-merge, equal to the current one |
| LegacyIntervals.RemovePeriod | booking-service/application/merge_overlapping_periods.go:54-72 | the older removal computes the same subtraction, keeping non-overlapping periods in order and building zero-id fragments |
| Unavailability.OverlapSymmetric | application/unavailability_service.go:228-230 | the overlap test does not depend on which span comes first |
| Unavailability.PeriodsOverlap | application/unavailability_service.go:228-230 | spans that only touch or lie apart never overlap; non-empty spans overlap iff one starts inside the other's half-open span |
| Unavailability.IsFuturePeriod | application/unavailability_service.go:223-226 | a future well-formed period also ends after now; a period that is not future has started by now |
| Unavailability.TouchingDoNotOverlap | application/unavailability_service.go:228-230 | well-formed spans that meet only at an end point do not overlap |
| Unavailability.OverlapMeansSharedInstant | application/unavailability_service.go:228-230 | for non-empty spans, overlap holds iff some instant lies in both half-open spans |
| Unavailability.Available | application/unavailability_service.go:160-184 | the filtered list is no longer than the ids given |
| Unavailability.AvailableMembers | application/unavailability_service.go:160-184 | an id is kept iff it is among the ids and it has no entry or none of its periods overlaps the requested span |
| Unavailability.AvailableConcat | application/unavailability_service.go:160-184 | the filter decides id by id and keeps the order of the ids |
| Unavailability.UnavailabilityService.constructor | application/unavailability_service.go:25-32 | a new ledger is empty, with empty logs |
| Unavailability.UnavailabilityService.AddUnavailability | application/unavailability_service.go:34-60 | a failed lookup or an existing entry returns an error and writes nothing; otherwise an entry with empty periods and the given name, host and flag is inserted |
| Unavailability.UnavailabilityService.UpdateUnavailability | application/unavailability_service.go:62-79 | a missing entry is an error; otherwise only flag, name and host change and the periods stay |
| Unavailability.UnavailabilityService.AddUnavailabilityPeriod | application/unavailability_service.go:81-103 | fails with no write and no logged call iff the lookup fails, the entry is missing, or a stored Reserved period overlaps the new one; otherwise stores the merge of the old periods and the freshly stamped period (which then covers its span), appends exactly one request-store deletion for the accommodation, publishes nothing, and reports that call's failure |
| Unavailability.UnavailabilityService.AddToEmptyEntry | application/unavailability_service.go:81-103 | on an entry with no periods the stored list becomes exactly the new period under its fresh id |
| Unavailability.MergedOwnerBlockHidesReservation | application/merge-overlapping-periods.go:19-28 | with OwnerSet `[0, 10]` and Reserved `[10, 15]` stored, a request for `[12, 14]` is blocked, but after the merge the single OwnerSet period `[0, 15]` no longer blocks it |
| Unavailability.UnavailabilityService.CheckIfCouldAddUnavailability | application/unavailability_service.go:105-115 | answers true iff no stored Reserved period overlaps the new one; OwnerSet periods never block |
| Unavailability.UnavailabilityService.RemoveUnavailabilityPeriod | application/unavailability_service.go:117-133 | a missing entry is an error; otherwise the periods become the subtraction of the span, nothing else changes, and no instant strictly inside the span stays blocked |
| Unavailability.UnavailabilityService.DeleteByAccommodationId | application/unavailability_service.go:150-153 | removes exactly that accommodation's entry |
| Unavailability.UnavailabilityService.FilterAvailable | application/unavailability_service.go:160-184 | fails iff some id's lookup fails; otherwise returns the order-preserving list of free ids, where ids without an entry are free |
| Unavailability.UnavailabilityService.DeleteHost | application/unavailability_service.go:186-211 | a failed lookup of the host's entries is a store error; returns false with no notice and no deletion when an entry of the host holds a Reserved period starting after now; otherwise publishes one notice, records the host deletion and returns true unless that call fails |
| Unavailability.UnavailabilityService.IsAutomatic | application/unavailability_service.go:213-221 | returns the entry's auto-approval flag, or the lookup error, or `NilEntry` when there is no entry |
| LegacyUnavailability.LegacyAvailable | booking-service/application/unavailability_service.go:87-108 | the filtered list is no longer than the ids given |
| LegacyUnavailability.LegacyAvailableMembers | booking-service/application/unavailability_service.go:87-108 | an id is in the filtered list iff it was given and none of its entry's periods overlaps the span under the older test |
| LegacyUnavailability.LegacyAvailableConcat | booking-service/application/unavailability_service.go:87-108 | the older filter decides id by id and keeps the order of the ids |
| LegacyUnavailability.LegacyOverlapSymmetric | booking-service/application/unavailability_service.go:110-113 | the older overlap test is symmetric |
| LegacyUnavailability.LegacyPeriodsOverlap | booking-service/application/unavailability_service.go:110-113 | spans with equal starts never overlap; non-empty spans overlap iff one starts strictly inside the other |
| LegacyUnavailability.LegacySameStartNeverOverlaps | booking-service/application/unavailability_service.go:110-113 | under the older test, spans with equal starts never overlap |
| LegacyUnavailability.OverlapTestsAgree | booking-service/application/unavailability_service.go:110-113 | for well-formed spans with distinct starts the older and the current test agree |
| LegacyUnavailability.OverlapTestsDisagreeOnSameSpan | booking-service/application/unavailability_service.go:110-113 | a non-empty span overlaps itself under the current test but not under the older one |
| LegacyUnavailability.LegacyOffersBlockedSpan | booking-service/application/unavailability_service.go:87-113 | an accommodation whose only period is exactly the requested span is reported available by the older filter |
| LegacyUnavailability.LegacyUnavailabilityService.constructor | booking-service/application/unavailability_service.go:14-18 | a new older ledger is empty |
| LegacyUnavailability.LegacyUnavailabilityService.AddUnavailability | booking-service/application/unavailability_service.go:20-42 | a failed lookup or an existing entry for the accommodation returns an error and inserts nothing; otherwise one entry with empty periods is inserted under a fresh id |
| LegacyUnavailability.LegacyUnavailabilityService.AddUnavailabilityPeriod | booking-service/application/unavailability_service.go:44-57 | an unknown entry id is `NotFound`; otherwise, with no conflict check, the periods become the merge of the old ones and the new one |
| LegacyUnavailability.LegacyUnavailabilityService.RemoveUnavailabilityPeriod | booking-service/application/unavailability_service.go:59-72 | an unknown entry id is `NotFound`; otherwise the periods become the subtraction of the span |
| LegacyUnavailability.LegacyUnavailabilityService.FilterAvailable | booking-service/application/unavailability_service.go:87-108 | fails iff some id's lookup fails or has no entry (which the source dereferences); otherwise keeps, in order, the ids free under the older overlap test |
| ReservationRequests.HistoryNeverReturns | application/reservation_request_service.go:73-179 | along any history of status steps the rank only grows, a decided request is never Pending again, and a declined or cancelled one stays so |
| ReservationRequests.IsReservationInFuture | application/reservation_request_service.go:241-247 | a stay more than a day away has not begun; otherwise it starts within a day of now or earlier |
| ReservationRequests.ReservationRequestService.constructor | application/reservation_request_service.go:24-31 | a new service has an empty store and empty logs |
| ReservationRequests.ReservationRequestService.GetNumberOfCanceled | application/reservation_request_service.go:213-220 | the count is at most the number of stored requests and is 0 iff none of the client's requests was cancelled by the guest |
| ReservationRequests.ReservationRequestService.AddReservationRequest | application/reservation_request_service.go:33-61 | an auto-approval lookup error returns before anything is stored; otherwise the request is stored Pending under a fresh id; with auto-approval it is approved at once: the event log gains the guest's "accept-request" notice only on success and then the created event tagged "automatic" in any case, a store failure leaves it Pending with the ledger untouched, and otherwise it is Approved, the cancellation call is logged and the ledger holds exactly the state of adding its Reserved span; without it the event is tagged "" |
| ReservationRequests.ReservationRequestService.ApproveRequest | application/reservation_request_service.go:73-99 | a missing or non-Pending request is an error and nothing changes; otherwise it is stored Approved, the overlapping-pending cancellation is requested (and never selects it), the ledger's store and call log become exactly those of adding a Reserved period for its span (unchanged on a conflict or failed lookup), the ledger publishes nothing, and the guest is told only if the addition succeeded; the request stays Approved if it failed |
| ReservationRequests.ReservationRequestService.CreateUnavailabilityPeriod | application/reservation_request_service.go:130-138 | adds a Reserved period with the request's span to its accommodation and returns the ledger's answer; the ledger's store and call log become exactly those of that addition, it publishes nothing, and on success the span is blocked |
| ReservationRequests.ReservationRequestService.DeclineRequest | application/reservation_request_service.go:101-119 | a missing or non-Pending request is an error and nothing changes; otherwise it becomes DeclinedByHost, the guest is told "decline-request", and the ledger is not touched |
| ReservationRequests.ReservationRequestService.DeleteRequest | application/reservation_request_service.go:121-128 | removes the request unless the store fails |
| ReservationRequests.ReservationRequestService.DeclineReservation | application/reservation_request_service.go:140-179 | only an Approved request more than a day before its start can be cancelled; it becomes DeclinedByUser, its span is subtracted from the ledger (left as it was when the entry is missing), the ledger's logs stay unchanged, and the host is told "canceled" only if that succeeded; every refusal changes nothing |
| ReservationRequests.ReservationRequestService.DeleteClient | application/reservation_request_service.go:181-200 | returns false with no deletion when a guest's Approved request is more than a day away; otherwise deletes the guest's requests, stopping at the first failure, so only some of them may be gone; returns true iff all are gone |
| ReservationRequests.ReservationRequestService.CheckAccommodationHasReservation | application/reservation_request_service.go:286-309 | returns false with no change when an Approved request of the accommodation is more than a day away; otherwise deletes those requests and then the ledger entry, returning true only when all of that succeeded; a failed request deletion leaves the ledger untouched, and the ledger's logs never change |
| UnavailabilityResponse.UnavailabilityReasonToString | infrastructure/dto/unavailability_response.go:29-38 | a code prints as "Unknown" iff it is neither Reserved nor OwnerSet |
| UnavailabilityResponse.ReasonNamesDistinct | infrastructure/dto/unavailability_response.go:29-38 | the two reasons print under different names |
| UnavailabilityResponse.MapToUnavailabilityResponse | infrastructure/dto/unavailability_response.go:18-27 | the accommodation name is copied unchanged and the reason is printed by name |
| Dto.MapReason | infrastructure/dto/mapper.go:18-29 | the parse succeeds exactly on the names the printer produces, yields the reason printed under that name, and any other text is an error |
| Dto.ReasonRoundTrip | infrastructure/dto/unavailability_response.go:29-38 | parsing a printed known reason gives it back, and "Unknown" is rejected |
| Dto.MapUnavailabilityPeriod | infrastructure/dto/mapper.go:8-16 | with a present, valid reason, the period has zero id, the request's start and end, and the parsed reason |
| Dto.MapRegistrationRequest | infrastructure/dto/mapper.go:31-40 | copies accommodation, guest, start, end, guest count and price; id, name and host stay empty and the status is Pending |
| Dto.MapReservationRequestResponse | infrastructure/dto/mapper.go:42-58 | keeps length and order and maps each request to its response, with an empty name and a zero cancel count |
| Dto.RegistrationResponse | infrastructure/dto/mapper.go:31-58 | a request built from a registration body answers with that body's fields, Pending |
| LegacyDto.MapReason | booking-service/infrastructure/dto/mapper.go:18-29 | the older parser equals the current one |
| LegacyDto.MapUnavailabilityPeriod | booking-service/infrastructure/dto/mapper.go:8-16 | the older period builder equals the current one |
| IntendedPeriods.CarveSeparated | application/merge-overlapping-periods.go:59-82 | corrected removal, which leaves a period whole when the span has no length or does not reach its interior, keeps a coalesced list coalesced |
| IntendedPeriods.CarveCovers | application/merge-overlapping-periods.go:59-82 | corrected removal drops every instant strictly inside the span and keeps exactly the covered instants outside the closed span |
| IntendedPeriods.MergeByReasonCoalesced | application/merge-overlapping-periods.go:8-34 | the corrected merge leaves each reason's periods sorted by start and strictly apart |
| IntendedPeriods.MergeByReasonKeepsReserved | application/merge-overlapping-periods.go:19-28 | the corrected merge, which coalesces each reason on its own, holds a Reserved period at an instant iff the input did |

## Left out

- HTTP and gRPC transport (routing, JSON, status codes) are not modelled; only the two handler facts above are described.
- Date parsing and formatting per RFC 3339 section 5.6 are left out; instants are integer seconds and the response's start and end strings and hex ids are not produced.
- The MongoDB stores are replaced by maps. Failed ledger lookups are fixed sets of accommodations and hosts. A request lookup fails only for a missing id, and updates and deletions fail for a fixed set of requests. Store inserts always succeed. The ledger's own writes succeed too, except that `DeleteByAccommodationId` fails with a store error for an accommodation in the failing-lookup set.
- Unavailability.UnavailabilityService.UpdateUnavailability: the service writes name, host and flag, but the MongoDB `Update` persists only accommodation id, periods and flag; the model follows the service.
- The store's `CancelOverlappingPendingRequests` is recorded with the approved request, and `CancelTargets` names what its filter selects. Its effect is not modelled: it writes the string "canceled", for which the status enum has no value, and it filters on the string "pending" against an integer status.
- The request store's `DeleteByAccommodation` and `DeleteByHost` are recorded calls whose effect on stored requests is not modelled, because their implementation is not part of this model.
- The `shouldRemainReserved` flag of the ledger's removal is accepted and ignored.
- Kafka publishing, Loki and tracing calls, and `log.Fatalf` when publishing fails are left out; events are a ghost log of topic, receiver, reservation id and status.
- `time.Now()` is a `now` parameter, and `AddDate(0, 0, -1)` is a fixed 86400 seconds, so calendar and daylight-saving effects are not modelled.
- `PriceTotal` (float32) is carried as its 32 raw bits and never interpreted.
- Request validation (required fields, end not before start) is not modelled; the operations accept any span.
- Fresh object ids are parameters, which the caller supplies unused.
- A nil slice and an empty slice are not told apart in results.
- Store pass-throughs (`GetAll`, `Get`, `GetByAccommodationId`, `GetByHostId`, `GetByClientId`, `GetFilteredRequests`, the guest-check queries) are not modelled; every store query other than the ledger lookups is taken to succeed.
- ReservationRequests.ReservationRequestService.DeleteClient: the source deletes in store order, which is not modelled, so the contract bounds which requests are gone after a failure instead of naming the prefix.
- ReservationRequests.ReservationRequestService.CheckAccommodationHasReservation: likewise, after a failed deletion the contract only bounds which requests are gone; the ledger is then stated unchanged.
- Concurrency (lost updates in read-modify-write of a period list) is out of scope; the model is sequential.

## Findings

| source | as written | input that shows it | evidently intended | confidence | as-written member | corrected member |
|---|---|---|---|---|---|---|
| booking-service/application/unavailability_service.go:110-113 | spans that start at the same instant never overlap, so the older availability filter offers an accommodation for a span that is already blocked from the same start | a stored Reserved period `[s, e]` with `s < e` and a query for `[s, e]` | two spans overlap when some instant lies in both, as the current test of application/unavailability_service.go:228-230 decides | high; not executed | LegacyUnavailability.LegacyOffersBlockedSpan | Unavailability.OverlapMeansSharedInstant |
| application/merge-overlapping-periods.go:66-71 | a removed span of zero length strictly inside a period splits it into two fragments that touch, so the stored list is no longer coalesced and the period loses its id and reason | removing `[5, 5]` (the request validation admits an end equal to the start) from OwnerSet `[0, 10]` gives Reserved `[0, 5]` and `[5, 10]` | a span of no length removes nothing and the list stays coalesced | medium; not executed | PeriodAlgebra.ZeroLengthRemovalSplits | IntendedPeriods.CarveSeparated |
| application/merge-overlapping-periods.go:63-78 | a period that meets the removed span only at an end point matches no branch and is dropped whole | removing `[10, 20]` from `[0, 10]` leaves nothing, though instant 5 lies outside the span | only the instants inside the removed span are released | high; not executed | PeriodAlgebra.TouchingRemovalDropsPeriod | IntendedPeriods.CarveCovers |
| application/merge-overlapping-periods.go:19-28 | touching periods merge whatever their reasons and the first one's reason is kept, so a Reserved stay that touches an earlier OwnerSet block becomes OwnerSet and no longer blocks requests | OwnerSet `[0, 10]` stored, then Reserved `[10, 15]` approved; a later request for `[12, 14]` passes the conflict check of application/unavailability_service.go:105-115 and is approved | each reason is coalesced on its own, so every Reserved instant stays Reserved | medium; not executed | Unavailability.MergedOwnerBlockHidesReservation | IntendedPeriods.MergeByReasonKeepsReserved |

The ledger and the workflow keep the behaviour as written; the corrected definitions in `IntendedPeriods` stand beside them with their properties proved.
