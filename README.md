# Flight booking microservices — a Dafny model

This project models the decision logic of a flight-booking system built from
Spring WebFlux microservices, and proves properties about it:

- **Booking service.** `bookFlight` runs three steps: it reserves seats in the flight service, adjusts the
  flight's seat counter there, then saves the booking and publishes a
  `booking-created` event. The service also has `createBooking`, lookup by PNR,
  cancellation (refused once 24 whole hours have passed), three field updates and the circuit-breaker
  fallback. The controller adds request validation, maps outcomes to HTTP
  statuses, and copies entities to and from DTOs.
- **Flight service.**
  - A table of flights, each with an `availableSeats` counter. The counter has a guarded decrement
    (`reduceAvailableSeats`) and an unguarded increment (`increaseAvailableSeats`).
  - A seat map whose `bookSeats` is all-or-nothing.
  - `addSeats` and `updateSeats` on the seat map; `addFlight`, `updateFlight` and `searchFlights` on the flight table.
- **API gateway.** `RouteValidator` decides which paths need a token. The
  `AuthenticationFilter` checks the `Authorization` header and forwards the token's
  roles in `X-Auth-Roles`. A refusal is written as a plain-text 401.
- **Booking service security.** `HeaderSecurityFilter` turns `X-Auth-Roles` into the authorities of a
  `gateway-user` authentication.
- **Security service.** `registerUser` checks the username, then the email, then looks up the role to
  grant and saves the user. `DataInitializer` seeds `ROLE_USER` and `ROLE_ADMIN`.

The model has these parts:

- **Values.** Entities are datatypes. `Mono<T>` is `Value | Empty | Error`, and Spring's exception
  classes are constructors of `Exception`.
- **Stateful services.** The repositories each service writes are classes holding
  maps or sequences: `BookingService`, `FlightDb`, `SecurityDb` and the
  gateway's `ServerResponse`. The services' operations are methods. Each method is proved against
  a specification function of the old state, and the properties are proved as lemmas about those
  functions.
- **Parameters instead of I/O.** Each call to another service becomes an `HttpReply` the caller receives.
  The clock is an integer number of seconds. Generated UUIDs are parameters. JWT validation is a
  function `verify` from token to roles. The password encoder is a function `encode`.
- **Side effects of the booking service.** Every remote call, repository write and Kafka send is appended, in order, to
  the ghost trace `BookingService.effects`.
- **Composed flow.** `BookingFlow` composes `bookFlight` with the flight service's own
  `bookSeats` and `increaseAvailableSeats`.

Behaviour the code has and the model follows:

- **Cancellation window.** Cancellation compares *truncated* whole hours with 24. A booking can therefore
  be cancelled until 25 hours have passed, for example 24 h 1 s after booking
  (`Bookings.CancellationWindow`).
- **DELETE of an unknown id** gives 400, not 404. Only a message containing "invalid
  flight" maps to 404, and no service message does (`BookingApi.UnknownIdIsBadRequest`).
- **No compensation.** Seats reserved and counters lowered stay so when a later
  step fails (`BookingFlow.NoCompensation`).
- **The inventory step is the unguarded increment by `-seatCount`.** It can drive `availableSeats`
  below zero (`BookingFlow.BookingCanOverdrawCounter`).
- **Empty inventory reply.** A 2xx inventory reply without a body ends `bookFlight` with an empty
  result. There is then no save, no event and an empty 200 reply.
- **`addSeats` saves every supplied seat.** A found seat is mapped to an empty result, on which
  `switchIfEmpty` saves, so the existence check has no effect (see "## Findings").
- **A blank role fails the booking service's filter.** A piece of `X-Auth-Roles` with no
  non-whitespace character, as in ",ROLE_USER", makes `SimpleGrantedAuthority` throw
  (`HeaderSecurity.BlankLeadingRoleFails`).
- **`bookSeats` compares counts.** It checks that the flight's records matching the request are
  as many as the requested numbers, not that each number has a record. With unique numbers and a
  request naming each seat once the two agree (`SeatSvc.DistinctRequestSucceedsIff`). Once a
  number is duplicated, a request for 1A and a missing 1B passes
  (`SeatSvc.DuplicatedRecordHidesMissingSeat`).
- **Route matching is by string prefix.** "/api/auth/signupAdmin" is open because it begins with
  "/api/auth/signup" (`RouteValidator.SignupLookalikeIsOpen`).

## Model

| member | source | states |
|---|---|---|
| Text.ToUpper | booking-service/src/main/java/com/flightapp/service/implementation/BookingSImplementation.java:71 | ASCII upper-casing keeps the length and upper-cases each letter in place |
| Text.SplitOnComma | booking-service/src/main/java/com/flightapp/config/HeaderSecurityFilter.java:24 | a string without a comma splits to itself; every piece is comma-free; with a comma it is the segments less the trailing empty ones |
| Text.SegmentsJoin | booking-service/src/main/java/com/flightapp/config/HeaderSecurityFilter.java:24 | joining the segments cut at every comma with "," gives the string back |
| Text.SplitOnCommaContent | booking-service/src/main/java/com/flightapp/config/HeaderSecurityFilter.java:24 | `split(",")` loses only trailing commas: the pieces joined with commas plus one comma per dropped piece are the string; no piece left means the string was commas only |
| Text.DropTrailingEmpty | booking-service/src/main/java/com/flightapp/config/HeaderSecurityFilter.java:24 | Java's `split` drops the trailing empty pieces and only those |
| Text.SplitJoinRoundTrip | booking-service/src/main/java/com/flightapp/config/HeaderSecurityFilter.java:24 | splitting `String.join(",", xs)` gives back `xs` for non-empty, comma-free items |
| Text.EmptyItemIsLost | booking-service/src/main/java/com/flightapp/config/HeaderSecurityFilter.java:24 | an empty last item is lost in the round trip (Java drops trailing empty segments) |
| Text.EncodeChar | flight-api-gateway/src/main/java/com/flightapp/gateway/filter/AuthenticationFilter.java:58 | UTF-8: one byte below U+0080, else a lead byte announcing 2/3/4 bytes followed by continuation bytes |
| Text.Utf8 | flight-api-gateway/src/main/java/com/flightapp/gateway/filter/AuthenticationFilter.java:58 | `getBytes(UTF_8)` yields between one and four bytes per character |
| Text.EncodeCharDecodes | flight-api-gateway/src/main/java/com/flightapp/gateway/filter/AuthenticationFilter.java:58 | decoding a character's bytes (lead-byte payload, then six bits per continuation byte) gives its code point back |
| Text.Utf8Append | flight-api-gateway/src/main/java/com/flightapp/gateway/filter/AuthenticationFilter.java:58 | the encoding of a concatenation is the concatenation of the encodings |
| Text.AsciiUtf8 | flight-api-gateway/src/main/java/com/flightapp/gateway/filter/AuthenticationFilter.java:58 | ASCII text encodes to one byte per character equal to its code |
| Bookings.DerivePnr | booking-service/src/main/java/com/flightapp/service/implementation/BookingSImplementation.java:70-71 | the PNR is "PNR-" followed by the first six id characters upper-cased, ten characters in all |
| Bookings.PnrShape | booking-service/src/main/java/com/flightapp/service/implementation/BookingSImplementation.java:69-71 | a UUID-style id (lower-case hex) gives a PNR of the form PNR- plus six upper-case hex digits |
| Bookings.PnrIgnoresIdTail | booking-service/src/main/java/com/flightapp/service/implementation/BookingSImplementation.java:71 | ids agreeing on their first six characters get the same PNR |
| Bookings.Confirm | booking-service/src/main/java/com/flightapp/service/implementation/BookingSImplementation.java:69-72 | the saved entity is the request with fresh id, derived PNR and date set, everything else unchanged |
| Bookings.SeatStepError | booking-service/src/main/java/com/flightapp/service/implementation/BookingSImplementation.java:46-57 | a seat 4xx is an IllegalArgument "Seat booking failed: " + body (default text when empty), a 5xx an IllegalState "Seat service error: " + body; 2xx continues |
| Bookings.InventoryStepError | booking-service/src/main/java/com/flightapp/service/implementation/BookingSImplementation.java:64-67 | any inventory 4xx/5xx is an IllegalState "Inventory update failed: " + body |
| Bookings.BookFlightOutcome | booking-service/src/main/java/com/flightapp/service/implementation/BookingSImplementation.java:41-85 | bookFlight yields a booking iff both remote steps succeed with a body and the save is acknowledged; otherwise the first failing step's error, the save error, or empty |
| Bookings.WholeHours | booking-service/src/main/java/com/flightapp/service/implementation/BookingSImplementation.java:113-115 | `Duration.toHours` truncates toward zero (bounds stated for both signs) |
| Bookings.CancellationWindow | booking-service/src/main/java/com/flightapp/service/implementation/BookingSImplementation.java:113-117 | cancelling is allowed iff fewer than 25 full hours have passed since booking |
| Bookings.FindByPnr | booking-service/src/main/java/com/flightapp/service/implementation/BookingSImplementation.java:97-101 | lookup by PNR: empty iff no match, an error iff two or more match, else the one matching record |
| Bookings.FindAfterInsert | booking-service/src/main/java/com/flightapp/service/implementation/BookingSImplementation.java:97-101 | a record stored with a PNR no other record has is what the lookup returns |
| Bookings.SharedPnrBreaksLookup | booking-service/src/main/java/com/flightapp/service/implementation/BookingSImplementation.java:97-101 | two stored bookings whose ids share six leading characters make their PNR lookup fail |
| Bookings.BookFlightFallback | booking-service/src/main/java/com/flightapp/service/implementation/BookingSImplementation.java:156-167 | the fallback echoes email, flight, seat count, passengers and seats, with fresh id, date and a "FAILED-" pseudo-PNR that never starts with "PNR-" |
| Bookings.ConfirmedAndFallbackDiffer | booking-service/src/main/java/com/flightapp/service/implementation/BookingSImplementation.java:165 | a confirmed booking's PNR never equals a fallback PNR |
| Bookings.BookingService.BookFlight | booking-service/src/main/java/com/flightapp/service/implementation/BookingSImplementation.java:40-86 | result is BookFlightOutcome; the store changes only on success, by that one booking; trace is reserve, then adjust by -seatCount, then save, then the created event, each only if the previous step succeeded |
| Bookings.BookingService.CreateBooking | booking-service/src/main/java/com/flightapp/service/implementation/BookingSImplementation.java:89-94 | one store write of the confirmed entity (fresh id, derived PNR, date), no remote call, no event; the store gains it under the fresh id and it is returned iff the save is acknowledged, else the result is empty and the store unchanged |
| Bookings.BookingService.DeleteBooking | booking-service/src/main/java/com/flightapp/service/implementation/BookingSImplementation.java:109-127 | unknown id and too-late refusals change nothing; otherwise the cancelled event is published, then the record deleted |
| Bookings.BookingService.UpdateSeatNumbers | booking-service/src/main/java/com/flightapp/service/implementation/BookingSImplementation.java:130-136 | an unknown id gives empty and changes nothing; otherwise only the seat numbers of that record change |
| Bookings.BookingService.UpdatePassengerIds | booking-service/src/main/java/com/flightapp/service/implementation/BookingSImplementation.java:139-145 | as above for passenger ids |
| Bookings.BookingService.UpdateTotalAmount | booking-service/src/main/java/com/flightapp/service/implementation/BookingSImplementation.java:148-154 | as above for the total amount |
| BookingApi.ToDto | booking-service/src/main/java/com/flightapp/controller/BookingController.java:96-107 | copies seven fields, a null amount becomes 0 |
| BookingApi.ToEntity | booking-service/src/main/java/com/flightapp/controller/BookingController.java:109-120 | copies all DTO fields; booking date stays null |
| BookingApi.DtoRoundTrip | booking-service/src/main/java/com/flightapp/controller/BookingController.java:96-120 | DTO to entity to DTO is the identity except a null amount comes back as 0 |
| BookingApi.EntityRoundTrip | booking-service/src/main/java/com/flightapp/controller/BookingController.java:96-120 | entity to DTO to entity loses only the date and fills a null amount |
| BookingApi.BookFlightReply | booking-service/src/main/java/com/flightapp/controller/BookingController.java:52-68 | 201 with id and pnr; IllegalArgument 400, IllegalState 502, anything else 500 "Booking failed"; empty stays empty |
| BookingApi.BookFlightStatuses | booking-service/src/main/java/com/flightapp/controller/BookingController.java:52-68 | per flow outcome: seat 4xx gives 400; seat 5xx, inventory 4xx/5xx and a failed save 502; no seat-service response 500; an empty inventory reply an empty 200; success 201 with exactly id and a PNR- pnr |
| BookingApi.DeleteReply | booking-service/src/main/java/com/flightapp/controller/BookingController.java:86-94 | completion is 200; an error containing "invalid flight" is 404; any other error 400 with its message |
| BookingApi.RefusalIsBadRequest | booking-service/src/main/java/com/flightapp/controller/BookingController.java:89-93 | a message lacking 'f' or 'v' maps to 400 |
| BookingApi.UnknownIdIsBadRequest | booking-service/src/main/java/com/flightapp/controller/BookingController.java:89-93 | "Invalid booking ID" is answered 400, not 404 |
| BookingApi.TooLateIsBadRequest | booking-service/src/main/java/com/flightapp/controller/BookingController.java:89-93 | the 24-hour refusal is answered 400 with its message |
| BookingApi.CreateEndpoint | booking-service/src/main/java/com/flightapp/controller/BookingController.java:37-41 | POST /bookings answers 201 with only an "id" field, the key under which the confirmed entity is now stored; 201 without a body and no change when the save completes empty |
| BookingApi.BookFlightEndpoint | booking-service/src/main/java/com/flightapp/controller/BookingController.java:45-69 | missing flightId or seatCount <= 0 gives 400 without touching the service; otherwise the mapped outcome of bookFlight |
| BookingApi.DeleteEndpoint | booking-service/src/main/java/com/flightapp/controller/BookingController.java:86-95 | unknown id 400 "Invalid booking ID", too late 400, else 200 "Booking deleted successfully!" |
| FlightData.ReplaceSeats | flight-service/src/main/java/com/flightapp/service/implementation/SeatSImplementation.java:37-44 | after updateSeats the flight's seats are exactly the supplied ones naming it; other flights keep theirs; supplied records are stored as given |
| FlightData.FlightDb.ReplaceFlightSeats | flight-service/src/main/java/com/flightapp/service/implementation/SeatSImplementation.java:39-43 | the delete-then-save loops compute ReplaceSeats |
| SeatSvc.Matching | flight-service/src/main/java/com/flightapp/repository/SeatRepository.java:16 | positions of exactly the requested seats of the flight, each once, increasing |
| SeatSvc.FirstTaken | flight-service/src/main/java/com/flightapp/service/implementation/SeatSImplementation.java:52-54 | the first matched seat that is taken (all before it are free) |
| SeatSvc.BookSeatsOutcome | flight-service/src/main/java/com/flightapp/service/implementation/SeatSImplementation.java:47-57 | 400 iff the match count differs from the request; a 409 names a requested seat that is taken; never a value |
| SeatSvc.ConflictNamesFirstTaken | flight-service/src/main/java/com/flightapp/service/implementation/SeatSImplementation.java:52-54 | when the matched records are as many as the requested numbers and some requested seat is taken, the answer is 409 naming the first taken requested seat in collection order |
| SeatSvc.FirstTakenIsFirst | flight-service/src/main/java/com/flightapp/service/implementation/SeatSImplementation.java:52-54 | the loop stops at the first taken seat: one is found iff some requested seat is taken, and every requested seat before it is free |
| SeatSvc.Booked | flight-service/src/main/java/com/flightapp/service/implementation/SeatSImplementation.java:55-56 | the requested seats become unavailable, every other record is unchanged |
| SeatSvc.BookSeatsSucceedsIff | flight-service/src/main/java/com/flightapp/service/implementation/SeatSImplementation.java:47-57 | booking succeeds iff the flight's records matching the request are as many as the requested numbers and all of them are free |
| SeatSvc.MatchingIgnoresAvailability | flight-service/src/main/java/com/flightapp/repository/SeatRepository.java:16 | which records the seat query returns does not depend on their availability, so marking seats booked does not change it |
| SeatSvc.RebookingConflicts | flight-service/src/main/java/com/flightapp/service/implementation/SeatSImplementation.java:52-56 | booking the same seats again fails with 409 |
| SeatSvc.DuplicateRequestRejected | flight-service/src/main/java/com/flightapp/service/implementation/SeatSImplementation.java:48-51 | with numbers unique per flight, a request naming a seat twice fails the count check with 400 |
| SeatSvc.DistinctRequestSucceedsIff | flight-service/src/main/java/com/flightapp/service/implementation/SeatSImplementation.java:47-57 | with numbers unique per flight and a request naming each seat once, booking succeeds iff every requested number has a record on the flight and all of them are free |
| SeatSvc.DuplicatedRecordHidesMissingSeat | flight-service/src/main/java/com/flightapp/service/implementation/SeatSImplementation.java:48-51 | with two 1A records on F1, booking 1A and 1B succeeds although F1 has no 1B |
| SeatSvc.AddAll | flight-service/src/main/java/com/flightapp/service/implementation/SeatSImplementation.java:27-35 | addSeats as written completes empty or fails only with the non-unique-result error of a lookup |
| SeatSvc.FindSeat | flight-service/src/main/java/com/flightapp/repository/SeatRepository.java:17 | `findByFlightIdAndSeatNumber`: a found seat is a stored record of that flight with that number; a failure is the non-unique-result error |
| SeatSvc.FindSeatEmptyIff | flight-service/src/main/java/com/flightapp/repository/SeatRepository.java:17 | the lookup is empty iff the flight has no record with the number |
| SeatSvc.FindSeatAgreesWithMatching | flight-service/src/main/java/com/flightapp/repository/SeatRepository.java:16-17 | the lookup is empty iff the bookSeats query finds no record for the number, and fails iff it finds two or more |
| SeatSvc.AddAllSavesEverything | flight-service/src/main/java/com/flightapp/service/implementation/SeatSImplementation.java:28-34 | when addSeats completes, every supplied record has been saved, stamped with the flight id, after the existing ones, whether or not its number existed |
| SeatSvc.AddAllStopsAtDuplicate | flight-service/src/main/java/com/flightapp/service/implementation/SeatSImplementation.java:28-34 | when addSeats fails, exactly the supplied records before the failing one were saved, and the failing lookup matches two or more records |
| SeatSvc.ExistingNumberIsSavedAgain | flight-service/src/main/java/com/flightapp/service/implementation/SeatSImplementation.java:31-32 | a supplied number the flight has once is saved a second time, leaving the flight with duplicate numbers |
| SeatSvc.DuplicatedNumberBlocksAdding | flight-service/src/main/java/com/flightapp/service/implementation/SeatSImplementation.java:31 | once a number is duplicated, adding it again fails and saves nothing |
| SeatSvc.DuplicatedNumberCannotBeBooked | flight-service/src/main/java/com/flightapp/service/implementation/SeatSImplementation.java:48-51 | once a number is duplicated, booking that seat alone fails the count check with 400 |
| SeatSvc.AddingTwiceDuplicates | flight-service/src/main/java/com/flightapp/service/implementation/SeatSImplementation.java:27-35 | adding seat 1A to flight F1 twice leaves two 1A records for F1 |
| SeatSvc.AddMissing | flight-service/src/main/java/com/flightapp/service/implementation/SeatSImplementation.java:27-35 | addSeats as intended: existing records never change, every added record is a supplied one stamped with the flight id, and afterwards every supplied number exists on the flight |
| SeatSvc.AddExistingIsNoop | flight-service/src/main/java/com/flightapp/service/implementation/SeatSImplementation.java:31-32 | intended behaviour: supplied numbers the flight already has are skipped, so the seats are unchanged |
| SeatSvc.AddMissingKeepsUnique | flight-service/src/main/java/com/flightapp/service/implementation/SeatSImplementation.java:27-35 | intended behaviour keeps seat numbers unique per flight |
| SeatSvc.FreshNumbersAddedAlike | flight-service/src/main/java/com/flightapp/service/implementation/SeatSImplementation.java:27-35 | for distinct numbers the flight lacks, the code as written and the intended behaviour save the same records |
| SeatSvc.SeatService.BookSeats | flight-service/src/main/java/com/flightapp/service/implementation/SeatSImplementation.java:46-58 | result is BookSeatsOutcome; the seat map becomes Booked on success and is untouched on failure |
| SeatSvc.SeatService.MarkBooked | flight-service/src/main/java/com/flightapp/service/implementation/SeatSImplementation.java:55-56 | exactly the records at the matched positions become unavailable; every other record and the flight table are unchanged |
| SeatSvc.SeatService.AddSeats | flight-service/src/main/java/com/flightapp/service/implementation/SeatSImplementation.java:26-35 | the loop of lookups and saves computes AddAll: the resulting seats and the completion or error of the returned Mono; flights unchanged |
| SeatSvc.SeatService.UpdateSeats | flight-service/src/main/java/com/flightapp/service/implementation/SeatSImplementation.java:37-44 | the seat map becomes ReplaceSeats |
| FlightSvc.AdjustSeats | flight-service/src/main/java/com/flightapp/service/implementation/FlightSImplementation.java:76 | one counter changes by exactly the delta; nothing else changes |
| FlightSvc.ReduceKeepsCountersNonNegative | flight-service/src/main/java/com/flightapp/service/implementation/FlightSImplementation.java:75-76 | the guarded decrement by a non-negative count keeps every counter non-negative |
| FlightSvc.UnguardedIncreaseCanGoNegative | flight-service/src/main/java/com/flightapp/service/implementation/FlightSImplementation.java:80-86 | where the decrement would refuse, the increment by minus that count makes the counter negative |
| FlightSvc.FlightService.ReduceAvailableSeats | flight-service/src/main/java/com/flightapp/service/implementation/FlightSImplementation.java:73-78 | succeeds iff the flight exists with enough seats, then decreases by exactly seatCnt and returns the pre-update document; otherwise "Not enough seats available or Flight not found" and no change |
| FlightSvc.FlightService.IncreaseAvailableSeats | flight-service/src/main/java/com/flightapp/service/implementation/FlightSImplementation.java:80-86 | adds any amount to an existing flight; unknown flight: empty, no change |
| FlightSvc.FlightService.AddFlight | flight-service/src/main/java/com/flightapp/service/implementation/FlightSImplementation.java:50-55 | an existing number is refused with 409 and nothing saved; otherwise the flight is saved and returned |
| FlightSvc.FlightService.UpdateFlight | flight-service/src/main/java/com/flightapp/service/implementation/FlightSImplementation.java:44-48 | the record is stored under the path id with its id forced to it |
| FlightSvc.FlightService.UpdateSeats | flight-service/src/main/java/com/flightapp/service/implementation/FlightSImplementation.java:67-71 | the seat map becomes ReplaceSeats |
| FlightSvc.FlightService.SearchFlights | flight-service/src/main/java/com/flightapp/service/implementation/FlightSImplementation.java:57-60 | exactly the stored flights with that origin and destination |
| BookingFlow.AsReply | booking-service/src/main/java/com/flightapp/service/implementation/BookingSImplementation.java:46-67 | how a flight-service outcome reaches the booking service: value with body, empty without, 4xx/5xx by status |
| BookingFlow.Flow | booking-service/src/main/java/com/flightapp/service/implementation/BookingSImplementation.java:41-85 | a refused reservation leaves seats and counters unchanged and fails; an accepted one books the seats and lowers a known flight's counter by the seat count; a confirmed booking is the request with id, PNR and date assigned |
| BookingFlow.FlowConfirmsIff | booking-service/src/main/java/com/flightapp/service/implementation/BookingSImplementation.java:41-75 | with the real flight service, a booking is confirmed iff the seats are free, the flight exists and the save is acknowledged |
| BookingFlow.RefusedSeatsChangeNothing | booking-service/src/main/java/com/flightapp/service/implementation/BookingSImplementation.java:46-51 | a refused seat reservation changes no seat and no counter and fails with IllegalArgument |
| BookingFlow.NoCompensation | booking-service/src/main/java/com/flightapp/service/implementation/BookingSImplementation.java:59-75 | after seats are reserved, an unknown flight or failed save leaves the seats booked and the counter lowered |
| BookingFlow.BookingCanOverdrawCounter | booking-service/src/main/java/com/flightapp/service/implementation/BookingSImplementation.java:59-62 | a booking for more seats than the counter shows is confirmed and leaves the counter negative |
| BookingFlow.BookThroughFlightService | booking-service/src/main/java/com/flightapp/service/implementation/BookingSImplementation.java:41-85 | running the three services together gives exactly the Flow function's result, seat map and flight table |
| RouteValidator.IsSecured | flight-api-gateway/src/main/java/com/flightapp/gateway/filter/RouteValidator.java:17-20 | an open path begins with "/api/auth/sign" or "/actuator" |
| RouteValidator.OpenStaysOpen | flight-api-gateway/src/main/java/com/flightapp/gateway/filter/RouteValidator.java:17-20 | extending an open path keeps it open |
| RouteValidator.EveryExtensionOfAnOpenEndpointIsOpen | flight-api-gateway/src/main/java/com/flightapp/gateway/filter/RouteValidator.java:11-20 | matching is by string prefix: any text after an open endpoint is open |
| RouteValidator.ApiPathsSecured | flight-api-gateway/src/main/java/com/flightapp/gateway/filter/RouteValidator.java:11-20 | every path under "/api/" that begins with neither the sign-in nor the sign-up endpoint is secured |
| RouteValidator.SignupLookalikeIsOpen | flight-api-gateway/src/main/java/com/flightapp/gateway/filter/RouteValidator.java:11-20 | "/api/auth/signupAdmin" is open: matching is by prefix, not by path segment |
| GatewayFilter.Token | flight-api-gateway/src/main/java/com/flightapp/gateway/filter/AuthenticationFilter.java:37 | the token is the text after "Bearer " when present, else the whole header |
| GatewayFilter.Decide | flight-api-gateway/src/main/java/com/flightapp/gateway/filter/AuthenticationFilter.java:32-51 | open paths pass unchanged; on a secured path a missing header is 401 "Missing Authorization Header", an empty value list fails with index out of bounds, a token that fails verification is 401 "Unauthorized access to application"; forwarded iff open or verified, with X-Auth-Roles set to the joined roles and every other header unchanged |
| GatewayFilter.ClientRolesIgnoredWhenSecured | flight-api-gateway/src/main/java/com/flightapp/gateway/filter/AuthenticationFilter.java:42-43 | on a secured path a client-sent X-Auth-Roles cannot change the outcome |
| GatewayFilter.ClientRolesPassWhenOpen | flight-api-gateway/src/main/java/com/flightapp/gateway/filter/AuthenticationFilter.java:33 | on an open path a client-sent X-Auth-Roles is forwarded as it is |
| GatewayFilter.ServerResponse.OnError | flight-api-gateway/src/main/java/com/flightapp/gateway/filter/AuthenticationFilter.java:54-61 | sets the status, appends Content-Type text/plain, writes the UTF-8 bytes of the message |
| GatewayFilter.Apply | flight-api-gateway/src/main/java/com/flightapp/gateway/filter/AuthenticationFilter.java:30-52 | the decision is Decide; a refusal writes the 401 to the response, otherwise the response is untouched |
| HeaderSecurity.First | booking-service/src/main/java/com/flightapp/config/HeaderSecurityFilter.java:21 | `getFirst`: the first value, none when absent or empty |
| HeaderSecurity.Authenticate | booking-service/src/main/java/com/flightapp/config/HeaderSecurityFilter.java:20-31 | no authentication iff the header is missing or its first value empty; an IllegalArgument iff some comma piece has no non-whitespace character; otherwise gateway-user, no credentials, the comma pieces as authorities |
| HeaderSecurity.BlankLeadingRoleFails | booking-service/src/main/java/com/flightapp/config/HeaderSecurityFilter.java:24-25 | a header starting with a comma, as in ",ROLE_USER", fails with the IllegalArgument of `SimpleGrantedAuthority` |
| HeaderSecurity.CommaOnlyHeaderGrantsNothing | booking-service/src/main/java/com/flightapp/config/HeaderSecurityFilter.java:23-27 | a header "," authenticates with no authority |
| RolePropagation.RolesRoundTrip | flight-api-gateway/src/main/java/com/flightapp/gateway/filter/AuthenticationFilter.java:40-43 | the roles of a valid token reach the booking service's authentication unchanged when each has a non-whitespace character and no comma |
| RolePropagation.NoRolesNoAuthentication | booking-service/src/main/java/com/flightapp/config/HeaderSecurityFilter.java:23 | a valid token without roles leaves the booking request unauthenticated |
| Accounts.RequestedRole | flight-security-service/src/main/java/com/flightapp/controller/AuthController.java:56-68 | admin is granted iff some requested role equals "admin" or "ROLE_ADMIN" ignoring case |
| Accounts.AdminIsSelfService | flight-security-service/src/main/java/com/flightapp/controller/AuthController.java:57-59 | asking for "admin" in any case is enough to be granted ROLE_ADMIN |
| Accounts.FindRole | flight-security-service/src/main/java/com/flightapp/controller/AuthController.java:63 | the stored role with that name, none iff no such role |
| Accounts.RegisterOutcome | flight-security-service/src/main/java/com/flightapp/controller/AuthController.java:55-84 | sign-up never completes empty; 400 iff the username or email is taken, with the username message first; an error naming the role iff both are free and the role is missing; otherwise 200 with the welcome message of the role |
| Accounts.NewUser | flight-security-service/src/main/java/com/flightapp/controller/AuthController.java:75-80 | the saved user has the request's username and email, the encoded password and exactly the one role |
| Accounts.RegisterSucceedsIff | flight-security-service/src/main/java/com/flightapp/controller/AuthController.java:55-84 | sign-up returns 200 iff username and email are free and the role exists; replies are only 200 or 400 |
| Accounts.ChecksPrecedeRoleLookup | flight-security-service/src/main/java/com/flightapp/controller/AuthController.java:69-76 | a taken username or email is refused with 400 whatever roles are stored |
| Accounts.SecondSignupRefused | flight-security-service/src/main/java/com/flightapp/controller/AuthController.java:69-71 | after a successful sign-up the same username is refused |
| Accounts.SignupKeepsUsernamesUnique | flight-security-service/src/main/java/com/flightapp/controller/AuthController.java:69-81 | a successful sign-up keeps usernames unique |
| Accounts.SeedRole | flight-security-service/src/main/java/com/flightapp/config/DataInitializer.java:20-21 | the role exists afterwards and names stay unique; stored roles are unchanged and the only possible new key is the fresh id; an existing role means no write, a missing one is saved under the fresh id |
| Accounts.SeedAll | flight-security-service/src/main/java/com/flightapp/config/DataInitializer.java:19-24 | both roles exist afterwards, names stay unique, existing roles unchanged, and only the two fresh ids can be new keys |
| Accounts.SeedingIsIdempotent | flight-security-service/src/main/java/com/flightapp/config/DataInitializer.java:20-23 | seeding again changes nothing |
| Accounts.SeededStoreAcceptsFreshSignup | flight-security-service/src/main/java/com/flightapp/controller/AuthController.java:63-66 | once seeded, a sign-up with fresh username and email succeeds with the welcome message of its role |
| Accounts.AuthController.RegisterUser | flight-security-service/src/main/java/com/flightapp/controller/AuthController.java:54-84 | result is the sign-up outcome; only a 200 adds the user, under the fresh id; roles unchanged |
| Accounts.DataInitializer.Run | flight-security-service/src/main/java/com/flightapp/config/DataInitializer.java:18-24 | roles become SeedAll of the old roles; users unchanged |

## Left out

- **Excluded components.** Not modelled: sign-in, token issuing and the JWT library; the Kafka producer's
  delivery and callbacks (a send is one trace entry); the email service; read-only queries that are
  plain repository reads (`getAllBookings`, `getAllFlights`, `getFlightById`, `getSeatsByFlightId`).
- **Circuit breaker.** Its state machine and which failures are routed to the fallback are
  configuration that is not part of this model. `Bookings.BookFlightFallback` is a
  separately callable function, and the controller mapping is stated for the
  outcomes of `bookFlight` itself.
- **Concurrency.** Reactor scheduling is not modelled. Operations run one after another. Two
  simultaneous bookings of the same seat, or `flatMap` running repository calls in parallel, are not
  modelled. The gateway's header write and the `DataInitializer` subscriptions are also taken
  as completed before the next request.
- SeatSvc.SeatService.AddSeats: looks up and saves the supplied records one after another. Under
  `flatMap` the lookups and saves of different records may interleave, so the saved records may
  come in another order, and when a lookup fails, which of the other records were saved depends
  on scheduling.
- SeatSvc.SeatService.AddSeats, SeatSvc.SeatService.UpdateSeats, FlightSvc.FlightService.UpdateSeats,
  FlightData.ReplaceSeats, FlightData.FlightDb.ReplaceFlightSeats: seat document ids are not
  modelled, so every save is an insert. A supplied record carrying the id of a stored one would
  replace that record instead, even a record of another flight, which the model keeps.
- **Repository errors.** Every repository call is taken to complete. Only a save that completes
  empty is modelled (`saveAcked` in `Bookings.BookFlightOutcome`, `Bookings.BookingService.CreateBooking`
  and `BookingFlow.Flow`).
  A save, delete or query that fails with an error is not modelled. This covers the booking saves in
  `bookFlight`, `createBooking` and the three updates, the booking delete, and the flight, seat,
  role and user saves. Such an error would reach the caller as that error; after both remote steps
  of `bookFlight` it would be answered 500 "Booking failed", an outcome
  `Bookings.BookFlightOutcome` does not produce.
- SeatSvc.Matching: returns matching records in collection order. The database may return them in
  another order, which only changes which taken seat a 409 names.
- FlightSvc.FlightService.AddFlight: when two stored flights already share a number (which only
  `updateFlight` can cause), the single-result repository query fails instead of answering 409.
  The model answers 409.
- FlightSvc.FlightService.IncreaseAvailableSeats: does not model 32-bit wrap-around of
  `availableSeats`, `seatCnt` or `add`. Counters are unbounded integers.
- Bookings.BookingService.UpdateTotalAmount: the amount is a real; Java `float` rounding is not
  modelled.
- Bookings.WholeHours: times are whole seconds. Sub-second precision of `LocalDateTime` and time
  zones are not modelled.
- GatewayFilter.Decide: header names are compared exactly, while Spring's `HttpHeaders` ignores case.
  JWT validation and role extraction are the parameter `verify`, with None for any exception.
- Accounts.RequestedRole: `equalsIgnoreCase` is modelled for ASCII letters only.
- Bookings.BookingService.BookFlight:
  - Null fields (a null seat list, a null PNR on the saved record) are not modelled.
  - The created-event guard `pnr.startsWith("PNR-")` always holds for a derived PNR.
- BookingFlow.AsReply: the error document Spring renders for an exception is the parameter
  `errorBody`. The internal bearer token on the calls is not modelled.
- Accounts.AuthController.RegisterUser: a failure of the user save itself, such as a unique index in
  the database, is not modelled.

## Findings

| source | as written | input that shows it | evidently intended | confidence | as-written member | corrected member |
|---|---|---|---|---|---|---|
| flight-service/src/main/java/com/flightapp/service/implementation/SeatSImplementation.java:31-32 | a found seat is mapped to an empty result, on which `switchIfEmpty` saves the supplied seat anyway, so the existence check never prevents a save | no seats, then `addSeats("F1", [seat 1A])` twice: flight F1 ends with two 1A records, after which every lookup of 1A fails and booking 1A is refused with 400 | skip supplied numbers the flight already has, keeping seat numbers unique per flight | not executed | SeatSvc.AddingTwiceDuplicates | SeatSvc.AddMissingKeepsUnique |
