/**
 * The booking flow end to end: `bookFlight` in the booking service with its
 * two remote steps answered by the flight service's own operations (seat
 * reservation by bookSeats, the inventory step by increaseAvailableSeats with
 * a negative amount).  Nothing is undone when a later step fails.
 */
module BookingFlow {
  import opened Wrappers
  import opened Reactive
  import opened Bookings
  import opened FlightData
  import opened SeatSvc
  import opened FlightSvc

  /**
   * How the outcome of a flight-service operation reaches the booking service:
   * a value is a response with a body, an empty result one without, a
   * `ResponseStatusException` its status, and any other exception a 500.
   * `errorBody` is the error document the framework renders.
   */
  function AsReply<T>(m: Mono<T>, errorBody: string): (reply: HttpReply)
    ensures reply.Success? <==> !m.Error?
    ensures reply.Success? ==> reply.hasBody == m.Value?
    ensures reply.ClientError? <==> m.Error? && m.error.ResponseStatus? && 400 <= m.error.status < 500
    ensures !reply.Success? ==> !reply.NoResponse? && reply.body == Some(errorBody)
  {
    match m
    case Value(_) => Success(true)
    case Empty => Success(false)
    case Error(ResponseStatus(s, _)) =>
      if 400 <= s < 500 then ClientError(Some(errorBody)) else ServerError(Some(errorBody))
    case Error(_) => ServerError(Some(errorBody))
  }

  /** The booking result and the flight service's seat map and flight table after one booking. */
  datatype FlowState = FlowState(result: Mono<Booking>, seats: seq<Seat>, flights: map<string, Flight>)

  /**
   * The whole flow on values: reserve seats, adjust the counter if that
   * succeeded, then bookFlight's own steps.  A refused reservation leaves
   * the flight service as it was; an accepted one books the seats and lowers
   * the counter of a known flight; a confirmed booking is the request with
   * its id, PNR and date assigned.
   */
  function Flow(seats: seq<Seat>, flights: map<string, Flight>, request: Booking,
                freshId: string, now: int, saveAcked: bool, errorBody: string): (s: FlowState)
    requires request.flightId.Some? && |freshId| >= 6
    ensures BookSeatsOutcome(seats, request.flightId.value, request.seatNumbers).Error? ==>
      s.seats == seats && s.flights == flights && s.result.Error?
    ensures !BookSeatsOutcome(seats, request.flightId.value, request.seatNumbers).Error? ==>
      s.seats == Booked(seats, request.flightId.value, request.seatNumbers) &&
      s.flights == if request.flightId.value in flights
                   then AdjustSeats(flights, request.flightId.value, -request.seatCount) else flights
    ensures s.result.Value? ==> s.result.value == Confirm(request, freshId, now)
  {
    var flightId := request.flightId.value;
    var seatReply := AsReply(BookSeatsOutcome(seats, flightId, request.seatNumbers), errorBody);
    if !seatReply.Success? then
      // the inventory call is never made; its reply is not consulted
      FlowState(BookFlightOutcome(request, seatReply, Success(true), freshId, now, saveAcked), seats, flights)
    else if flightId in flights then
      var adjusted := AdjustSeats(flights, flightId, -request.seatCount);
      var inventoryReply := AsReply(Value(adjusted[flightId]), errorBody);
      FlowState(BookFlightOutcome(request, seatReply, inventoryReply, freshId, now, saveAcked),
                Booked(seats, flightId, request.seatNumbers), adjusted)
    else
      FlowState(BookFlightOutcome(request, seatReply, Success(false), freshId, now, saveAcked),
                Booked(seats, flightId, request.seatNumbers), flights)
  }

  /** A booking is confirmed exactly when the seats could be reserved, the flight exists and the save is acknowledged. */
  lemma FlowConfirmsIff(seats: seq<Seat>, flights: map<string, Flight>, request: Booking,
                        freshId: string, now: int, saveAcked: bool, errorBody: string)
    requires request.flightId.Some? && |freshId| >= 6
    ensures Flow(seats, flights, request, freshId, now, saveAcked, errorBody).result.Value? <==>
      BookSeatsOutcome(seats, request.flightId.value, request.seatNumbers) == Empty &&
      request.flightId.value in flights && saveAcked
  {
  }

  /** A refused seat reservation changes nothing in the flight service and fails the booking with an IllegalArgument. */
  lemma RefusedSeatsChangeNothing(seats: seq<Seat>, flights: map<string, Flight>, request: Booking,
                                  freshId: string, now: int, saveAcked: bool, errorBody: string)
    requires request.flightId.Some? && |freshId| >= 6
    requires BookSeatsOutcome(seats, request.flightId.value, request.seatNumbers) != Empty
    ensures var s := Flow(seats, flights, request, freshId, now, saveAcked, errorBody);
      s.seats == seats && s.flights == flights &&
      s.result == Error(IllegalArgument("Seat booking failed: " + errorBody))
  {
  }

  /**
   * No compensation: when the seats were reserved but the booking is not
   * confirmed (the flight is unknown or the save fails), the seats stay
   * booked, and a known flight keeps its lowered counter.
   */
  lemma NoCompensation(seats: seq<Seat>, flights: map<string, Flight>, request: Booking,
                       freshId: string, now: int, saveAcked: bool, errorBody: string)
    requires request.flightId.Some? && |freshId| >= 6
    requires BookSeatsOutcome(seats, request.flightId.value, request.seatNumbers) == Empty
    requires request.flightId.value !in flights || !saveAcked
    ensures var s := Flow(seats, flights, request, freshId, now, saveAcked, errorBody);
      !s.result.Value? &&
      s.seats == Booked(seats, request.flightId.value, request.seatNumbers) &&
      (request.flightId.value in flights ==>
        s.flights == AdjustSeats(flights, request.flightId.value, -request.seatCount))
  {
  }

  /**
   * The inventory step is not the guarded decrement: a booking for more
   * seats than the counter shows is confirmed and leaves the counter
   * negative, where reduceAvailableSeats would have refused.
   */
  lemma BookingCanOverdrawCounter(seats: seq<Seat>, flights: map<string, Flight>, request: Booking,
                                  freshId: string, now: int, errorBody: string)
    requires request.flightId.Some? && |freshId| >= 6
    requires BookSeatsOutcome(seats, request.flightId.value, request.seatNumbers) == Empty
    requires request.flightId.value in flights && NonNegativeCounters(flights)
    requires flights[request.flightId.value].availableSeats < request.seatCount
    ensures var s := Flow(seats, flights, request, freshId, now, true, errorBody);
      s.result.Value? && !NonNegativeCounters(s.flights) &&
      !CanReduce(flights, request.flightId.value, request.seatCount)
  {
    UnguardedIncreaseCanGoNegative(flights, request.flightId.value, request.seatCount);
  }

  /**
   * bookFlight with its remote calls served by the flight service sharing one
   * database: the seat service first, the inventory step only if the seats
   * were reserved.
   */
  method BookThroughFlightService(bookingSvc: BookingService, seatSvc: SeatService, flightSvc: FlightService,
                                  request: Booking, freshId: string, now: int, saveAcked: bool, errorBody: string)
    returns (r: Mono<Booking>)
    requires bookingSvc.Valid() && |freshId| >= 6 && freshId !in bookingSvc.bookings
    requires seatSvc.db == flightSvc.db && flightSvc.db.Valid()
    requires request.flightId.Some?
    modifies bookingSvc, seatSvc.db
    ensures bookingSvc.Valid() && flightSvc.db.Valid()
    ensures var s := Flow(old(seatSvc.db.seats), old(seatSvc.db.flights), request, freshId, now, saveAcked, errorBody);
      r == s.result && seatSvc.db.seats == s.seats && seatSvc.db.flights == s.flights
    ensures bookingSvc.bookings == if r.Value? then old(bookingSvc.bookings)[freshId := r.value] else old(bookingSvc.bookings)
  {
    var flightId := request.flightId.value;
    var seatResult := seatSvc.BookSeats(flightId, request.seatNumbers);
    var seatReply := AsReply(seatResult, errorBody);
    var inventoryReply := Success(true);
    if seatReply.Success? {
      var adjusted := flightSvc.IncreaseAvailableSeats(flightId, -request.seatCount);
      inventoryReply := AsReply(adjusted, errorBody);
    }
    r := bookingSvc.BookFlight(request, seatReply, inventoryReply, freshId, now, saveAcked);
  }
}
