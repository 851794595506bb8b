/**
 * FlightSImplementation: the flight table with its available-seat counters.
 * The decrement is guarded by the query (`availableSeats >= seatCnt`); the
 * increment, which the booking flow uses with a negative amount, is not.
 */
module FlightSvc {
  import opened Wrappers
  import opened Reactive
  import opened FlightData

  const NotEnoughSeats := "Not enough seats available or Flight not found"

  function DuplicateNumber(number: string): string {
    "Flight with number " + number + " already exists"
  }

  /** The condition of reduceAvailableSeats' query: the flight exists and has at least `count` free seats. */
  predicate CanReduce(flights: map<string, Flight>, id: string, count: int) {
    id in flights && flights[id].availableSeats >= count
  }

  /** The flight table after `$inc` of one flight's counter by `delta`; nothing else changes. */
  function AdjustSeats(flights: map<string, Flight>, id: string, delta: int): (r: map<string, Flight>)
    requires id in flights
    ensures r.Keys == flights.Keys
    ensures r[id].availableSeats == flights[id].availableSeats + delta
    ensures r[id].(availableSeats := 0) == flights[id].(availableSeats := 0)
    ensures forall k :: k in flights && k != id ==> r[k] == flights[k]
  {
    flights[id := flights[id].(availableSeats := flights[id].availableSeats + delta)]
  }

  ghost predicate NonNegativeCounters(flights: map<string, Flight>) {
    forall k :: k in flights ==> flights[k].availableSeats >= 0
  }

  /** With a non-negative count, the guarded decrement never makes a counter negative. */
  lemma ReduceKeepsCountersNonNegative(flights: map<string, Flight>, id: string, count: int)
    requires NonNegativeCounters(flights) && count >= 0 && CanReduce(flights, id, count)
    ensures NonNegativeCounters(AdjustSeats(flights, id, -count))
  {
  }

  /**
   * The increment accepts any amount: where the guarded decrement refuses a
   * count larger than the free seats, an increment by minus that count goes
   * through and leaves the counter negative.
   */
  lemma UnguardedIncreaseCanGoNegative(flights: map<string, Flight>, id: string, count: int)
    requires id in flights && NonNegativeCounters(flights)
    requires flights[id].availableSeats < count
    ensures !CanReduce(flights, id, count)
    ensures !NonNegativeCounters(AdjustSeats(flights, id, -count))
  {
    assert AdjustSeats(flights, id, -count)[id].availableSeats < 0;
  }

  /** `findByFlightNumber` finds a stored flight with this number. */
  predicate NumberTaken(flights: map<string, Flight>, number: string) {
    exists k :: k in flights && flights[k].flightNumber == number
  }

  class FlightService {
    const db: FlightDb

    constructor (db: FlightDb)
      ensures this.db == db
    {
      this.db := db;
    }

    /**
     * reduceAvailableSeats: a conditional `findAndModify` that returns the
     * document as it was before the update, or fails when the condition does
     * not hold.
     */
    method ReduceAvailableSeats(flightId: string, seatCnt: int) returns (r: Mono<Flight>)
      requires db.Valid()
      modifies db
      ensures db.Valid()
      ensures CanReduce(old(db.flights), flightId, seatCnt) ==>
        r == Value(old(db.flights)[flightId]) && db.flights == AdjustSeats(old(db.flights), flightId, -seatCnt)
      ensures !CanReduce(old(db.flights), flightId, seatCnt) ==>
        r == Error(Runtime(NotEnoughSeats)) && db.flights == old(db.flights)
      ensures db.seats == old(db.seats)
    {
      if flightId in db.flights && db.flights[flightId].availableSeats >= seatCnt {
        var before := db.flights[flightId];
        db.flights := db.flights[flightId := before.(availableSeats := before.availableSeats - seatCnt)];
        r := Value(before);
      } else {
        r := Error(Runtime(NotEnoughSeats));
      }
    }

    /** increaseAvailableSeats: adds any amount to an existing flight's counter; an unknown flight gives an empty result. */
    method IncreaseAvailableSeats(flightId: string, seatCount: int) returns (r: Mono<Flight>)
      requires db.Valid()
      modifies db
      ensures db.Valid()
      ensures flightId in old(db.flights) ==>
        db.flights == AdjustSeats(old(db.flights), flightId, seatCount) && r == Value(db.flights[flightId])
      ensures flightId !in old(db.flights) ==> r == Empty && db.flights == old(db.flights)
      ensures db.seats == old(db.seats)
    {
      if flightId in db.flights {
        var f := db.flights[flightId];
        var updated := f.(availableSeats := f.availableSeats + seatCount);
        db.flights := db.flights[flightId := updated];
        r := Value(updated);
      } else {
        r := Empty;
      }
    }

    /**
     * addFlight: refuses a flight number that is already stored with 409;
     * otherwise saves the flight, under its own id if it has one and under a
     * freshly generated id if not.
     */
    method AddFlight(flight: Flight, freshId: string) returns (r: Mono<Flight>)
      requires db.Valid() && freshId !in db.flights
      modifies db
      ensures db.Valid()
      ensures NumberTaken(old(db.flights), flight.flightNumber) ==>
        r == Error(ResponseStatus(409, DuplicateNumber(flight.flightNumber))) && db.flights == old(db.flights)
      ensures !NumberTaken(old(db.flights), flight.flightNumber) ==>
        var key := flight.id.GetOr(freshId);
        r == Value(flight.(id := Some(key))) && db.flights == old(db.flights)[key := flight.(id := Some(key))]
      ensures db.seats == old(db.seats)
    {
      if NumberTaken(db.flights, flight.flightNumber) {
        r := Error(ResponseStatus(409, DuplicateNumber(flight.flightNumber)));
      } else {
        var key := if flight.id.Some? then flight.id.value else freshId;
        var saved := flight.(id := Some(key));
        db.flights := db.flights[key := saved];
        r := Value(saved);
      }
    }

    /** updateFlight: forces the path id onto the record and replaces (or creates) the stored flight. */
    method UpdateFlight(id: string, flight: Flight)
      requires db.Valid()
      modifies db
      ensures db.Valid()
      ensures db.flights == old(db.flights)[id := flight.(id := Some(id))]
      ensures db.seats == old(db.seats)
    {
      db.flights := db.flights[id := flight.(id := Some(id))];
    }

    /** updateSeats: deletes the flight's seat records, then saves the supplied ones as given. */
    method UpdateSeats(flightId: string, replacement: seq<Seat>)
      modifies db
      ensures db.seats == ReplaceSeats(old(db.seats), flightId, replacement)
      ensures db.flights == old(db.flights)
    {
      db.ReplaceFlightSeats(flightId, replacement);
    }

    /** searchFlights (`findByFromPlaceAndToPlace`): exactly the stored flights from `from` to `to`. */
    function SearchFlights(from: string, to: string): (r: set<Flight>)
      reads this, db
      ensures forall f :: f in r <==> f in db.flights.Values && f.fromPlace == from && f.toPlace == to
    {
      set k | k in db.flights && db.flights[k].fromPlace == from && db.flights[k].toPlace == to :: db.flights[k]
    }
  }
}
