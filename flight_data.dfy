/**
 * The flight service's two Mongo collections: flights keyed by id, and the
 * seat records (one per seat of a flight) in collection order.  Both
 * FlightSImplementation and SeatSImplementation work on the same seat
 * collection, so it lives in one object they share.
 */
module FlightData {
  import opened Wrappers

  /** A flight; its id is null until the repository assigns one. */
  datatype Flight = Flight(
    id: Option<string>,
    fromPlace: string,
    toPlace: string,
    availableSeats: int,
    airlineId: string,
    flightNumber: string)

  /** A seat record: its number, whether it is still free, and the flight it belongs to. */
  datatype Seat = Seat(seatNumber: string, available: bool, flightId: Option<string>)

  /** A seat of flight `flightId` whose number is among `numbers`. */
  predicate Requested(s: Seat, flightId: string, numbers: seq<string>) {
    s.flightId == Some(flightId) && s.seatNumber in numbers
  }

  /** Some record of flight `flightId` has number `number` (`findByFlightIdAndSeatNumber` finds one). */
  predicate HasSeat(seats: seq<Seat>, flightId: string, number: string) {
    exists s :: s in seats && s.flightId == Some(flightId) && s.seatNumber == number
  }

  /** No flight has two seat records with the same number. */
  ghost predicate UniqueSeatNumbers(seats: seq<Seat>) {
    forall i, j :: 0 <= i < j < |seats| && seats[i].flightId.Some? && seats[i].flightId == seats[j].flightId
      ==> seats[i].seatNumber != seats[j].seatNumber
  }

  /** The records that do not belong to flight `flightId`, in order. */
  function OtherFlights(seats: seq<Seat>, flightId: string): (r: seq<Seat>)
    ensures forall s :: s in r <==> s in seats && s.flightId != Some(flightId)
    ensures |r| <= |seats|
  {
    if seats == [] then []
    else
      var rest := OtherFlights(seats[1..], flightId);
      if seats[0].flightId == Some(flightId) then rest else [seats[0]] + rest
  }

  /**
   * updateSeats: every record of the flight is deleted, then the supplied
   * records are saved as given.  Afterwards the flight's seats are exactly
   * the supplied records that name it, every other flight keeps its records,
   * and supplied records naming another flight are stored under that flight.
   */
  function ReplaceSeats(seats: seq<Seat>, flightId: string, replacement: seq<Seat>): (r: seq<Seat>)
    ensures forall s: Seat :: s.flightId == Some(flightId) ==> (s in r <==> s in replacement)
    ensures forall s :: s in seats && s.flightId != Some(flightId) ==> s in r
    ensures forall s :: s in r ==> s in seats || s in replacement
    ensures |replacement| <= |r| && r[|r| - |replacement|..] == replacement
  {
    OtherFlights(seats, flightId) + replacement
  }

  class FlightDb {
    var flights: map<string, Flight>
    var seats: seq<Seat>

    /** Every stored flight carries its own key as id. */
    ghost predicate Valid()
      reads this
    {
      forall k :: k in flights ==> flights[k].id == Some(k)
    }

    constructor ()
      ensures Valid() && flights == map[] && seats == []
    {
      flights := map[];
      seats := [];
    }

    /**
     * The deletes and saves of `updateSeats`: the flight's records are
     * dropped one by one, then each supplied record is saved.
     */
    method ReplaceFlightSeats(flightId: string, replacement: seq<Seat>)
      modifies this
      ensures seats == ReplaceSeats(old(seats), flightId, replacement)
      ensures flights == old(flights)
    {
      var kept: seq<Seat> := [];
      var i := 0;
      while i < |seats|
        invariant 0 <= i <= |seats|
        invariant kept + OtherFlights(seats[i..], flightId) == OtherFlights(seats, flightId)
        invariant seats == old(seats) && flights == old(flights)
      {
        assert seats[i..][1..] == seats[i + 1..];
        if seats[i].flightId != Some(flightId) {
          kept := kept + [seats[i]];
        }
        i := i + 1;
      }
      seats := kept;
      var j := 0;
      while j < |replacement|
        invariant 0 <= j <= |replacement|
        invariant seats == kept + replacement[..j]
        invariant flights == old(flights)
      {
        seats := seats + [replacement[j]];
        assert replacement[..j + 1] == replacement[..j] + [replacement[j]];
        j := j + 1;
      }
      assert replacement[..|replacement|] == replacement;
    }
  }
}
