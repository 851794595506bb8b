/**
 * SeatSImplementation: the seat map of a flight.  Booking is all-or-nothing:
 * either the flight's records matching the request are as many as the
 * requested numbers and all free, and then they all become booked, or nothing
 * changes.  The count stands for "every requested seat exists" only while
 * numbers are unique per flight and the request names each seat once.
 */
module SeatSvc {
  import opened Wrappers
  import opened Text
  import opened Reactive
  import opened FlightData

  const NoSuchSeat := "One or more selected seats do not exist on this flight"

  function AlreadyBooked(number: string): string {
    "Seat " + number + " is already booked"
  }

  /**
   * `findByFlightIdAndSeatNumberIn`: the positions of the flight's records
   * whose number is requested, each once, in collection order.
   */
  function Matching(seats: seq<Seat>, flightId: string, numbers: seq<string>): (r: seq<nat>)
    ensures forall j :: 0 <= j < |r| ==> r[j] < |seats|
    ensures forall j, k :: 0 <= j < k < |r| ==> r[j] < r[k]
    ensures forall i :: 0 <= i < |seats| ==> (i in r <==> Requested(seats[i], flightId, numbers))
    decreases |seats|
  {
    if seats == [] then []
    else
      var n := |seats| - 1;
      var prefix := Matching(seats[..n], flightId, numbers);
      assert forall i :: 0 <= i < n ==> seats[..n][i] == seats[i];
      if Requested(seats[n], flightId, numbers) then prefix + [n] else prefix
  }

  /** The position in `found` of the first record that is already booked, or |found| if none is. */
  function FirstTaken(seats: seq<Seat>, found: seq<nat>): (j: nat)
    requires forall k :: 0 <= k < |found| ==> found[k] < |seats|
    ensures j <= |found|
    ensures forall k :: 0 <= k < j ==> seats[found[k]].available
    ensures j < |found| ==> !seats[found[j]].available
    decreases |found|
  {
    if found == [] then 0
    else if !seats[found[0]].available then 0
    else 1 + FirstTaken(seats, found[1..])
  }

  /**
   * The result of bookSeats: 400 when some requested number has no record
   * on the flight, else 409 naming the first matched seat that is taken,
   * else success (an empty Mono<Void>).
   */
  function BookSeatsOutcome(seats: seq<Seat>, flightId: string, numbers: seq<string>): (r: Mono<()>)
    ensures r.Empty? || r.Error?
    ensures r == Error(ResponseStatus(400, NoSuchSeat)) <==> |Matching(seats, flightId, numbers)| != |numbers|
    ensures r.Error? && r.error.ResponseStatus? && r.error.status == 409 ==>
      exists i :: 0 <= i < |seats| && Requested(seats[i], flightId, numbers) && !seats[i].available
        && r.error.reason == AlreadyBooked(seats[i].seatNumber)
  {
    var found := Matching(seats, flightId, numbers);
    if |found| != |numbers| then Error(ResponseStatus(400, NoSuchSeat))
    else
      var j := FirstTaken(seats, found);
      if j < |found| then Error(ResponseStatus(409, AlreadyBooked(seats[found[j]].seatNumber)))
      else Empty
  }

  /**
   * When the matched records are as many as the requested numbers but some
   * requested seat is taken, bookSeats answers 409 naming the first taken requested seat in
   * collection order.
   */
  lemma ConflictNamesFirstTaken(seats: seq<Seat>, flightId: string, numbers: seq<string>)
    requires |Matching(seats, flightId, numbers)| == |numbers|
    requires exists i :: 0 <= i < |seats| && Requested(seats[i], flightId, numbers) && !seats[i].available
    ensures exists i ::
      && 0 <= i < |seats| && Requested(seats[i], flightId, numbers) && !seats[i].available
      && (forall h :: 0 <= h < i && Requested(seats[h], flightId, numbers) ==> seats[h].available)
      && BookSeatsOutcome(seats, flightId, numbers) == Error(ResponseStatus(409, AlreadyBooked(seats[i].seatNumber)))
  {
    FirstTakenIsFirst(seats, flightId, numbers);
    var found := Matching(seats, flightId, numbers);
    var j := FirstTaken(seats, found);
    assert Requested(seats[found[j]], flightId, numbers);
  }

  /** A scan that finds the first taken record at position i (or none, at the end) agrees with FirstTaken. */
  lemma FirstTakenAt(seats: seq<Seat>, found: seq<nat>, i: nat)
    requires forall k :: 0 <= k < |found| ==> found[k] < |seats|
    requires i <= |found| && forall k :: 0 <= k < i ==> seats[found[k]].available
    requires i < |found| ==> !seats[found[i]].available
    ensures FirstTaken(seats, found) == i
  {
  }

  /**
   * The first taken record of `found` is the first taken requested record of
   * the flight in collection order, and there is one exactly when some
   * requested record is taken.
   */
  lemma FirstTakenIsFirst(seats: seq<Seat>, flightId: string, numbers: seq<string>)
    ensures var found := Matching(seats, flightId, numbers);
      var j := FirstTaken(seats, found);
      && (j < |found| <==> exists i :: 0 <= i < |seats| && Requested(seats[i], flightId, numbers) && !seats[i].available)
      && (j < |found| ==> forall h :: 0 <= h < found[j] && Requested(seats[h], flightId, numbers) ==> seats[h].available)
  {
    var found := Matching(seats, flightId, numbers);
    var j := FirstTaken(seats, found);
    forall i | 0 <= i < |seats| && Requested(seats[i], flightId, numbers) && !seats[i].available
      ensures j < |found|
    {
      assert i in found;
      var m :| 0 <= m < |found| && found[m] == i;
    }
    if j < |found| {
      assert Requested(seats[found[j]], flightId, numbers);
      forall h | 0 <= h < found[j] && Requested(seats[h], flightId, numbers)
        ensures seats[h].available
      {
        assert h in found;
        var m :| 0 <= m < |found| && found[m] == h;
        assert m < j;
      }
    }
  }

  /** The seat map after a successful booking: the requested seats of the flight are taken. */
  function Booked(seats: seq<Seat>, flightId: string, numbers: seq<string>): (r: seq<Seat>)
    ensures |r| == |seats|
    ensures forall i :: 0 <= i < |seats| ==>
      r[i].seatNumber == seats[i].seatNumber && r[i].flightId == seats[i].flightId
    ensures forall i :: 0 <= i < |seats| && Requested(seats[i], flightId, numbers) ==> !r[i].available
    ensures forall i :: 0 <= i < |seats| && !Requested(seats[i], flightId, numbers) ==> r[i] == seats[i]
  {
    seq(|seats|, i requires 0 <= i < |seats| =>
      if Requested(seats[i], flightId, numbers) then seats[i].(available := false) else seats[i])
  }

  /**
   * bookSeats succeeds exactly when the flight's records matching the request
   * are as many as the requested numbers and all of them are free.
   */
  lemma BookSeatsSucceedsIff(seats: seq<Seat>, flightId: string, numbers: seq<string>)
    ensures BookSeatsOutcome(seats, flightId, numbers) == Empty <==>
      |Matching(seats, flightId, numbers)| == |numbers| &&
      forall i :: 0 <= i < |seats| && Requested(seats[i], flightId, numbers) ==> seats[i].available
  {
    var found := Matching(seats, flightId, numbers);
    if |found| == |numbers| {
      var j := FirstTaken(seats, found);
      if j < |found| {
        assert Requested(seats[found[j]], flightId, numbers);
      } else {
        forall i | 0 <= i < |seats| && Requested(seats[i], flightId, numbers)
          ensures seats[i].available
        {
          assert i in found;
          var k :| 0 <= k < |found| && found[k] == i;
        }
      }
    }
  }

  /** Matching only looks at flight ids and seat numbers. */
  lemma {:induction false} MatchingIgnoresAvailability(a: seq<Seat>, b: seq<Seat>, flightId: string, numbers: seq<string>)
    requires |a| == |b|
    requires forall i :: 0 <= i < |a| ==> a[i].seatNumber == b[i].seatNumber && a[i].flightId == b[i].flightId
    ensures Matching(a, flightId, numbers) == Matching(b, flightId, numbers)
    decreases |a|
  {
    if a != [] {
      var n := |a| - 1;
      MatchingIgnoresAvailability(a[..n], b[..n], flightId, numbers);
    }
  }

  /** Booking the same non-empty list of seats a second time is refused with 409: a seat is booked at most once. */
  lemma RebookingConflicts(seats: seq<Seat>, flightId: string, numbers: seq<string>)
    requires |numbers| > 0
    requires BookSeatsOutcome(seats, flightId, numbers) == Empty
    ensures var again := BookSeatsOutcome(Booked(seats, flightId, numbers), flightId, numbers);
      again.Error? && again.error.ResponseStatus? && again.error.status == 409
  {
    var after := Booked(seats, flightId, numbers);
    MatchingIgnoresAvailability(seats, after, flightId, numbers);
    var found := Matching(seats, flightId, numbers);
    assert |found| == |numbers|;
    assert found[0] in found;
    assert !after[found[0]].available;
    assert FirstTaken(after, found) == 0;
  }

  /** The requested numbers that some record of the flight carries. */
  ghost function Covered(seats: seq<Seat>, flightId: string, numbers: seq<string>): set<string> {
    set x | x in numbers && HasSeat(seats, flightId, x)
  }

  /** With unique numbers per flight, each matched record covers a different requested number. */
  lemma {:induction false} MatchingCount(seats: seq<Seat>, flightId: string, numbers: seq<string>)
    requires UniqueSeatNumbers(seats)
    ensures |Matching(seats, flightId, numbers)| == |Covered(seats, flightId, numbers)|
    decreases |seats|
  {
    if seats == [] {
      assert Covered(seats, flightId, numbers) == {};
    } else {
      var n := |seats| - 1;
      var p := seats[..n];
      assert UniqueSeatNumbers(p);
      MatchingCount(p, flightId, numbers);
      CoveredSnoc(seats, flightId, numbers);
    }
  }

  /**
   * The last record adds its number to the covered ones exactly when it is
   * requested, and with unique numbers that number was not covered before.
   */
  lemma CoveredSnoc(seats: seq<Seat>, flightId: string, numbers: seq<string>)
    requires |seats| > 0 && UniqueSeatNumbers(seats)
    ensures var p, s := seats[..|seats| - 1], seats[|seats| - 1];
      |Covered(seats, flightId, numbers)| ==
        |Covered(p, flightId, numbers)| + if Requested(s, flightId, numbers) then 1 else 0
  {
    var n := |seats| - 1;
    var p := seats[..n];
    var s := seats[n];
    assert seats == p + [s];
    forall x ensures HasSeat(seats, flightId, x) <==> HasSeat(p, flightId, x) || (s.flightId == Some(flightId) && s.seatNumber == x)
    {
      if HasSeat(seats, flightId, x) {
        var t :| t in seats && t.flightId == Some(flightId) && t.seatNumber == x;
        assert t in p || t == s;
      }
    }
    if Requested(s, flightId, numbers) {
      assert s.seatNumber !in Covered(p, flightId, numbers);
      assert Covered(seats, flightId, numbers) == Covered(p, flightId, numbers) + {s.seatNumber};
    } else {
      assert Covered(seats, flightId, numbers) == Covered(p, flightId, numbers);
    }
  }

  /** A list with a repeated element has fewer distinct elements than entries. */
  lemma {:induction false} RepeatShrinksSet(xs: seq<string>, i: nat, j: nat)
    requires i < j < |xs| && xs[i] == xs[j]
    ensures |set x | x in xs| < |xs|
    decreases |xs|
  {
    var n := |xs| - 1;
    var p := xs[..n];
    assert xs == p + [xs[n]];
    assert (set x | x in xs) == (set x | x in p) + {xs[n]};
    if j == n {
      assert xs[n] in p;
      assert (set x | x in xs) == (set x | x in p);
      DistinctBound(p);
    } else {
      RepeatShrinksSet(p, i, j);
    }
  }

  /** A list has at most as many distinct elements as entries. */
  lemma {:induction false} DistinctBound(xs: seq<string>)
    ensures |set x | x in xs| <= |xs|
    decreases |xs|
  {
    if xs != [] {
      var n := |xs| - 1;
      var p := xs[..n];
      assert xs == p + [xs[n]];
      assert (set x | x in xs) == (set x | x in p) + {xs[n]};
      DistinctBound(p);
    }
  }

  /**
   * If seat numbers are unique per flight, a request naming the same seat
   * twice fails the count check: the query returns that seat only once.
   */
  lemma DuplicateRequestRejected(seats: seq<Seat>, flightId: string, numbers: seq<string>, i: nat, j: nat)
    requires UniqueSeatNumbers(seats)
    requires i < j < |numbers| && numbers[i] == numbers[j]
    ensures BookSeatsOutcome(seats, flightId, numbers) == Error(ResponseStatus(400, NoSuchSeat))
  {
    MatchingCount(seats, flightId, numbers);
    SubsetSize(Covered(seats, flightId, numbers), set x | x in numbers);
    RepeatShrinksSet(numbers, i, j);
  }

  /** A list without repeats has as many distinct elements as entries. */
  lemma {:induction false} DistinctSize(xs: seq<string>)
    requires forall i, j :: 0 <= i < j < |xs| ==> xs[i] != xs[j]
    ensures |set x | x in xs| == |xs|
    decreases |xs|
  {
    if xs != [] {
      var n := |xs| - 1;
      var p := xs[..n];
      assert xs == p + [xs[n]];
      assert xs[n] !in p by {
        forall k | 0 <= k < n ensures p[k] != xs[n] { assert p[k] == xs[k]; }
      }
      assert (set x | x in xs) == (set x | x in p) + {xs[n]};
      DistinctSize(p);
    }
  }

  /**
   * The count check means "every requested seat exists" only when seat
   * numbers are unique per flight and the request names each seat once:
   * then bookSeats succeeds exactly when every requested number has a
   * record on the flight and every such record is free.
   */
  lemma DistinctRequestSucceedsIff(seats: seq<Seat>, flightId: string, numbers: seq<string>)
    requires UniqueSeatNumbers(seats)
    requires forall i, j :: 0 <= i < j < |numbers| ==> numbers[i] != numbers[j]
    ensures BookSeatsOutcome(seats, flightId, numbers) == Empty <==>
      && (forall x :: x in numbers ==> HasSeat(seats, flightId, x))
      && (forall i :: 0 <= i < |seats| && Requested(seats[i], flightId, numbers) ==> seats[i].available)
  {
    BookSeatsSucceedsIff(seats, flightId, numbers);
    MatchingCount(seats, flightId, numbers);
    DistinctSize(numbers);
    var covered := Covered(seats, flightId, numbers);
    var asked := set x | x in numbers;
    if forall x :: x in numbers ==> HasSeat(seats, flightId, x) {
      assert covered == asked;
    } else {
      var x :| x in numbers && !HasSeat(seats, flightId, x);
      assert covered <= asked - {x};
      SubsetSize(covered, asked - {x});
    }
  }

  /**
   * Once a flight holds two records with the same number (which addSeats can
   * cause), the count check lets through a request naming a seat the flight
   * does not have: booking 1A and 1B succeeds although there is no 1B.
   */
  lemma DuplicatedRecordHidesMissingSeat()
    ensures var seats := [Seat("1A", true, Some("F1")), Seat("1A", true, Some("F1"))];
      && BookSeatsOutcome(seats, "F1", ["1A", "1B"]) == Empty
      && !HasSeat(seats, "F1", "1B")
  {
    var seats := [Seat("1A", true, Some("F1")), Seat("1A", true, Some("F1"))];
    BookSeatsSucceedsIff(seats, "F1", ["1A", "1B"]);
    assert Requested(seats[0], "F1", ["1A", "1B"]) && Requested(seats[1], "F1", ["1A", "1B"]);
    var found := Matching(seats, "F1", ["1A", "1B"]);
    assert 0 in found && 1 in found;
    assert |found| == 2;
  }

  /**
   * `findByFlightIdAndSeatNumber`: the flight's record with that number,
   * empty when there is none, and an error when two or more records match
   * (the query is a single-result one).
   */
  function FindSeat(seats: seq<Seat>, flightId: string, number: string): (r: Mono<Seat>)
    ensures r.Value? ==> r.value in seats && r.value.flightId == Some(flightId) && r.value.seatNumber == number
    ensures r.Error? ==> r.error == IncorrectResultSize(NonUniqueResult)
    decreases |seats|
  {
    if seats == [] then Empty
    else
      var last := seats[|seats| - 1];
      var before := FindSeat(seats[..|seats| - 1], flightId, number);
      if last.flightId != Some(flightId) || last.seatNumber != number then before
      else if before.Empty? then Value(last)
      else Error(IncorrectResultSize(NonUniqueResult))
  }

  /** The lookup is empty exactly when the flight has no record with the number. */
  lemma {:induction false} FindSeatEmptyIff(seats: seq<Seat>, flightId: string, number: string)
    ensures FindSeat(seats, flightId, number).Empty? <==> !HasSeat(seats, flightId, number)
    decreases |seats|
  {
    if seats != [] {
      var n := |seats| - 1;
      FindSeatEmptyIff(seats[..n], flightId, number);
      assert seats == seats[..n] + [seats[n]];
    }
  }

  /**
   * The lookup agrees with the bookSeats query for that one number: empty
   * when the query finds nothing, an error when it finds two or more records.
   */
  lemma {:induction false} FindSeatAgreesWithMatching(seats: seq<Seat>, flightId: string, number: string)
    ensures FindSeat(seats, flightId, number).Empty? <==> |Matching(seats, flightId, [number])| == 0
    ensures FindSeat(seats, flightId, number).Error? <==> |Matching(seats, flightId, [number])| >= 2
    decreases |seats|
  {
    if seats != [] {
      var n := |seats| - 1;
      FindSeatAgreesWithMatching(seats[..n], flightId, number);
      var prefix := Matching(seats[..n], flightId, [number]);
      var hit := seats[n].flightId == Some(flightId) && seats[n].seatNumber == number;
      assert Requested(seats[n], flightId, [number]) == hit;
      assert |Matching(seats, flightId, [number])| == |prefix| + (if hit then 1 else 0);
      assert FindSeat(seats, flightId, number) ==
        if !hit then FindSeat(seats[..n], flightId, number)
        else if FindSeat(seats[..n], flightId, number).Empty? then Value(seats[n])
        else Error(IncorrectResultSize(NonUniqueResult));
    }
  }

  /** The supplied records with the path flight id set, as addSeats saves them. */
  function Stamped(added: seq<Seat>, flightId: string): seq<Seat> {
    seq(|added|, k requires 0 <= k < |added| => added[k].(flightId := Some(flightId)))
  }

  /** The seat records after addSeats, and how its `Mono<Void>` finished. */
  datatype AddOutcome = AddOutcome(seats: seq<Seat>, result: Mono<()>)

  /**
   * addSeats as written, one supplied record after another.  Every record is
   * stamped with the flight id and saved whatever the lookup finds: a found
   * record is mapped to an empty result, on which `switchIfEmpty` saves.  Only
   * a lookup that matches two or more records stops the run, with its error;
   * the records before it stay saved.
   */
  function AddAll(seats: seq<Seat>, flightId: string, added: seq<Seat>): (r: AddOutcome)
    ensures r.result == Empty || r.result == Error(IncorrectResultSize(NonUniqueResult))
    decreases |added|
  {
    if added == [] then AddOutcome(seats, Empty)
    else
      var found := FindSeat(seats, flightId, added[0].seatNumber);
      if found.Error? then AddOutcome(seats, Error(found.error))
      else AddAll(seats + [added[0].(flightId := Some(flightId))], flightId, added[1..])
  }

  /** When addSeats completes, every supplied record has been saved, stamped, after the existing ones. */
  lemma {:induction false} AddAllSavesEverything(seats: seq<Seat>, flightId: string, added: seq<Seat>)
    ensures AddAll(seats, flightId, added).result == Empty ==>
      AddAll(seats, flightId, added).seats == seats + Stamped(added, flightId)
    decreases |added|
  {
    if added != [] && !FindSeat(seats, flightId, added[0].seatNumber).Error? {
      var next := seats + [added[0].(flightId := Some(flightId))];
      AddAllSavesEverything(next, flightId, added[1..]);
      StampedCons(added, flightId);
    }
  }

  /**
   * When addSeats fails, the supplied records before the failing one have
   * been saved, and the failing one's lookup matches several records.
   */
  lemma {:induction false} AddAllStopsAtDuplicate(seats: seq<Seat>, flightId: string, added: seq<Seat>)
    ensures var r := AddAll(seats, flightId, added);
      r.result.Error? ==>
        var k := |r.seats| - |seats|;
        0 <= k < |added| && r.seats == seats + Stamped(added[..k], flightId) &&
        FindSeat(r.seats, flightId, added[k].seatNumber).Error?
    decreases |added|
  {
    if added != [] {
      if FindSeat(seats, flightId, added[0].seatNumber).Error? {
        assert AddAll(seats, flightId, added).seats == seats;
        assert Stamped(added[..0], flightId) == [];
      } else {
        var next := seats + [added[0].(flightId := Some(flightId))];
        var r := AddAll(next, flightId, added[1..]);
        assert AddAll(seats, flightId, added) == r;
        AddAllStopsAtDuplicate(next, flightId, added[1..]);
        if r.result.Error? {
          var k := |r.seats| - |next|;
          StampedPrefix(added, flightId, k);
          assert r.seats == seats + Stamped(added[..k + 1], flightId);
        }
      }
    }
  }

  /** Stamping the first k + 1 records stamps the first one, then the next k. */
  lemma StampedPrefix(added: seq<Seat>, flightId: string, k: nat)
    requires k < |added| - 1
    ensures Stamped(added[..k + 1], flightId) == [added[0].(flightId := Some(flightId))] + Stamped(added[1..][..k], flightId)
    ensures added[1..][k] == added[k + 1]
  {
    StampedCons(added[..k + 1], flightId);
    assert added[..k + 1][1..] == added[1..][..k];
  }

  /** Stamping a list stamps its head, then its tail. */
  lemma StampedCons(added: seq<Seat>, flightId: string)
    requires |added| > 0
    ensures Stamped(added, flightId) == [added[0].(flightId := Some(flightId))] + Stamped(added[1..], flightId)
  {
  }

  /**
   * The existence check has no effect on what is saved: a supplied number
   * the flight already has once is saved a second time, and the flight then
   * has two records with that number.
   */
  lemma ExistingNumberIsSavedAgain(seats: seq<Seat>, flightId: string, x: Seat)
    requires FindSeat(seats, flightId, x.seatNumber).Value?
    ensures var r := AddAll(seats, flightId, [x]);
      r.result == Empty && r.seats == seats + [x.(flightId := Some(flightId))] && !UniqueSeatNumbers(r.seats)
  {
    var t := x.(flightId := Some(flightId));
    SingleSaved(seats, flightId, x);
    var r := seats + [t];
    var found := FindSeat(seats, flightId, x.seatNumber).value;
    var i :| 0 <= i < |seats| && seats[i] == found;
    assert r[i] == found && r[|seats|] == t;
  }

  /** Adding one record whose lookup does not fail saves it after the existing ones. */
  lemma SingleSaved(seats: seq<Seat>, flightId: string, x: Seat)
    requires !FindSeat(seats, flightId, x.seatNumber).Error?
    ensures AddAll(seats, flightId, [x]) == AddOutcome(seats + [x.(flightId := Some(flightId))], Empty)
  {
    assert [x][1..] == [];
  }

  /** Once a flight has a number twice, adding that number again fails and saves nothing. */
  lemma DuplicatedNumberBlocksAdding(seats: seq<Seat>, flightId: string, x: Seat, rest: seq<Seat>)
    requires FindSeat(seats, flightId, x.seatNumber).Error?
    ensures AddAll(seats, flightId, [x] + rest) == AddOutcome(seats, Error(IncorrectResultSize(NonUniqueResult)))
  {
    assert ([x] + rest)[0] == x;
  }

  /** Once a flight has a number twice, booking that seat fails the count check. */
  lemma DuplicatedNumberCannotBeBooked(seats: seq<Seat>, flightId: string, number: string)
    requires FindSeat(seats, flightId, number).Error?
    ensures BookSeatsOutcome(seats, flightId, [number]) == Error(ResponseStatus(400, NoSuchSeat))
  {
    FindSeatAgreesWithMatching(seats, flightId, number);
  }

  /** Adding seat "1A" to flight "F1" twice leaves the flight with two records numbered "1A". */
  lemma AddingTwiceDuplicates()
    ensures var x := Seat("1A", true, None);
      var once := AddAll([], "F1", [x]);
      var twice := AddAll(once.seats, "F1", [x]);
      twice.result == Empty && twice.seats == [Seat("1A", true, Some("F1")), Seat("1A", true, Some("F1"))] &&
      !UniqueSeatNumbers(twice.seats)
  {
    var x := Seat("1A", true, None);
    var t := Seat("1A", true, Some("F1"));
    assert x.(flightId := Some("F1")) == t;
    SingleSaved([], "F1", x);
    assert [] + [t] == [t];
    assert FindSeat([t], "F1", "1A") == Value(t) by { assert [t][..0] == []; }
    ExistingNumberIsSavedAgain([t], "F1", x);
    assert [t] + [t] == [t, t];
  }

  /**
   * addSeats as evidently intended, for one supplied record: it is stamped
   * with the path flight id and saved unless the flight already has a record
   * with that number.
   */
  function AddOne(seats: seq<Seat>, flightId: string, seat: Seat): seq<Seat> {
    if HasSeat(seats, flightId, seat.seatNumber) then seats
    else seats + [seat.(flightId := Some(flightId))]
  }

  /**
   * addSeats as evidently intended, over the supplied list.  Existing
   * records are never changed or removed, every added record belongs to the
   * flight and copies a supplied record, and afterwards every supplied number
   * exists on the flight.
   */
  function AddMissing(seats: seq<Seat>, flightId: string, added: seq<Seat>): (r: seq<Seat>)
    ensures |seats| <= |r| && r[..|seats|] == seats
    ensures forall k :: |seats| <= k < |r| ==>
      r[k].flightId == Some(flightId) && exists x :: x in added && r[k] == x.(flightId := Some(flightId))
    ensures forall x :: x in added ==> HasSeat(r, flightId, x.seatNumber)
    decreases |added|
  {
    if added == [] then seats
    else
      var next := AddOne(seats, flightId, added[0]);
      var r := AddMissing(next, flightId, added[1..]);
      AddMissingStep(seats, flightId, added[0], added[1..], r);
      assert added == [added[0]] + added[1..];
      r
  }

  /** One step of AddMissing: what holds after the rest of the list carries over to the whole list. */
  lemma AddMissingStep(seats: seq<Seat>, flightId: string, x: Seat, rest: seq<Seat>, r: seq<Seat>)
    requires var next := AddOne(seats, flightId, x);
      && |next| <= |r| && r[..|next|] == next
      && (forall k :: |next| <= k < |r| ==>
            r[k].flightId == Some(flightId) && exists y :: y in rest && r[k] == y.(flightId := Some(flightId)))
      && (forall y :: y in rest ==> HasSeat(r, flightId, y.seatNumber))
    ensures |seats| <= |r| && r[..|seats|] == seats
    ensures forall k :: |seats| <= k < |r| ==>
      r[k].flightId == Some(flightId) && exists y :: y in [x] + rest && r[k] == y.(flightId := Some(flightId))
    ensures forall y :: y in [x] + rest ==> HasSeat(r, flightId, y.seatNumber)
  {
    var next := AddOne(seats, flightId, x);
    assert r[..|seats|] == next[..|seats|];
    var s :| s in next && s.flightId == Some(flightId) && s.seatNumber == x.seatNumber;
    assert s in r by {
      var i :| 0 <= i < |next| && next[i] == s;
      assert r[i] == s;
    }
    forall k | |seats| <= k < |r|
      ensures r[k].flightId == Some(flightId) && exists y :: y in [x] + rest && r[k] == y.(flightId := Some(flightId))
    {
      if k < |next| {
        assert r[k] == next[k] && x in [x] + rest;
      } else {
        var y :| y in rest && r[k] == y.(flightId := Some(flightId));
        assert y in [x] + rest;
      }
    }
  }

  /** Intended: a supplied number the flight already has is skipped. */
  lemma {:induction false} AddExistingIsNoop(seats: seq<Seat>, flightId: string, added: seq<Seat>)
    requires forall x :: x in added ==> HasSeat(seats, flightId, x.seatNumber)
    ensures AddMissing(seats, flightId, added) == seats
    decreases |added|
  {
    if added != [] {
      assert forall x :: x in added[1..] ==> x in added;
      AddExistingIsNoop(seats, flightId, added[1..]);
    }
  }

  /** Intended: adding seats keeps seat numbers unique per flight. */
  lemma {:induction false} AddMissingKeepsUnique(seats: seq<Seat>, flightId: string, added: seq<Seat>)
    requires UniqueSeatNumbers(seats)
    ensures UniqueSeatNumbers(AddMissing(seats, flightId, added))
    decreases |added|
  {
    if added != [] {
      var next := AddOne(seats, flightId, added[0]);
      if !HasSeat(seats, flightId, added[0].seatNumber) {
        var t := added[0].(flightId := Some(flightId));
        forall i, j | 0 <= i < j < |next| && next[i].flightId.Some? && next[i].flightId == next[j].flightId
          ensures next[i].seatNumber != next[j].seatNumber
        {
          if j == |seats| {
            assert next[i] in seats;
          }
        }
      }
      AddMissingKeepsUnique(next, flightId, added[1..]);
    }
  }

  /**
   * Where the check matters it is the only difference: for distinct numbers
   * the flight does not have yet, the program as written and the intended
   * one save the same records.
   */
  lemma {:induction false} FreshNumbersAddedAlike(seats: seq<Seat>, flightId: string, added: seq<Seat>)
    requires forall k :: 0 <= k < |added| ==> !HasSeat(seats, flightId, added[k].seatNumber)
    requires forall i, j :: 0 <= i < j < |added| ==> added[i].seatNumber != added[j].seatNumber
    ensures AddAll(seats, flightId, added) == AddOutcome(AddMissing(seats, flightId, added), Empty)
    decreases |added|
  {
    if added != [] {
      var t := added[0].(flightId := Some(flightId));
      var next := seats + [t];
      FindSeatEmptyIff(seats, flightId, added[0].seatNumber);
      assert AddAll(seats, flightId, added) == AddAll(next, flightId, added[1..]);
      assert AddOne(seats, flightId, added[0]) == next;
      forall k | 0 <= k < |added[1..]|
        ensures !HasSeat(next, flightId, added[1..][k].seatNumber)
      {
        assert added[1..][k] == added[k + 1];
      }
      FreshNumbersAddedAlike(next, flightId, added[1..]);
    }
  }

  class SeatService {
    const db: FlightDb

    constructor (db: FlightDb)
      ensures this.db == db
    {
      this.db := db;
    }

    /** bookSeats: checks every requested seat, then marks all of them booked and saves them. */
    method BookSeats(flightId: string, seatNumbers: seq<string>) returns (r: Mono<()>)
      modifies db
      ensures r == BookSeatsOutcome(old(db.seats), flightId, seatNumbers)
      ensures db.seats == if r == Empty then Booked(old(db.seats), flightId, seatNumbers) else old(db.seats)
      ensures db.flights == old(db.flights)
    {
      var found := Matching(db.seats, flightId, seatNumbers);
      if |found| != |seatNumbers| {
        return Error(ResponseStatus(400, NoSuchSeat));
      }
      var i := 0;
      while i < |found|
        invariant 0 <= i <= |found|
        invariant forall k :: 0 <= k < i ==> db.seats[found[k]].available
      {
        if !db.seats[found[i]].available {
          FirstTakenAt(db.seats, found, i);
          return Error(ResponseStatus(409, AlreadyBooked(db.seats[found[i]].seatNumber)));
        }
        i := i + 1;
      }
      FirstTakenAt(db.seats, found, i);
      ghost var before := db.seats;
      MarkBooked(found);
      assert forall m :: 0 <= m < |before| ==> (m in found <==> Requested(before[m], flightId, seatNumbers));
      assert db.seats == Booked(before, flightId, seatNumbers);
      r := Empty;
    }

    /** `forEach(s -> s.setAvailable(false))` and `saveAll`: the records at the positions in `found` become booked. */
    method MarkBooked(found: seq<nat>)
      requires forall k :: 0 <= k < |found| ==> found[k] < |db.seats|
      modifies db
      ensures |db.seats| == |old(db.seats)| && db.flights == old(db.flights)
      ensures forall m :: 0 <= m < |db.seats| ==>
        db.seats[m] == if m in found then old(db.seats)[m].(available := false) else old(db.seats)[m]
    {
      var k := 0;
      while k < |found|
        invariant 0 <= k <= |found|
        invariant |db.seats| == |old(db.seats)| && db.flights == old(db.flights)
        invariant forall m :: 0 <= m < |db.seats| ==>
          db.seats[m] == if m in found[..k] then old(db.seats)[m].(available := false) else old(db.seats)[m]
      {
        assert found[..k + 1] == found[..k] + [found[k]];
        db.seats := db.seats[found[k] := db.seats[found[k]].(available := false)];
        k := k + 1;
      }
      assert found[..|found|] == found;
    }

    /**
     * addSeats: each supplied record is looked up and then saved, whether or
     * not the lookup found one; a lookup that matches several records ends
     * the call with its error.
     */
    method AddSeats(flightId: string, added: seq<Seat>) returns (r: Mono<()>)
      modifies db
      ensures AddOutcome(db.seats, r) == AddAll(old(db.seats), flightId, added)
      ensures db.flights == old(db.flights)
    {
      var i := 0;
      while i < |added|
        invariant 0 <= i <= |added|
        invariant AddAll(db.seats, flightId, added[i..]) == AddAll(old(db.seats), flightId, added)
        invariant db.flights == old(db.flights)
      {
        assert added[i..][1..] == added[i + 1..];
        var existing := FindSeat(db.seats, flightId, added[i].seatNumber);
        if existing.Error? {
          return Error(existing.error);
        }
        db.seats := db.seats + [added[i].(flightId := Some(flightId))];
        i := i + 1;
      }
      r := Empty;
    }

    /** updateSeats: deletes the flight's records, then saves the supplied ones as given. */
    method UpdateSeats(flightId: string, replacement: seq<Seat>)
      modifies db
      ensures db.seats == ReplaceSeats(old(db.seats), flightId, replacement)
      ensures db.flights == old(db.flights)
    {
      db.ReplaceFlightSeats(flightId, replacement);
    }
  }
}
