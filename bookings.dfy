/**
 * The booking service (BookingSImplementation): a store of bookings keyed by
 * id, the seat/inventory/persist sequence of `bookFlight`, the plain CRUD
 * operations, the PNR lookup, the time-gated cancellation and the
 * circuit-breaker fallback.
 *
 * Remote calls, the clock and UUID generation are inputs: each remote call
 * is an `HttpReply`, `now` is a time in whole seconds and fresh ids are
 * parameters.  Everything the service does to the outside world (a remote
 * call, a repository write, a Kafka send) is appended, in order, to the ghost
 * trace `effects`.
 */
module Bookings {
  import opened Wrappers
  import opened Text
  import opened Reactive

  /** The booking entity; `id`, `pnr` and `bookingDate` are null until the service sets them. */
  datatype Booking = Booking(
    id: Option<string>,
    pnr: Option<string>,
    email: string,
    flightId: Option<string>,
    seatCount: int,
    passengerIds: seq<string>,
    seatNumbers: seq<string>,
    totalAmount: Option<real>,
    bookingDate: Option<int>)

  datatype BookingCreatedEvent = BookingCreatedEvent(bookingId: string, email: string, pnr: string, seatCount: int)

  datatype BookingCancelledEvent =
    BookingCancelledEvent(bookingId: string, email: string, pnr: string, seatCount: int, reason: string)

  datatype Event = Created(created: BookingCreatedEvent) | Cancelled(cancelled: BookingCancelledEvent)

  /** A Kafka record: topic, key (the booking id) and payload. */
  datatype Message = Message(topic: string, key: string, event: Event)

  /** The two calls to the flight service. */
  datatype RemoteCall =
    | ReserveSeats(flightId: Option<string>, seatNumbers: seq<string>)
    | AdjustInventory(flightId: Option<string>, delta: int)

  datatype StoreOp = Save(booking: Booking) | Delete(id: string)

  datatype Effect = Remote(call: RemoteCall) | Store(op: StoreOp) | Publish(message: Message)

  const CreatedTopic: string := "booking-created"
  const CancelledTopic: string := "booking-cancelled"
  const InvalidBookingId: string := "Invalid booking ID"
  const TooLateToCancel: string := "can't cancel flight after 24 hrs from booking"
  const CancelReason: string := "Cancelled by user"
  const SaveFailed: string := "Failed to save booking"

  /** What every persisted record carries: its own key as id, a PNR and a booking date. */
  predicate Stored(key: string, b: Booking) {
    b.id == Some(key) && b.pnr.Some? && b.bookingDate.Some?
  }

  // ---------------------------------------------------------------- PNRs

  /** `"PNR-" + id.substring(0, 6).toUpperCase()` */
  function DerivePnr(id: string): (pnr: string)
    requires |id| >= 6
    ensures |pnr| == 10 && StartsWith(pnr, "PNR-")
    ensures forall i :: 4 <= i < 10 ==> pnr[i] == UpperChar(id[i - 4])
  {
    "PNR-" + ToUpper(id[..6])
  }

  predicate IsLowerHex(c: char) { '0' <= c <= '9' || 'a' <= c <= 'f' }
  predicate IsUpperHex(c: char) { '0' <= c <= '9' || 'A' <= c <= 'F' }

  /**
   * A UUID's text starts with six lower-case hex digits, so the derived PNR
   * has the shape `PNR-` followed by six upper-case hex digits.
   */
  lemma PnrShape(id: string)
    requires |id| >= 6 && forall i :: 0 <= i < 6 ==> IsLowerHex(id[i])
    ensures var pnr := DerivePnr(id);
      |pnr| == 10 && pnr[..4] == "PNR-" && forall i :: 4 <= i < 10 ==> IsUpperHex(pnr[i])
  {
    var pnr := DerivePnr(id);
    forall i | 4 <= i < 10 ensures IsUpperHex(pnr[i]) {
      assert pnr[i] == UpperChar(id[i - 4]);
    }
  }

  /**
   * The PNR keeps only six characters of the id: two distinct ids that share
   * them get the same PNR.
   */
  lemma PnrIgnoresIdTail(id1: string, id2: string)
    requires |id1| >= 6 && |id2| >= 6 && id1[..6] == id2[..6]
    ensures DerivePnr(id1) == DerivePnr(id2)
  {
  }

  /** The entity `bookFlight` and `createBooking` persist: fresh id, derived PNR, `now` as date. */
  function Confirm(request: Booking, id: string, now: int): (b: Booking)
    requires |id| >= 6
    ensures Stored(id, b)
    ensures b.pnr == Some(DerivePnr(id)) && b.bookingDate == Some(now)
    ensures b.(id := request.id, pnr := request.pnr, bookingDate := request.bookingDate) == request
  {
    request.(id := Some(id), pnr := Some(DerivePnr(id)), bookingDate := Some(now))
  }

  function CreatedMessage(b: Booking): Message
    requires b.id.Some? && b.pnr.Some?
  {
    Message(CreatedTopic, b.id.value,
      Created(BookingCreatedEvent(b.id.value, b.email, b.pnr.value, b.seatCount)))
  }

  function CancelledMessage(b: Booking): Message
    requires b.id.Some? && b.pnr.Some?
  {
    Message(CancelledTopic, b.id.value,
      Cancelled(BookingCancelledEvent(b.id.value, b.email, b.pnr.value, b.seatCount, CancelReason)))
  }

  // ------------------------------------------------- remote step failures

  /** How `bookFlight` turns the seat-reservation reply into an error (None: go on). */
  function SeatStepError(reply: HttpReply): (e: Option<Exception>)
    ensures e.None? <==> reply.Success?
    ensures reply.ClientError? ==>
      e == Some(IllegalArgument("Seat booking failed: " + reply.body.GetOr("Seat booking request invalid")))
    ensures reply.ServerError? ==>
      e == Some(IllegalState("Seat service error: " + reply.body.GetOr("Seat service error")))
    ensures reply.NoResponse? ==> e == Some(Transport(reply.message))
  {
    match reply
    case Success(_) => None
    case ClientError(body) =>
      Some(IllegalArgument("Seat booking failed: " + body.GetOr("Seat booking request invalid")))
    case ServerError(body) =>
      Some(IllegalState("Seat service error: " + body.GetOr("Seat service error")))
    case NoResponse(m) => Some(Transport(m))
  }

  /** How `bookFlight` turns the inventory reply into an error: any 4xx or 5xx is an IllegalState. */
  function InventoryStepError(reply: HttpReply): (e: Option<Exception>)
    ensures e.None? <==> reply.Success?
    ensures reply.ClientError? || reply.ServerError? ==>
      e == Some(IllegalState("Inventory update failed: " + reply.body.GetOr("Inventory update failed")))
    ensures reply.NoResponse? ==> e == Some(Transport(reply.message))
  {
    match reply
    case Success(_) => None
    case ClientError(body) => Some(IllegalState("Inventory update failed: " + body.GetOr("Inventory update failed")))
    case ServerError(body) => Some(IllegalState("Inventory update failed: " + body.GetOr("Inventory update failed")))
    case NoResponse(m) => Some(Transport(m))
  }

  /**
   * The result `bookFlight` hands back: the first failing step's error, an
   * empty result when the inventory reply has no body, the save error, or
   * the confirmed booking.
   */
  function BookFlightOutcome(request: Booking, seatReply: HttpReply, inventoryReply: HttpReply,
                             freshId: string, now: int, saveAcked: bool): (r: Mono<Booking>)
    requires |freshId| >= 6
    ensures r.Value? <==> seatReply.Success? && inventoryReply == Success(true) && saveAcked
    ensures r.Value? ==> r.value == Confirm(request, freshId, now)
    ensures r.Empty? <==> seatReply.Success? && inventoryReply == Success(false)
    ensures !seatReply.Success? ==> r == Error(SeatStepError(seatReply).value)
    ensures seatReply.Success? && !inventoryReply.Success? ==> r == Error(InventoryStepError(inventoryReply).value)
    ensures seatReply.Success? && inventoryReply == Success(true) && !saveAcked ==>
      r == Error(IllegalState(SaveFailed))
  {
    match (SeatStepError(seatReply), InventoryStepError(inventoryReply))
    case (Some(e), _) => Error(e)
    case (None, Some(e)) => Error(e)
    case (None, None) =>
      if !inventoryReply.hasBody then Empty
      else if !saveAcked then Error(IllegalState(SaveFailed))
      else Value(Confirm(request, freshId, now))
  }

  // ------------------------------------------------------ cancellation time

  /** `Duration.toHours()` of a duration in seconds: whole hours, truncated toward zero. */
  function WholeHours(seconds: int): (h: int)
    ensures seconds >= 0 ==> 0 <= h * 3600 <= seconds < (h + 1) * 3600
    ensures seconds < 0 ==> (h - 1) * 3600 < seconds <= h * 3600 <= 0
  {
    if seconds >= 0 then seconds / 3600 else -((-seconds) / 3600)
  }

  /** The guard of `deleteBooking`: at most 24 whole hours since the booking date. */
  predicate CancellationAllowed(bookingDate: int, now: int) {
    !(WholeHours(now - bookingDate) > 24)
  }

  /**
   * Because the hours are truncated, cancelling stays allowed until a full
   * 25 hours have passed (and at any time when the clock is behind the
   * booking date).
   */
  lemma CancellationWindow(bookingDate: int, now: int)
    ensures CancellationAllowed(bookingDate, now) <==> now - bookingDate < 25 * 3600
  {
    var h := WholeHours(now - bookingDate);
    if now - bookingDate >= 25 * 3600 {
      assert h >= 25;
    }
  }

  // ------------------------------------------------------------ PNR lookup

  /** The keys of the records whose PNR equals `pnr`. */
  function PnrMatches(bookings: map<string, Booking>, pnr: string): set<string> {
    set key | key in bookings && bookings[key].pnr == Some(pnr)
  }

  lemma SingletonMembers(s: set<string>, a: string, b: string)
    requires |s| == 1 && a in s && b in s
    ensures a == b
  {
    if a != b {
      assert {a, b} <= s;
      assert |{a, b}| == 2;
      SubsetSize({a, b}, s);
    }
  }

  /**
   * getBookingByPnr: `findAll().filter(pnr matches).singleOrEmpty()`.  One
   * match gives that record, none gives an empty result, two or more an
   * error.
   */
  function FindByPnr(bookings: map<string, Booking>, pnr: string): (r: Mono<Booking>)
    ensures r.Empty? <==> PnrMatches(bookings, pnr) == {}
    ensures r.Error? <==> |PnrMatches(bookings, pnr)| >= 2
    ensures r.Error? ==> r.error == IndexOutOfBounds(MoreThanOneItem)
    ensures r.Value? ==> exists key :: PnrMatches(bookings, pnr) == {key} && r.value == bookings[key]
  {
    var keys := PnrMatches(bookings, pnr);
    if |keys| == 0 then Empty
    else if |keys| >= 2 then Error(IndexOutOfBounds(MoreThanOneItem))
    else
      var key :| key in keys;
      assert forall other :: other in keys ==> other == key by {
        forall other | other in keys ensures other == key {
          SingletonMembers(keys, key, other);
        }
      }
      assert keys == {key};
      Value(bookings[key])
  }

  /**
   * A record stored under a new key with a PNR no other record has is what
   * the lookup returns afterwards.
   */
  lemma {:induction false} FindAfterInsert(bookings: map<string, Booking>, key: string, b: Booking)
    requires key !in bookings && b.pnr.Some?
    requires PnrMatches(bookings, b.pnr.value) == {}
    ensures FindByPnr(bookings[key := b], b.pnr.value) == Value(b)
  {
    var after := bookings[key := b];
    assert PnrMatches(after, b.pnr.value) == {key};
  }

  /**
   * Two bookings whose ids share their first six characters make the lookup
   * of their common PNR fail.
   */
  lemma {:induction false} SharedPnrBreaksLookup(bookings: map<string, Booking>, k1: string, k2: string)
    requires k1 in bookings && k2 in bookings && k1 != k2
    requires Stored(k1, bookings[k1]) && Stored(k2, bookings[k2])
    requires |k1| >= 6 && |k2| >= 6 && k1[..6] == k2[..6]
    requires bookings[k1].pnr == Some(DerivePnr(k1)) && bookings[k2].pnr == Some(DerivePnr(k2))
    ensures FindByPnr(bookings, DerivePnr(k1)).Error?
  {
    PnrIgnoresIdTail(k1, k2);
    var keys := PnrMatches(bookings, DerivePnr(k1));
    assert {k1, k2} <= keys;
    SubsetSize({k1, k2}, keys);
  }

  // -------------------------------------------------------------- fallback

  /**
   * bookFlightFallback: a placeholder echoing the request, with a fresh id,
   * the date `now` and the pseudo-PNR `"FAILED-"` + six characters of a second
   * UUID (not upper-cased).  It is a value only: nothing is stored or sent.
   */
  function BookFlightFallback(request: Booking, freshId: string, pnrUuid: string, now: int): (f: Booking)
    requires |pnrUuid| >= 6
    ensures f.id == Some(freshId) && f.bookingDate == Some(now)
    ensures f.email == request.email && f.flightId == request.flightId && f.seatCount == request.seatCount
    ensures f.passengerIds == request.passengerIds && f.seatNumbers == request.seatNumbers
    ensures f.totalAmount.None?
    ensures f.pnr == Some("FAILED-" + pnrUuid[..6])
    ensures StartsWith(f.pnr.value, "FAILED-") && !StartsWith(f.pnr.value, "PNR-")
  {
    var pnr := "FAILED-" + pnrUuid[..6];
    assert pnr[0] == 'F';
    Booking(Some(freshId), Some(pnr), request.email, request.flightId,
      request.seatCount, request.passengerIds, request.seatNumbers, None, Some(now))
  }

  /** A real PNR and a fallback pseudo-PNR can never be equal. */
  lemma ConfirmedAndFallbackDiffer(request: Booking, id: string, now: int, freshId: string, pnrUuid: string)
    requires |id| >= 6 && |pnrUuid| >= 6
    ensures Confirm(request, id, now).pnr != BookFlightFallback(request, freshId, pnrUuid, now).pnr
  {
    var f := BookFlightFallback(request, freshId, pnrUuid, now);
    assert f.pnr.value[0] == 'F';
  }

  // ------------------------------------------------------------- the service

  class BookingService {
    /** The booking repository. */
    var bookings: map<string, Booking>
    /** Everything sent to the flight service, the repository and Kafka, in order. */
    ghost var effects: seq<Effect>

    ghost predicate Valid()
      reads this
    {
      forall key :: key in bookings ==> Stored(key, bookings[key])
    }

    constructor ()
      ensures Valid() && bookings == map[] && effects == []
    {
      bookings := map[];
      effects := [];
    }

    /**
     * bookFlight: reserve the seats, then move the flight's inventory by
     * -seatCount, then persist the confirmed booking and publish a created
     * event.  A failing step ends the flow: no later step runs, and nothing
     * done by an earlier step is undone.
     */
    method BookFlight(request: Booking, seatReply: HttpReply, inventoryReply: HttpReply,
                      freshId: string, now: int, saveAcked: bool)
      returns (r: Mono<Booking>)
      requires Valid()
      requires |freshId| >= 6 && freshId !in bookings
      modifies this
      ensures Valid()
      ensures r == BookFlightOutcome(request, seatReply, inventoryReply, freshId, now, saveAcked)
      ensures bookings == if r.Value? then old(bookings)[freshId := r.value] else old(bookings)
      ensures !seatReply.Success? ==>
        effects == old(effects) + [Remote(ReserveSeats(request.flightId, request.seatNumbers))]
      ensures seatReply.Success? && (!inventoryReply.Success? || inventoryReply == Success(false)) ==>
        effects == old(effects) + [Remote(ReserveSeats(request.flightId, request.seatNumbers)),
                                   Remote(AdjustInventory(request.flightId, -request.seatCount))]
      ensures seatReply.Success? && inventoryReply == Success(true) && !saveAcked ==>
        effects == old(effects) + [Remote(ReserveSeats(request.flightId, request.seatNumbers)),
                                   Remote(AdjustInventory(request.flightId, -request.seatCount)),
                                   Store(Save(Confirm(request, freshId, now)))]
      ensures r.Value? ==>
        effects == old(effects) + [Remote(ReserveSeats(request.flightId, request.seatNumbers)),
                                   Remote(AdjustInventory(request.flightId, -request.seatCount)),
                                   Store(Save(r.value)),
                                   Publish(CreatedMessage(r.value))]
    {
      effects := effects + [Remote(ReserveSeats(request.flightId, request.seatNumbers))];
      var seatError := SeatStepError(seatReply);
      if seatError.Some? {
        return Error(seatError.value);
      }
      effects := effects + [Remote(AdjustInventory(request.flightId, -request.seatCount))];
      var inventoryError := InventoryStepError(inventoryReply);
      if inventoryError.Some? {
        return Error(inventoryError.value);
      }
      if !inventoryReply.hasBody {
        // bodyToMono completes empty, so the persisting step never runs
        return Empty;
      }
      var b := request.(id := Some(freshId), pnr := Some(DerivePnr(freshId)), bookingDate := Some(now));
      effects := effects + [Store(Save(b))];
      if !saveAcked {
        return Error(IllegalState(SaveFailed));
      }
      bookings := bookings[freshId := b];
      r := Value(b);
      if b.pnr.Some? && StartsWith(b.pnr.value, "PNR-") {
        effects := effects + [Publish(CreatedMessage(b))];
      }
    }

    /**
     * createBooking: id, PNR and date are assigned and the record is written;
     * no remote call, no event.  `saveAcked` is false when the store's save
     * completes without handing the record back, and then nothing is kept.
     */
    method CreateBooking(booking: Booking, freshId: string, now: int, saveAcked: bool) returns (r: Mono<Booking>)
      requires Valid()
      requires |freshId| >= 6 && freshId !in bookings
      modifies this
      ensures Valid()
      ensures effects == old(effects) + [Store(Save(Confirm(booking, freshId, now)))]
      ensures saveAcked ==> r == Value(Confirm(booking, freshId, now)) && bookings == old(bookings)[freshId := r.value]
      ensures !saveAcked ==> r == Empty && bookings == old(bookings)
    {
      var b := booking.(id := Some(freshId), pnr := Some(DerivePnr(freshId)), bookingDate := Some(now));
      effects := effects + [Store(Save(b))];
      if !saveAcked {
        return Empty;
      }
      bookings := bookings[freshId := b];
      r := Value(b);
    }

    /**
     * deleteBooking: an unknown id, or a booking more than 24 whole hours
     * old, is refused with nothing changed; otherwise a cancelled event is
     * sent and then the record is deleted.
     */
    method DeleteBooking(id: string, now: int) returns (r: Mono<()>)
      requires Valid()
      modifies this
      ensures Valid()
      ensures id !in old(bookings) ==> r == Error(Runtime(InvalidBookingId)) && unchanged(this)
      ensures id in old(bookings) && !CancellationAllowed(old(bookings)[id].bookingDate.value, now) ==>
        r == Error(Runtime(TooLateToCancel)) && unchanged(this)
      ensures id in old(bookings) && CancellationAllowed(old(bookings)[id].bookingDate.value, now) ==>
        && r == Empty
        && bookings == old(bookings) - {id}
        && effects == old(effects) + [Publish(CancelledMessage(old(bookings)[id])), Store(Delete(id))]
    {
      if id !in bookings {
        return Error(Runtime(InvalidBookingId));
      }
      var booking := bookings[id];
      var hours := WholeHours(now - booking.bookingDate.value);
      if hours > 24 {
        return Error(Runtime(TooLateToCancel));
      }
      effects := effects + [Publish(CancelledMessage(booking))];
      bookings := bookings - {id};
      effects := effects + [Store(Delete(id))];
      r := Empty;
    }

    /** updateSeatNumbers: read, replace the seat numbers, save. */
    method UpdateSeatNumbers(bookingId: string, seatNumbers: seq<string>) returns (r: Mono<Booking>)
      requires Valid()
      modifies this
      ensures Valid()
      ensures bookingId !in old(bookings) ==> r == Empty && unchanged(this)
      ensures bookingId in old(bookings) ==>
        && r == Value(old(bookings)[bookingId].(seatNumbers := seatNumbers))
        && bookings == old(bookings)[bookingId := r.value]
        && effects == old(effects) + [Store(Save(r.value))]
    {
      if bookingId !in bookings {
        return Empty;
      }
      var b := bookings[bookingId].(seatNumbers := seatNumbers);
      bookings := bookings[bookingId := b];
      effects := effects + [Store(Save(b))];
      r := Value(b);
    }

    /** updatePassengerIds: read, replace the passenger ids, save. */
    method UpdatePassengerIds(bookingId: string, passengerIds: seq<string>) returns (r: Mono<Booking>)
      requires Valid()
      modifies this
      ensures Valid()
      ensures bookingId !in old(bookings) ==> r == Empty && unchanged(this)
      ensures bookingId in old(bookings) ==>
        && r == Value(old(bookings)[bookingId].(passengerIds := passengerIds))
        && bookings == old(bookings)[bookingId := r.value]
        && effects == old(effects) + [Store(Save(r.value))]
    {
      if bookingId !in bookings {
        return Empty;
      }
      var b := bookings[bookingId].(passengerIds := passengerIds);
      bookings := bookings[bookingId := b];
      effects := effects + [Store(Save(b))];
      r := Value(b);
    }

    /** updateTotalAmount: read, set the amount, save. */
    method UpdateTotalAmount(bookingId: string, amount: real) returns (r: Mono<Booking>)
      requires Valid()
      modifies this
      ensures Valid()
      ensures bookingId !in old(bookings) ==> r == Empty && unchanged(this)
      ensures bookingId in old(bookings) ==>
        && r == Value(old(bookings)[bookingId].(totalAmount := Some(amount)))
        && bookings == old(bookings)[bookingId := r.value]
        && effects == old(effects) + [Store(Save(r.value))]
    {
      if bookingId !in bookings {
        return Empty;
      }
      var b := bookings[bookingId].(totalAmount := Some(amount));
      bookings := bookings[bookingId := b];
      effects := effects + [Store(Save(b))];
      r := Value(b);
    }
  }
}
