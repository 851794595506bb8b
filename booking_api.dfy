/**
 * BookingController: request validation for `POST /book`, the mapping from
 * the service's outcome to an HTTP reply, the reply of `DELETE /{id}`, and
 * the copies between the booking entity and its DTO.
 */
module BookingApi {
  import opened Wrappers
  import opened Text
  import opened Reactive
  import opened Bookings

  /** BookingDTO: the entity's fields without `bookingDate`. */
  datatype BookingDto = BookingDto(
    id: Option<string>,
    pnr: Option<string>,
    email: string,
    flightId: Option<string>,
    seatCount: int,
    passengerIds: seq<string>,
    seatNumbers: seq<string>,
    totalAmount: Option<real>)

  /** An HTTP reply: a JSON object of strings, a plain-text body, or no body. */
  datatype Reply =
    | Json(status: int, fields: map<string, string>)
    | Plain(status: int, text: string)
    | NoBody(status: int)

  const MissingFields: string := "flightId and seatCount are required"
  const BookingFailed: string := "Booking failed"
  const Deleted: string := "Booking deleted successfully!"

  /** toDto: copies seven fields and turns a null total amount into 0. */
  function ToDto(b: Booking): (d: BookingDto)
    ensures d.id == b.id && d.pnr == b.pnr && d.email == b.email && d.flightId == b.flightId
    ensures d.seatCount == b.seatCount && d.passengerIds == b.passengerIds && d.seatNumbers == b.seatNumbers
    ensures d.totalAmount.Some?
    ensures b.totalAmount.Some? ==> d.totalAmount == b.totalAmount
    ensures b.totalAmount.None? ==> d.totalAmount == Some(0.0)
  {
    BookingDto(b.id, b.pnr, b.email, b.flightId, b.seatCount, b.passengerIds, b.seatNumbers,
      Some(b.totalAmount.GetOr(0.0)))
  }

  /** toEntity: copies all eight DTO fields; the booking date stays null. */
  function ToEntity(d: BookingDto): (b: Booking)
    ensures b.id == d.id && b.pnr == d.pnr && b.email == d.email && b.flightId == d.flightId
    ensures b.seatCount == d.seatCount && b.passengerIds == d.passengerIds && b.seatNumbers == d.seatNumbers
    ensures b.totalAmount == d.totalAmount && b.bookingDate.None?
  {
    Booking(d.id, d.pnr, d.email, d.flightId, d.seatCount, d.passengerIds, d.seatNumbers, d.totalAmount, None)
  }

  /** toDto(toEntity(d)) gives d back, except that a null amount comes back as 0. */
  lemma DtoRoundTrip(d: BookingDto)
    ensures d.totalAmount.Some? ==> ToDto(ToEntity(d)) == d
    ensures d.totalAmount.None? ==> ToDto(ToEntity(d)) == d.(totalAmount := Some(0.0))
  {
  }

  /** toEntity(toDto(b)) loses the booking date and fills in a null amount. */
  lemma EntityRoundTrip(b: Booking)
    ensures ToEntity(ToDto(b)) == b.(bookingDate := None, totalAmount := Some(b.totalAmount.GetOr(0.0)))
  {
  }

  /** The guard of `bookFlight`: a flight id and a positive seat count. */
  predicate ValidBookRequest(d: BookingDto) {
    d.flightId.Some? && d.seatCount > 0
  }

  /**
   * The reply to `POST /book` once the service has answered: 201 with the
   * id and the PNR, 400 for an IllegalArgumentException, 502 for an
   * IllegalStateException, 500 "Booking failed" for anything else (a null id
   * or PNR makes `Map.of` throw, which lands there too).  An empty service
   * result leaves an empty reply.
   */
  function BookFlightReply(outcome: Mono<Booking>): (reply: Reply)
    ensures outcome.Value? && outcome.value.id.Some? && outcome.value.pnr.Some? ==>
      reply == Json(201, map["id" := outcome.value.id.value, "pnr" := outcome.value.pnr.value])
    ensures outcome.Error? && outcome.error.IllegalArgument? ==>
      reply == Json(400, map["error" := outcome.error.message])
    ensures outcome.Error? && outcome.error.IllegalState? ==>
      reply == Json(502, map["error" := outcome.error.message])
    ensures outcome.Error? && !outcome.error.IllegalArgument? && !outcome.error.IllegalState? ==>
      reply == Json(500, map["error" := BookingFailed])
    ensures outcome.Empty? ==> reply == NoBody(200)
  {
    match outcome
    case Value(saved) =>
      if saved.id.Some? && saved.pnr.Some? then
        Json(201, map["id" := saved.id.value, "pnr" := saved.pnr.value])
      else Json(500, map["error" := BookingFailed])
    case Error(IllegalArgument(m)) => Json(400, map["error" := m])
    case Error(IllegalState(m)) => Json(502, map["error" := m])
    case Error(_) => Json(500, map["error" := BookingFailed])
    case Empty => NoBody(200)
  }

  /**
   * What the caller of `POST /book` sees for each way the booking flow can
   * end: a seat rejection is a 400, a seat-service or inventory failure and a
   * failed save are 502, a call with no response is a 500, and success is a
   * 201 carrying exactly the new id and a PNR starting with "PNR-".
   */
  lemma BookFlightStatuses(request: Booking, seatReply: HttpReply, inventoryReply: HttpReply,
                           freshId: string, now: int, saveAcked: bool)
    requires |freshId| >= 6
    ensures var reply := BookFlightReply(BookFlightOutcome(request, seatReply, inventoryReply, freshId, now, saveAcked));
      && (seatReply.Success? && inventoryReply == Success(false) ==> reply == NoBody(200))
      && (seatReply.ClientError? ==> reply.status == 400 && StartsWith(reply.fields["error"], "Seat booking failed: "))
      && (seatReply.ServerError? ==> reply.status == 502 && StartsWith(reply.fields["error"], "Seat service error: "))
      && (seatReply.NoResponse? ==> reply == Json(500, map["error" := BookingFailed]))
      && (seatReply.Success? && (inventoryReply.ClientError? || inventoryReply.ServerError?) ==>
            reply.status == 502 && StartsWith(reply.fields["error"], "Inventory update failed: "))
      && (seatReply.Success? && inventoryReply == Success(true) && !saveAcked ==>
            reply == Json(502, map["error" := SaveFailed]))
      && (seatReply.Success? && inventoryReply == Success(true) && saveAcked ==>
            reply.status == 201 && reply.fields.Keys == {"id", "pnr"}
            && reply.fields["id"] == freshId && StartsWith(reply.fields["pnr"], "PNR-"))
  {
    var outcome := BookFlightOutcome(request, seatReply, inventoryReply, freshId, now, saveAcked);
    match seatReply {
      case ClientError(body) =>
        var m := "Seat booking failed: " + body.GetOr("Seat booking request invalid");
        assert outcome == Error(IllegalArgument(m));
        StartsWithExtended("Seat booking failed: ", "Seat booking failed: ", body.GetOr("Seat booking request invalid"));
      case ServerError(body) =>
        StartsWithExtended("Seat service error: ", "Seat service error: ", body.GetOr("Seat service error"));
      case NoResponse(_) =>
      case Success(_) =>
        match inventoryReply {
          case ClientError(body) =>
            StartsWithExtended("Inventory update failed: ", "Inventory update failed: ", body.GetOr("Inventory update failed"));
          case ServerError(body) =>
            StartsWithExtended("Inventory update failed: ", "Inventory update failed: ", body.GetOr("Inventory update failed"));
          case _ =>
        }
    }
  }

  /**
   * The reply of `DELETE /{id}`: 200 on completion; an error whose message
   * contains "invalid flight" gives 404, any other error 400 with its message.
   */
  function DeleteReply(outcome: Mono<()>): (reply: Reply)
    ensures !outcome.Error? ==> reply == Plain(200, Deleted)
    ensures outcome.Error? && Contains(outcome.error.Message(), "invalid flight") ==> reply == Plain(404, "invalid flight")
    ensures outcome.Error? && !Contains(outcome.error.Message(), "invalid flight") ==>
      reply == Plain(400, outcome.error.Message())
  {
    match outcome
    case Error(e) =>
      if Contains(e.Message(), "invalid flight") then Plain(404, "invalid flight")
      else Plain(400, e.Message())
    case _ => Plain(200, Deleted)
  }

  /** An error message lacking an 'f' or a 'v' cannot contain "invalid flight": the reply is a 400. */
  lemma RefusalIsBadRequest(m: string)
    requires 'f' !in m || 'v' !in m
    ensures DeleteReply(Error(Runtime(m))) == Plain(400, m)
  {
    assert "invalid flight"[8] == 'f' && "invalid flight"[2] == 'v';
    if 'f' !in m {
      MissingCharNotContained(m, "invalid flight", 'f');
    } else {
      MissingCharNotContained(m, "invalid flight", 'v');
    }
  }

  /** The unknown-id refusal of `deleteBooking` does not mention "invalid flight": a 400, not a 404. */
  lemma UnknownIdIsBadRequest()
    ensures DeleteReply(Error(Runtime(InvalidBookingId))) == Plain(400, InvalidBookingId)
  {
    assert 'f' !in InvalidBookingId;
    RefusalIsBadRequest(InvalidBookingId);
  }

  /** The 24-hour refusal of `deleteBooking` is a 400 carrying its message. */
  lemma TooLateIsBadRequest()
    ensures DeleteReply(Error(Runtime(TooLateToCancel))) == Plain(400, TooLateToCancel)
  {
    TooLateLacksV();
    RefusalIsBadRequest(TooLateToCancel);
  }

  lemma TooLateLacksV()
    ensures 'v' !in TooLateToCancel
  {
    TooLateSplits();
    LacksV("can't cancel");
    LacksV(" flight after");
    LacksV(" 24 hrs from");
    LacksV(" booking");
  }

  lemma TooLateSplits()
    ensures TooLateToCancel == "can't cancel" + " flight after" + " 24 hrs from" + " booking"
  {
  }

  /** No character of `s` is a 'v', character by character. */
  lemma LacksV(s: string)
    requires forall i | 0 <= i < |s| :: s[i] != 'v'
    ensures 'v' !in s
  {
  }

  /**
   * `POST /bookings` (createBooking) end to end: 201 carrying only the id
   * under which the confirmed entity is now stored, or 201 without a body
   * when the save completes empty.
   */
  method CreateEndpoint(service: BookingService, dto: BookingDto, freshId: string, now: int, saveAcked: bool)
    returns (reply: Reply)
    requires service.Valid()
    requires |freshId| >= 6 && freshId !in service.bookings
    modifies service
    ensures service.Valid()
    ensures saveAcked ==> (reply.Json? && reply.status == 201 && reply.fields.Keys == {"id"} &&
      service.bookings == old(service.bookings)[reply.fields["id"] := Confirm(ToEntity(dto), freshId, now)])
    ensures !saveAcked ==> reply == NoBody(201) && service.bookings == old(service.bookings)
  {
    var outcome := service.CreateBooking(ToEntity(dto), freshId, now, saveAcked);
    if outcome.Value? {
      reply := Json(201, map["id" := outcome.value.id.value]);
    } else {
      reply := NoBody(201);
    }
  }

  /**
   * `POST /book` end to end: an invalid request is answered 400 without
   * the service being called; a valid one is handed to `bookFlight` as an
   * entity and its outcome mapped to a reply.
   */
  method BookFlightEndpoint(service: BookingService, dto: BookingDto, seatReply: HttpReply,
                            inventoryReply: HttpReply, freshId: string, now: int, saveAcked: bool)
    returns (reply: Reply)
    requires service.Valid()
    requires |freshId| >= 6 && freshId !in service.bookings
    modifies service
    ensures service.Valid()
    ensures !ValidBookRequest(dto) ==> reply == Json(400, map["error" := MissingFields]) && unchanged(service)
    ensures ValidBookRequest(dto) ==>
      reply == BookFlightReply(BookFlightOutcome(ToEntity(dto), seatReply, inventoryReply, freshId, now, saveAcked))
  {
    if !ValidBookRequest(dto) {
      return Json(400, map["error" := MissingFields]);
    }
    var outcome := service.BookFlight(ToEntity(dto), seatReply, inventoryReply, freshId, now, saveAcked);
    reply := BookFlightReply(outcome);
  }

  /** `DELETE /{id}` end to end. */
  method DeleteEndpoint(service: BookingService, id: string, now: int) returns (reply: Reply)
    requires service.Valid()
    modifies service
    ensures service.Valid()
    ensures id !in old(service.bookings) ==> reply == Plain(400, InvalidBookingId)
    ensures id in old(service.bookings) ==>
      reply == if CancellationAllowed(old(service.bookings)[id].bookingDate.value, now)
               then Plain(200, Deleted) else Plain(400, TooLateToCancel)
  {
    var outcome := service.DeleteBooking(id, now);
    UnknownIdIsBadRequest();
    TooLateIsBadRequest();
    reply := DeleteReply(outcome);
  }
}
