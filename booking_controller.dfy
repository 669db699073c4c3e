/** The booking controller: turns the outcome of a service call into an HTTP
    answer (a status and a body).  Authentication has already put `userId` on
    the request. */
module BookingController {
  import opened Wrappers
  import opened Errors
  import opened BookingRepository
  import opened Eligibility
  import opened BookingService

  /** `req.body.roomId` as the guard `roomId === undefined || isNaN(roomId)`
      sees it: missing, a number, or something that is not one. */
  datatype RoomIdInput = Absent | Numeric(n: int) | NonNumeric

  /** What is sent back: nothing (`sendStatus`), the booking, the
      `{ bookingId }` object, or the `err` payload of an error. */
  datatype Body = NoBody | BookingBody(booking: BookingView) | BookingIdBody(bookingId: int) | ErrorBody(err: Err)

  datatype Response = Response(status: int, body: Body)

  const ROOM_ID_NOT_NUMBER := "RoomId must be a number"

  /** The error the controller throws itself for a roomId that is not a
      number. */
  const INVALID_ROOM_ID := BadRequest(InvalidData([ROOM_ID_NOT_NUMBER]))

  /** The guard in front of the service call: the request goes on exactly
      when roomId is neither undefined nor NaN. */
  predicate RoomIdAccepted(input: RoomIdInput): (accepted: bool)
    ensures accepted <==> !(input == Absent || input == NonNumeric)
  {
    input.Numeric?
  }

  /** getBookingByUser's answer to a settled `getBooking`: the booking with
      200, or a bare 404 whatever went wrong. */
  function AnswerGet<E>(outcome: Result<BookingView, E>): (resp: Response)
    ensures resp.status in {OK, NOT_FOUND}
    ensures resp.status == OK <==> outcome.Success?
    ensures resp.status == OK ==> resp.body == BookingBody(outcome.value)
    ensures resp.status == NOT_FOUND ==> resp.body == NoBody
  {
    match outcome
    case Success(booking) => Response(OK, BookingBody(booking))
    case Failure(_) => Response(NOT_FOUND, NoBody)
  }

  /** insertBooking's answer: an invalid roomId is refused with 400 before
      the service is asked; otherwise `{ bookingId }` with 200, or the
      error's own status with its payload. */
  function AnswerInsert(input: RoomIdInput, outcome: Result<int, Err>): (resp: Response)
    ensures resp.status in {OK, BAD_REQUEST, FORBIDDEN, NOT_FOUND}
    ensures !RoomIdAccepted(input) ==> resp == Response(BAD_REQUEST, ErrorBody(INVALID_ROOM_ID))
    ensures RoomIdAccepted(input) ==> (resp.status == OK <==> outcome.Success?)
    ensures RoomIdAccepted(input) && outcome.Success? ==> resp.body == BookingIdBody(outcome.value)
    ensures RoomIdAccepted(input) && outcome.Failure? ==>
              resp.status == outcome.error.Http() && resp.body == ErrorBody(outcome.error)
  {
    if !RoomIdAccepted(input) then Response(INVALID_ROOM_ID.Http(), ErrorBody(INVALID_ROOM_ID))
    else match outcome
      case Success(bookingId) => Response(OK, BookingIdBody(bookingId))
      case Failure(err) => Response(err.Http(), ErrorBody(err))
  }

  /** GET /booking: 200 with the user's booking exactly when the user has
      one, otherwise a bare 404. */
  method GetBookingByUser(service: Service, userId: int) returns (resp: Response)
    requires service.Valid()
    ensures resp.status == OK <==> exists j :: 0 <= j < |service.table.rows| && service.table.rows[j].userId == userId
    ensures resp.status == OK ==>
              var b := Find(service.table.rows, UserId(userId)).value;
              && b.userId == userId && b.roomId in service.rooms
              && resp.body == BookingBody(BookingView(b.id, Strip(service.rooms[b.roomId])))
    ensures resp.status != OK ==> resp == Response(NOT_FOUND, NoBody)
  {
    var outcome := service.GetBooking(userId);
    resp := AnswerGet(outcome);
  }

  /** POST /booking: a roomId that is not a number is refused with 400 and
      the table is left alone; otherwise the answer is 200 exactly when the
      service's checks pass, in which case one booking for this user and
      room was appended. */
  method InsertBooking(service: Service, userId: int, input: RoomIdInput) returns (resp: Response)
    requires service.Valid()
    modifies service.table
    ensures service.Valid()
    ensures !RoomIdAccepted(input) ==>
              && resp == Response(BAD_REQUEST, ErrorBody(INVALID_ROOM_ID))
              && service.table.rows == old(service.table.rows)
              && service.table.nextId == old(service.table.nextId)
    ensures RoomIdAccepted(input) ==>
              var decision := InsertDecision(old(service.table.rows), service.rooms, service.users, userId, input.n);
              && (resp.status == OK <==> decision.None?)
              && (decision.Some? ==>
                    && resp == Response(decision.value.Http(), ErrorBody(decision.value))
                    && service.table.rows == old(service.table.rows)
                    && service.table.nextId == old(service.table.nextId))
              && (decision.None? ==>
                    && resp.body == BookingIdBody(old(service.table.nextId))
                    && service.table.rows == old(service.table.rows) + [Booking(old(service.table.nextId), userId, input.n)]
                    && service.table.nextId == old(service.table.nextId) + 1)
  {
    if !RoomIdAccepted(input) {
      return AnswerInsert(input, Failure(INVALID_ROOM_ID));
    }
    var outcome := service.InsertBooking(userId, input.n);
    resp := AnswerInsert(input, outcome);
  }

  // ---------------------------------------------------------------------
  // The endpoint as the repository's code stands
  // ---------------------------------------------------------------------

  /** GET /booking over getBooking as written: a bare 404 to every user,
      including a user who has a booking and should receive it with 200. */
  function GetBookingByUserAsWritten(rows: seq<Booking>, userId: int): (resp: Response)
    ensures resp == Response(NOT_FOUND, NoBody)
  {
    AnswerGet(GetBookingAsWritten(rows, userId))
  }

  /** The data of the GET test: user 1 holds booking 1 in room 10, which
      exists.  The corrected endpoint (GetBookingByUser, whose contract
      answers 200 exactly when the user has a row) answers the booking; as
      written the answer is a bare 404. */
  lemma GetBookingScenario()
    ensures var rows := [Booking(1, 1, 10)];
            var rooms := map[10 := Room(10, "A", 3, 1, 0, 0)];
            && Find(rows, UserId(1)) == Some(Booking(1, 1, 10))
            && RoomsJoined(rows, rooms)
            && GetBookingByUserAsWritten(rows, 1) == Response(NOT_FOUND, NoBody)
  {
    var rows := [Booking(1, 1, 10)];
    assert FirstIndex(rows, UserId(1)) == Some(0);
  }
}
