/** The booking service: `getBooking`, `insertBooking` and `changeBooking`,
    each a fetch-validate-mutate sequence over the booking table, the rooms
    of the hotel repository and the users' ticket projections. */
module BookingService {
  import opened Wrappers
  import opened Errors
  import opened BookingRepository
  import opened Eligibility

  const ALREADY_BOOKED := "User already have a booking"
  const NOT_OWNER := "User does not have a booking"

  /** The room as `getBooking` returns it: createdAt and updatedAt removed. */
  datatype RoomView = RoomView(id: int, name: string, capacity: int, hotelId: int)

  /** `{ id, Room }`, the body of a successful `getBooking`. */
  datatype BookingView = BookingView(id: int, room: RoomView)

  function Strip(room: Room): RoomView
  {
    RoomView(room.id, room.name, room.capacity, room.hotelId)
  }

  /** `findUserTicketAndPayment(userId)`: null when there is no such user. */
  function FindUser(users: map<int, UserProjection>, userId: int): Option<UserProjection>
  {
    if userId in users then Some(users[userId]) else None
  }

  /** `findRoomById(roomId)`: null when there is no such room. */
  function FindRoom(rooms: map<int, Room>, roomId: int): Option<Room>
  {
    if roomId in rooms then Some(rooms[roomId]) else None
  }

  // ---------------------------------------------------------------------
  // Properties of the store the service relies on or keeps
  // ---------------------------------------------------------------------

  /** Every booking's room exists: the foreign key, and what lets the
      booking be joined with its Room. */
  ghost predicate RoomsJoined(rows: seq<Booking>, rooms: map<int, Room>)
  {
    forall i :: 0 <= i < |rows| ==> rows[i].roomId in rooms
  }

  /** No room holds more bookings than its capacity. */
  ghost predicate WithinCapacity(rows: seq<Booking>, rooms: map<int, Room>)
  {
    forall roomId :: roomId in rooms ==> Count(rows, roomId) <= rooms[roomId].capacity
  }

  /** No user holds two bookings. */
  ghost predicate OneBookingPerUser(rows: seq<Booking>)
  {
    forall i, j :: 0 <= i < j < |rows| ==> rows[i].userId != rows[j].userId
  }

  // ---------------------------------------------------------------------
  // The decisions taken before the single write
  // ---------------------------------------------------------------------

  /** What `insertBooking` decides from the state before the write: the error
      it throws, or None when it goes on to insert.  The checks run in order:
      existing booking, ticket (wrapped by the catch block), room. */
  function InsertDecision(rows: seq<Booking>, rooms: map<int, Room>,
                          users: map<int, UserProjection>, userId: int, roomId: int): (r: Option<Err>)
    ensures r.None? <==>
              && (forall j :: 0 <= j < |rows| ==> rows[j].userId != userId)
              && userId in users && HasHotelTicket(users[userId])
              && roomId in rooms && Count(rows, roomId) != rooms[roomId].capacity
    ensures r.Some? && r.value.BadRequest? <==>
              (forall j :: 0 <= j < |rows| ==> rows[j].userId != userId) && userId !in users
  {
    if Find(rows, UserId(userId)).Some? then Some(Forbidden(ALREADY_BOOKED))
    else match VerifyTicket(FindUser(users, userId))
      case Fail(thrown) => Some(Normalise(thrown))
      case Pass =>
        match VerifyRoom(FindRoom(rooms, roomId), Count(rows, roomId))
        case Fail(thrown) => Some(Normalise(thrown))
        case Pass => None
  }

  /** What `changeBooking` decides from the state before the write: the error
      it throws, or None when it goes on to update.  The ticket is never
      consulted. */
  function ChangeDecision(rows: seq<Booking>, rooms: map<int, Room>,
                          userId: int, roomId: int, bookingId: int): (r: Option<Err>)
    ensures r.None? <==>
              && Find(rows, Id(bookingId)).Some?
              && Find(rows, Id(bookingId)).value.userId == userId
              && roomId in rooms && Count(rows, roomId) != rooms[roomId].capacity
    ensures Find(rows, Id(bookingId)).None? ==> r == Some(NotFound)
    ensures Find(rows, Id(bookingId)).Some? && Find(rows, Id(bookingId)).value.userId != userId ==>
              r == Some(Forbidden(NOT_OWNER))
    ensures Find(rows, Id(bookingId)).Some? && Find(rows, Id(bookingId)).value.userId == userId ==>
              && (roomId !in rooms ==> r == Some(NotFound))
              && (roomId in rooms && Count(rows, roomId) == rooms[roomId].capacity ==>
                    r == Some(Forbidden(ROOM_FULL)))
  {
    match Find(rows, Id(bookingId))
    case None => Some(NotFound)
    case Some(booking) =>
      if booking.userId != userId then Some(Forbidden(NOT_OWNER))
      else match VerifyRoom(FindRoom(rooms, roomId), Count(rows, roomId))
        case Fail(thrown) => Some(Normalise(thrown))
        case Pass => None
  }

  // ---------------------------------------------------------------------
  // The order of the checks
  // ---------------------------------------------------------------------

  /** A user who already has a booking is refused before any ticket or room
      check, whatever the ticket and the room. */
  lemma InsertRefusesSecondBooking(rows: seq<Booking>, rooms: map<int, Room>,
                                   users: map<int, UserProjection>, userId: int, roomId: int)
    requires exists j :: 0 <= j < |rows| && rows[j].userId == userId
    ensures InsertDecision(rows, rooms, users, userId, roomId) == Some(Forbidden(ALREADY_BOOKED))
  {
  }

  /** The ticket is checked before the room: an ineligible user asking for a
      room that does not exist is refused with Forbidden, not NotFound. */
  lemma InsertChecksTicketBeforeRoom(rows: seq<Booking>, rooms: map<int, Room>,
                                     users: map<int, UserProjection>, userId: int, roomId: int)
    requires forall j :: 0 <= j < |rows| ==> rows[j].userId != userId
    requires userId in users && !HasHotelTicket(users[userId])
    ensures InsertDecision(rows, rooms, users, userId, roomId) == Some(Forbidden(NO_HOTEL_TICKET))
  {
  }

  /** A caller with no user row makes verifyTicket throw an uncategorised
      exception, which the catch block turns into BadRequest. */
  lemma InsertWrapsUncategorisedError(rows: seq<Booking>, rooms: map<int, Room>,
                                      users: map<int, UserProjection>, userId: int, roomId: int)
    requires forall j :: 0 <= j < |rows| ==> rows[j].userId != userId
    requires userId !in users
    ensures InsertDecision(rows, rooms, users, userId, roomId) == Some(BadRequest(Unexpected(NullUser)))
  {
  }

  /** Once the user may book, a room that does not exist gives NotFound
      (categorised, so it passes the catch block unchanged). */
  lemma InsertMissingRoomIsNotFound(rows: seq<Booking>, rooms: map<int, Room>,
                                    users: map<int, UserProjection>, userId: int, roomId: int)
    requires forall j :: 0 <= j < |rows| ==> rows[j].userId != userId
    requires userId in users && HasHotelTicket(users[userId])
    requires roomId !in rooms
    ensures InsertDecision(rows, rooms, users, userId, roomId) == Some(NotFound)
  {
  }

  /** Once the user may book, a room whose occupancy equals its capacity
      gives Forbidden. */
  lemma InsertFullRoomIsForbidden(rows: seq<Booking>, rooms: map<int, Room>,
                                  users: map<int, UserProjection>, userId: int, roomId: int)
    requires forall j :: 0 <= j < |rows| ==> rows[j].userId != userId
    requires userId in users && HasHotelTicket(users[userId])
    requires roomId in rooms && Count(rows, roomId) == rooms[roomId].capacity
    ensures InsertDecision(rows, rooms, users, userId, roomId) == Some(Forbidden(ROOM_FULL))
  {
  }

  /** A booking that is not the caller's is refused before the room is
      looked at, whatever the target room. */
  lemma ChangeRefusesForeignBooking(rows: seq<Booking>, rooms: map<int, Room>,
                                    userId: int, roomId: int, bookingId: int)
    requires exists j :: 0 <= j < |rows| && rows[j].id == bookingId
    requires UniqueIds(rows)
    requires forall j :: 0 <= j < |rows| && rows[j].id == bookingId ==> rows[j].userId != userId
    ensures ChangeDecision(rows, rooms, userId, roomId, bookingId) == Some(Forbidden(NOT_OWNER))
  {
  }

  // ---------------------------------------------------------------------
  // What a successful write keeps
  // ---------------------------------------------------------------------

  /** A successful insert keeps every room within its capacity: the gate
      admits only a room whose occupancy is not yet equal to its capacity. */
  lemma InsertKeepsCapacity(rows: seq<Booking>, rooms: map<int, Room>,
                            users: map<int, UserProjection>, userId: int, roomId: int, id: int)
    requires WithinCapacity(rows, rooms)
    requires InsertDecision(rows, rooms, users, userId, roomId).None?
    ensures WithinCapacity(rows + [Booking(id, userId, roomId)], rooms)
  {
    forall r | r in rooms
      ensures Count(rows + [Booking(id, userId, roomId)], r) <= rooms[r].capacity
    {
      CountAppend(rows, Booking(id, userId, roomId), r);
    }
  }

  /** A successful insert keeps one booking per user and the room join. */
  lemma InsertKeepsOneBookingPerUser(rows: seq<Booking>, rooms: map<int, Room>,
                                     users: map<int, UserProjection>, userId: int, roomId: int, id: int)
    requires InsertDecision(rows, rooms, users, userId, roomId).None?
    ensures OneBookingPerUser(rows) ==> OneBookingPerUser(rows + [Booking(id, userId, roomId)])
    ensures RoomsJoined(rows, rooms) ==> RoomsJoined(rows + [Booking(id, userId, roomId)], rooms)
  {
  }

  /** After a successful insert, looking the user up finds the new booking,
      whose room exists. */
  lemma {:induction false} InsertThenFind(rows: seq<Booking>, rooms: map<int, Room>,
                                          users: map<int, UserProjection>, userId: int, roomId: int, id: int)
    requires InsertDecision(rows, rooms, users, userId, roomId).None?
    ensures Find(rows + [Booking(id, userId, roomId)], UserId(userId)) == Some(Booking(id, userId, roomId))
    ensures roomId in rooms
  {
    FindAppend(rows, Booking(id, userId, roomId), UserId(userId));
  }

  /** A successful change keeps every room within its capacity: the booking
      leaves its old room and enters a room that was not full. */
  lemma ChangeKeepsCapacity(rows: seq<Booking>, rooms: map<int, Room>,
                            userId: int, roomId: int, bookingId: int)
    requires WithinCapacity(rows, rooms)
    requires ChangeDecision(rows, rooms, userId, roomId, bookingId).None?
    ensures WithinCapacity(Moved(rows, bookingId, roomId), rooms)
  {
    var i := FirstIndex(rows, Id(bookingId)).value;
    var moved := rows[i := rows[i].(roomId := roomId)];
    assert Moved(rows, bookingId, roomId) == moved;
    assert Count(rows, roomId) < rooms[roomId].capacity;
    forall r | r in rooms
      ensures Count(moved, r) <= rooms[r].capacity
    {
      CountReplace(rows, i, rows[i].(roomId := roomId), r);
    }
  }

  /** A successful change keeps one booking per user (no userId changes) and
      the room join (the new room exists). */
  lemma ChangeKeepsOneBookingPerUser(rows: seq<Booking>, rooms: map<int, Room>,
                                     userId: int, roomId: int, bookingId: int)
    requires ChangeDecision(rows, rooms, userId, roomId, bookingId).None?
    ensures OneBookingPerUser(rows) ==> OneBookingPerUser(Moved(rows, bookingId, roomId))
    ensures RoomsJoined(rows, rooms) ==> RoomsJoined(Moved(rows, bookingId, roomId), rooms)
  {
  }

  // ---------------------------------------------------------------------
  // The service
  // ---------------------------------------------------------------------

  /** The booking service over an injected booking table and read-only
      snapshots of the rooms and of the users' ticket projections. */
  class Service {
    const table: BookingTable
    const rooms: map<int, Room>
    const users: map<int, UserProjection>

    ghost predicate Valid()
      reads this, table
    {
      table.Valid() && RoomsJoined(table.rows, rooms)
    }

    constructor (table: BookingTable, rooms: map<int, Room>, users: map<int, UserProjection>)
      requires table.Valid() && RoomsJoined(table.rows, rooms)
      ensures Valid()
      ensures this.table == table && this.rooms == rooms && this.users == users
    {
      this.table := table;
      this.rooms := rooms;
      this.users := users;
    }

    /** getBooking: NotFound exactly when the user has no booking; otherwise
        the id of the user's first booking and its room without timestamps.
        The room is joined through `rooms`, which Valid() guarantees holds
        every booked room. */
    method GetBooking(userId: int) returns (r: Result<BookingView, Err>)
      requires Valid()
      ensures r.Failure? <==> forall j :: 0 <= j < |table.rows| ==> table.rows[j].userId != userId
      ensures r.Failure? ==> r.error == NotFound
      ensures r.Success? ==>
                var b := Find(table.rows, UserId(userId)).value;
                && b in table.rows && b.userId == userId && b.roomId in rooms
                && r.value == BookingView(b.id, Strip(rooms[b.roomId]))
    {
      var booking := table.FindByUserId(userId);
      if booking.None? {
        return Failure(NotFound);
      }
      var b := booking.value;
      r := Success(BookingView(b.id, Strip(rooms[b.roomId])));
    }

    /** insertBooking: refuses as InsertDecision says, leaving the table
        unchanged; otherwise appends one booking for this user and room under
        a fresh id and answers that id. */
    method InsertBooking(userId: int, roomId: int) returns (r: Result<int, Err>)
      requires Valid()
      modifies table
      ensures Valid()
      ensures r.Failure? <==> InsertDecision(old(table.rows), rooms, users, userId, roomId).Some?
      ensures r.Failure? ==>
                && Some(r.error) == InsertDecision(old(table.rows), rooms, users, userId, roomId)
                && table.rows == old(table.rows) && table.nextId == old(table.nextId)
      ensures r.Success? ==>
                && r.value == old(table.nextId)
                && table.rows == old(table.rows) + [Booking(r.value, userId, roomId)]
                && (forall j :: 0 <= j < |old(table.rows)| ==> old(table.rows)[j].id != r.value)
                && table.nextId == old(table.nextId) + 1
    {
      var existing := table.FindByUserId(userId);
      if existing.Some? {
        return Failure(Forbidden(ALREADY_BOOKED));
      }
      var ticket := VerifyTicket(FindUser(users, userId));
      if ticket.Fail? {
        return Failure(Normalise(ticket.thrown));
      }
      var count := table.CountBookingForRoom(roomId);
      var room := VerifyRoom(FindRoom(rooms, roomId), count);
      if room.Fail? {
        return Failure(Normalise(room.thrown));
      }
      var inserted := table.InsertBooking(userId, roomId);
      InsertKeepsOneBookingPerUser(old(table.rows), rooms, users, userId, roomId, inserted.id);
      r := Success(inserted.id);
    }

    /** changeBooking: refuses as ChangeDecision says, leaving the table
        unchanged; otherwise moves that booking to the new room and answers
        its id. */
    method ChangeBooking(userId: int, roomId: int, bookingId: int) returns (r: Result<int, Err>)
      requires Valid()
      modifies table
      ensures Valid()
      ensures r.Failure? <==> ChangeDecision(old(table.rows), rooms, userId, roomId, bookingId).Some?
      ensures r.Failure? ==>
                && Some(r.error) == ChangeDecision(old(table.rows), rooms, userId, roomId, bookingId)
                && table.rows == old(table.rows)
      ensures r.Success? ==>
                && r.value == bookingId
                && table.rows == Moved(old(table.rows), bookingId, roomId)
      ensures table.nextId == old(table.nextId)
    {
      var booking := table.FindById(bookingId);
      if booking.None? {
        return Failure(NotFound);
      }
      if booking.value.userId != userId {
        return Failure(Forbidden(NOT_OWNER));
      }
      var count := table.CountBookingForRoom(roomId);
      var room := VerifyRoom(FindRoom(rooms, roomId), count);
      if room.Fail? {
        return Failure(Normalise(room.thrown));
      }
      var changed := table.UpdateBooking(bookingId, roomId);
      ChangeKeepsOneBookingPerUser(old(table.rows), rooms, userId, roomId, bookingId);
      r := Success(changed.value.id);
    }
  }

  // ---------------------------------------------------------------------
  // The operations as the repository's code stands
  // ---------------------------------------------------------------------

  /** getBooking as written: `findByUserId` loads no Room, so for a user who
      has a booking `booking.Room.createdAt` throws before anything is
      returned.  It never answers a booking. */
  function GetBookingAsWritten(rows: seq<Booking>, userId: int): (r: Result<BookingView, Thrown>)
    ensures r.Failure?
    ensures (forall j :: 0 <= j < |rows| ==> rows[j].userId != userId) ==> r.error == Categorised(NotFound)
    ensures (exists j :: 0 <= j < |rows| && rows[j].userId == userId) ==> r.error == Uncategorised(RoomNotJoined)
  {
    match Find(rows, UserId(userId))
    case None => Failure(Categorised(NotFound))
    case Some(_) => Failure(Uncategorised(RoomNotJoined))
  }

  /** changeBooking as written: once the checks pass it calls
      `bookingRepository.updateBooking`, which the repository does not
      export; the exception has no category and the catch block turns it into
      BadRequest.  It never succeeds: every refusal is the corrected one, and
      every change the checks allow ends in BadRequest. */
  function ChangeBookingAsWritten(rows: seq<Booking>, rooms: map<int, Room>,
                                  userId: int, roomId: int, bookingId: int): (r: Result<int, Err>)
    ensures r.Failure?
    ensures ChangeDecision(rows, rooms, userId, roomId, bookingId).Some? ==>
              Some(r.error) == ChangeDecision(rows, rooms, userId, roomId, bookingId)
    ensures ChangeDecision(rows, rooms, userId, roomId, bookingId).None? ==>
              r.error == BadRequest(Unexpected(MissingUpdate))
  {
    match ChangeDecision(rows, rooms, userId, roomId, bookingId)
    case Some(e) => Failure(e)
    case None => Failure(Normalise(Uncategorised(MissingUpdate)))
  }

  /** The integration test that moves a booking: user 1 owns booking 1 in
      room 10 and moves it to the empty room 11.  The corrected service
      allows it and moves the row; as written the answer is BadRequest. */
  lemma ChangeScenario()
    ensures var rows := [Booking(1, 1, 10)];
            var rooms := map[10 := Room(10, "A", 3, 1, 0, 0), 11 := Room(11, "B", 3, 1, 0, 0)];
            && ChangeDecision(rows, rooms, 1, 11, 1).None?
            && Moved(rows, 1, 11) == [Booking(1, 1, 11)]
            && ChangeBookingAsWritten(rows, rooms, 1, 11, 1) == Failure(BadRequest(Unexpected(MissingUpdate)))
  {
    var rows := [Booking(1, 1, 10)];
    assert FirstIndex(rows, Id(1)) == Some(0);
    assert Count(rows, 11) == 0 by {
      assert Count(rows[1..], 11) == 0;
    }
  }

  /** A room of capacity 3 that already holds three bookings of other users
      refuses a fourth, eligible user. */
  lemma FullRoomScenario()
    ensures var rows := [Booking(1, 1, 10), Booking(2, 2, 10), Booking(3, 3, 10)];
            var rooms := map[10 := Room(10, "A", 3, 1, 0, 0)];
            var users := map[4 := UserProjection([Enrollment([Ticket(Paid, TicketType(false, true))])])];
            InsertDecision(rows, rooms, users, 4, 10) == Some(Forbidden(ROOM_FULL))
  {
    var rows := [Booking(1, 1, 10), Booking(2, 2, 10), Booking(3, 3, 10)];
    assert rows[1..][1..][1..] == [];
    assert Count(rows, 10) == 3;
  }

  /** The data of the POST full-room test: the requesting user already holds
      the three bookings of the room and has a reserved ticket.  The request
      is refused by the duplicate-booking check, before the ticket or the
      room is looked at, so the 403 it observes is not the full-room one. */
  lemma FullRoomTestStopsAtDuplicateCheck()
    ensures var rows := [Booking(1, 1, 10), Booking(2, 1, 10), Booking(3, 1, 10)];
            var rooms := map[10 := Room(10, "A", 3, 1, 0, 0)];
            var users := map[1 := UserProjection([Enrollment([Ticket(Reserved, TicketType(true, true))])])];
            InsertDecision(rows, rooms, users, 1, 10) == Some(Forbidden(ALREADY_BOOKED))
  {
    var rows := [Booking(1, 1, 10), Booking(2, 1, 10), Booking(3, 1, 10)];
    assert FirstIndex(rows, UserId(1)) == Some(0);
  }

  /** The data of the PUT full-room test: user 1 owns booking 1 in room 10 and
      asks to move it to room 11, which already holds three bookings (a
      capacity of 3 is assumed for the rooms the test creates).  The room
      check refuses it with the full-room Forbidden. */
  lemma ChangeFullRoomScenario()
    ensures var rows := [Booking(1, 1, 10), Booking(2, 1, 11), Booking(3, 1, 11), Booking(4, 1, 11)];
            var rooms := map[10 := Room(10, "A", 3, 1, 0, 0), 11 := Room(11, "B", 3, 1, 0, 0)];
            ChangeDecision(rows, rooms, 1, 11, 1) == Some(Forbidden(ROOM_FULL))
  {
    var rows := [Booking(1, 1, 10), Booking(2, 1, 11), Booking(3, 1, 11), Booking(4, 1, 11)];
    assert FirstIndex(rows, Id(1)) == Some(0);
    assert rows[1..][1..][1..][1..] == [];
    assert Count(rows, 11) == 3;
  }
}
