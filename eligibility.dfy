/** The two gates of the booking service: `verifyTicket` (may this user book
    at all?) and `verifyRoom` (may this room take one more booking?).  Both
    are pure decisions over data fetched just before: the user's
    enrollment/ticket projection, and the room with its current occupancy. */
module Eligibility {
  import opened Wrappers
  import opened Errors

  datatype TicketStatus = Reserved | Paid

  datatype TicketType = TicketType(isRemote: bool, includesHotel: bool)

  datatype Ticket = Ticket(status: TicketStatus, ticketType: TicketType)

  datatype Enrollment = Enrollment(tickets: seq<Ticket>)

  /** The user row joined with its enrollments and their tickets (with the
      ticket type), as `findUserTicketAndPayment` loads it. */
  datatype UserProjection = UserProjection(enrollments: seq<Enrollment>)

  /** A hotel room; the timestamps are what `getBooking` strips. */
  datatype Room = Room(id: int, name: string, capacity: int, hotelId: int,
                       createdAt: int, updatedAt: int)

  /** The outcome of a gate: it passes, or it throws. */
  datatype Check = Pass | Fail(thrown: Thrown)

  const NO_HOTEL_TICKET := "User does not have ticket, face-to-face ticket, with accommodation and paid"
  const ROOM_FULL := "Room have reached his full capacity"

  /** Reference definition of eligibility: the first ticket of the first
      enrollment exists, is paid, includes the hotel and is not remote. */
  predicate HasHotelTicket(user: UserProjection)
  {
    && |user.enrollments| > 0
    && |user.enrollments[0].tickets| > 0
    && user.enrollments[0].tickets[0].status == Paid
    && user.enrollments[0].tickets[0].ticketType.includesHotel
    && !user.enrollments[0].tickets[0].ticketType.isRemote
  }

  /** verifyTicket: five conditions checked in order, each failing with the
      same Forbidden error.  A user with no user row (`user` is null) makes
      the first property access throw an exception without a category. */
  function VerifyTicket(user: Option<UserProjection>): (r: Check)
    ensures r.Pass? <==> user.Some? && HasHotelTicket(user.value)
    ensures user.None? ==> r == Fail(Uncategorised(NullUser))
    ensures user.Some? && r.Fail? ==> r.thrown == Categorised(Forbidden(NO_HOTEL_TICKET))
  {
    if user.None? then Fail(Uncategorised(NullUser))
    else
      var enrollments := user.value.enrollments;
      if |enrollments| == 0 then Fail(Categorised(Forbidden(NO_HOTEL_TICKET)))
      else if |enrollments[0].tickets| == 0 then Fail(Categorised(Forbidden(NO_HOTEL_TICKET)))
      else
        var ticket := enrollments[0].tickets[0];
        if ticket.status != Paid then Fail(Categorised(Forbidden(NO_HOTEL_TICKET)))
        else if ticket.ticketType.includesHotel == false then Fail(Categorised(Forbidden(NO_HOTEL_TICKET)))
        else if ticket.ticketType.isRemote == true then Fail(Categorised(Forbidden(NO_HOTEL_TICKET)))
        else Pass
  }

  /** verifyRoom: NotFound when the room does not exist; otherwise Forbidden
      exactly when the occupancy EQUALS the capacity.  Whatever it throws
      already carries a category. */
  function VerifyRoom(room: Option<Room>, count: nat): (r: Check)
    ensures room.None? ==> r == Fail(Categorised(NotFound))
    ensures room.Some? ==> (r.Fail? <==> count == room.value.capacity)
    ensures room.Some? && r.Fail? ==> r.thrown == Categorised(Forbidden(ROOM_FULL))
    ensures r.Fail? ==> r.thrown.Categorised?
  {
    if room.None? then Fail(Categorised(NotFound))
    else if count == room.value.capacity then Fail(Categorised(Forbidden(ROOM_FULL)))
    else Pass
  }

  /** Each of the five conditions, failing on its own, makes verifyTicket
      throw Forbidden. */
  lemma EachTicketConditionForbids(user: UserProjection)
    requires || |user.enrollments| == 0
             || |user.enrollments[0].tickets| == 0
             || user.enrollments[0].tickets[0].status != Paid
             || !user.enrollments[0].tickets[0].ticketType.includesHotel
             || user.enrollments[0].tickets[0].ticketType.isRemote
    ensures VerifyTicket(Some(user)) == Fail(Categorised(Forbidden(NO_HOTEL_TICKET)))
    ensures VerifyTicket(Some(user)).thrown.err.Http() == FORBIDDEN
  {
  }

  /** The strict equality lets an over-full room through: occupancy above
      capacity is admitted. */
  lemma OverfullRoomIsAdmitted(room: Room, count: nat)
    requires count > room.capacity
    ensures VerifyRoom(Some(room), count) == Pass
  {
  }
}
