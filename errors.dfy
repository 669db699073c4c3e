/** The `{ http, err }` objects the booking service throws, and the rule that
    turns an exception without an http category into a BadRequest. */
module Errors {

  /** The http-status constants the booking endpoints use. */
  const OK := 200
  const BAD_REQUEST := 400
  const FORBIDDEN := 403
  const NOT_FOUND := 404

  /** JavaScript exceptions that carry no `http` field. */
  datatype Fault =
    | NullUser       // `user.Enrollment` read on the null returned for an unknown user
    | RoomNotJoined  // `booking.Room.createdAt` read when the Room relation was not loaded
    | MissingUpdate  // `bookingRepository.updateBooking(...)` called although it is not exported

  /** What a BadRequest carries: the controller's own validation error, or the
      uncategorised exception the service wrapped. */
  datatype Cause = InvalidData(details: seq<string>) | Unexpected(fault: Fault)

  /** A categorised error: the `http` field is determined by the constructor,
      the `err` field is the payload. */
  datatype Err = NotFound | Forbidden(message: string) | BadRequest(cause: Cause)
  {
    function Http(): int
    {
      match this
      case NotFound => NOT_FOUND
      case Forbidden(_) => FORBIDDEN
      case BadRequest(_) => BAD_REQUEST
    }
  }

  /** Anything a step inside the service's try block may throw. */
  datatype Thrown = Categorised(err: Err) | Uncategorised(fault: Fault)

  /** The catch blocks of insertBooking and changeBooking: an error with an
      `http` field is rethrown unchanged, any other becomes a BadRequest that
      wraps it. */
  function Normalise(t: Thrown): (e: Err)
    ensures t.Categorised? ==> e == t.err
    ensures t.Uncategorised? ==> e == BadRequest(Unexpected(t.fault)) && e.Http() == BAD_REQUEST
  {
    match t
    case Categorised(err) => err
    case Uncategorised(fault) => BadRequest(Unexpected(fault))
  }
}
