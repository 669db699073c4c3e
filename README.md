# Booking rules of Drivent, in Dafny

Drivent is an event-management back end. Its booking subsystem lets an
authenticated participant book a hotel room, read their booking, and move it
to another room. This project models that subsystem and proves its business
rules. It covers:

- who may book: one booking per user, plus a paid, in-person ticket that
  includes the hotel;
- when a room is full: the number of bookings equals its capacity;
- the order in which the checks run;
- how each outcome becomes an HTTP status.

The database is replaced by an in-memory table of `Booking(id, userId, roomId)`
rows with an auto-increment counter. Rooms and the users' ticket projections
are read-only maps.

Modules, one file each:

- `Wrappers` (`wrappers.dfy`): `Option` and `Result`.
- `Errors` (`errors.dfy`):
  - the `{ http, err }` objects the service throws, as `Err = NotFound | Forbidden(message) | BadRequest(cause)` with `Err.Http()`;
  - exceptions without a category (`Thrown.Uncategorised`);
  - the catch-block rule `Normalise`.
- `BookingRepository` (`booking_repository.dfy`):
  - the queries as specification functions over `seq<Booking>`: `Find`, `Count`, `Moved` and `Removed`;
  - the class `BookingTable`, whose methods scan, append, update and delete in place and are proved against those functions.
- `Eligibility` (`eligibility.dfy`): the two gates `verifyTicket` and `verifyRoom`, as functions over the data fetched just before them.
- `BookingService` (`booking_service.dfy`):
  - the decision each operation takes before its single write (`InsertDecision` and `ChangeDecision`);
  - the invariants a successful write keeps: capacity, one booking per user, and every booked room exists;
  - the class `Service`, whose methods drive a `BookingTable`;
  - the two operations as the repository's code stands (see Findings).
- `BookingController` (`booking_controller.dfy`):
  - the `roomId` guard;
  - the mapping from a service outcome to a status and body, both as pure functions (`AnswerGet` and `AnswerInsert`) and as methods over a `Service`.

## Model

| member | source | states |
|---|---|---|
| `Errors.Normalise` | src/services/booking-service/index.ts:41-50 | An error that carries an http category is rethrown unchanged. Any other becomes BadRequest (400) wrapping the original. |
| `BookingRepository.FirstIndex` | src/repositories/booking-repository/index.ts:3-13 | The position `findFirst` stops at: a row the clause selects, with no earlier row selected; None exactly when no row is selected. |
| `BookingRepository.Find` | src/repositories/booking-repository/index.ts:3-13 | `findFirst` returns a row of the table that the clause selects. It returns nothing exactly when no row matches. |
| `BookingRepository.Count` | src/repositories/booking-repository/index.ts:24-30 | The number of rows booking a room. It is at most the table size, and 0 exactly when no row books that room. |
| `BookingRepository.CountAppend` | src/repositories/booking-repository/index.ts:15-30 | After an insert for room r, r's count grows by one. Every other room's count is unchanged. |
| `BookingRepository.CountReplace` | src/repositories/booking-repository/index.ts:24-30 | Replacing one row changes a room's count only by what the old row and the new row contribute. |
| `BookingRepository.FindAppend` | src/repositories/booking-repository/index.ts:3-22 | After an insert, `findFirst` returns the old first match if there was one. Otherwise it returns the new row when the clause selects it. |
| `BookingRepository.MovedChangesOnlyThatRoom` | src/services/booking-service/index.ts:73 | With unique ids, the missing `updateBooking` changes only the named row's roomId. Every row keeps its position, id and userId, and ids stay unique. |
| `BookingRepository.RemovedDropsOnlyThatRow` | src/repositories/booking-repository/index.ts:32-38 | With unique ids, delete removes exactly the row with that id. Every other row stays, the table shrinks by one exactly when the id existed, and ids stay unique. |
| `BookingRepository.BookingTable.constructor` | src/repositories/booking-repository/index.ts:40-46 | An empty table whose counter starts at 1. |
| `BookingRepository.BookingTable.Locate` | src/repositories/booking-repository/index.ts:3-13 | The scan behind `findFirst` returns `FirstIndex` of the current rows. |
| `BookingRepository.BookingTable.FindByUserId` | src/repositories/booking-repository/index.ts:3-7 | Returns a row whose userId is the argument, or nothing exactly when no row has that userId. |
| `BookingRepository.BookingTable.FindById` | src/repositories/booking-repository/index.ts:9-13 | Returns the row with that id, or nothing exactly when no row has it. |
| `BookingRepository.BookingTable.CountBookingForRoom` | src/repositories/booking-repository/index.ts:24-30 | The counting loop returns exactly `Count` of the rows for that room. |
| `BookingRepository.BookingTable.InsertBooking` | src/repositories/booking-repository/index.ts:15-22 | Appends exactly one row with the given userId and roomId and a fresh id (the counter, which advances by one). Nothing about existing bookings is checked, so one user can get several rows. |
| `BookingRepository.BookingTable.DeleteBooking` | src/repositories/booking-repository/index.ts:32-38 | Returns the row with that id (if any). The new table is `Removed`, and ids stay unique and below the counter. |
| `BookingRepository.BookingTable.UpdateBooking` | src/services/booking-service/index.ts:73 | The update the service calls. It returns the row with its new roomId (None exactly when the id is unknown), and the new table is `Moved`. |
| `Eligibility.VerifyTicket` | src/services/booking-service/index.ts:111-146 | Passes exactly when the user exists and has a paid, in-person, hotel-including first ticket in the first enrollment. An unknown user throws an uncategorised exception. Any other failure is Forbidden with the ticket message. |
| `Eligibility.VerifyRoom` | src/services/booking-service/index.ts:92-109 | A missing room is NotFound. An existing room fails exactly when the count equals its capacity, with Forbidden. Every failure is categorised. |
| `Eligibility.EachTicketConditionForbids` | src/services/booking-service/index.ts:113-145 | Any one of the five conditions failing gives Forbidden, status 403. |
| `Eligibility.OverfullRoomIsAdmitted` | src/services/booking-service/index.ts:103 | The strict equality admits a room whose occupancy is already above its capacity. |
| `BookingService.InsertDecision` | src/services/booking-service/index.ts:24-53 | Insert goes ahead exactly when: the user has no booking, the user has a hotel ticket, and the room exists and is not full. The refusal is BadRequest exactly when the user has no booking and no user row, the one uncategorised failure the catch block wraps. |
| `BookingService.ChangeDecision` | src/services/booking-service/index.ts:55-90 | Change goes ahead exactly when: the booking exists, it is the caller's, and the target room exists and is not full. An unknown id is NotFound; a foreign booking is Forbidden (not owner). For the caller's own booking, a missing target room is NotFound and a full one is Forbidden with the full-room message. The ticket is never consulted. |
| `BookingService.InsertRefusesSecondBooking` | src/services/booking-service/index.ts:25-30 | A user who already has a booking gets Forbidden, whatever their ticket and the room. |
| `BookingService.InsertChecksTicketBeforeRoom` | src/services/booking-service/index.ts:33-34 | An ineligible user gets Forbidden even when the room does not exist. |
| `BookingService.InsertWrapsUncategorisedError` | src/services/booking-service/index.ts:41-50 | An unknown user's TypeError in verifyTicket reaches the caller as BadRequest wrapping it. |
| `BookingService.InsertMissingRoomIsNotFound` | src/services/booking-service/index.ts:34 | An eligible user asking for a room that does not exist gets NotFound. |
| `BookingService.InsertFullRoomIsForbidden` | src/services/booking-service/index.ts:34 | An eligible user asking for a full room gets Forbidden with the full-room message. |
| `BookingService.ChangeRefusesForeignBooking` | src/services/booking-service/index.ts:63-68 | Moving someone else's booking is Forbidden, whatever the target room. |
| `BookingService.InsertKeepsCapacity` | src/services/booking-service/index.ts:34-36 | An insert the checks allow keeps every room within its capacity. |
| `BookingService.InsertKeepsOneBookingPerUser` | src/services/booking-service/index.ts:25-36 | An insert the checks allow keeps one booking per user, and keeps every booked room existing. |
| `BookingService.InsertThenFind` | src/services/booking-service/index.ts:24-40 | After an allowed insert, looking the user up finds the new booking, and its room exists. |
| `BookingService.ChangeKeepsCapacity` | src/services/booking-service/index.ts:71-73 | A change the checks allow keeps every room within its capacity. |
| `BookingService.ChangeKeepsOneBookingPerUser` | src/services/booking-service/index.ts:70-77 | A change the checks allow keeps one booking per user, and keeps every booked room existing. |
| `BookingService.Service.constructor` | src/services/booking-service/index.ts:149-153 | A service over a table whose booked rooms all exist. |
| `BookingService.Service.GetBooking` | src/services/booking-service/index.ts:7-22 | NotFound exactly when the user has no booking. Otherwise it returns the id of the user's first booking and that booking's room without createdAt/updatedAt. |
| `BookingService.Service.InsertBooking` | src/services/booking-service/index.ts:24-53 | Fails exactly when `InsertDecision` refuses, with that error and the table unchanged. Otherwise it appends one row for this user and room under a fresh id, returns that id, and keeps the table valid. |
| `BookingService.Service.ChangeBooking` | src/services/booking-service/index.ts:55-90 | Fails exactly when `ChangeDecision` refuses, with that error and the table unchanged. Otherwise it moves that booking to the new room (`Moved`), returns its id, and keeps the table valid. |
| `BookingService.GetBookingAsWritten` | src/services/booking-service/index.ts:7-22 | getBooking as the code stands never answers a booking: NotFound for a user without a row, and an uncategorised exception (no Room loaded) for every user who has one. |
| `BookingService.ChangeBookingAsWritten` | src/services/booking-service/index.ts:55-90 | changeBooking as the code stands never succeeds: every refusal is the one `ChangeDecision` gives, and every change the checks allow ends in BadRequest wrapping the missing-function exception. |
| `BookingService.ChangeScenario` | tests/integration/booking.test.ts:343-365 | Moving user 1's booking to an empty room is allowed and changes only its roomId. As written, the same request is BadRequest. |
| `BookingService.FullRoomScenario` | src/services/booking-service/index.ts:103-107 | An eligible user asking for a capacity-3 room holding three bookings of other users gets the full-room Forbidden. |
| `BookingService.FullRoomTestStopsAtDuplicateCheck` | tests/integration/booking.test.ts:255-272 | On the POST full-room test's data (the requester already holds the room's three bookings and has a reserved ticket) the 403 is the duplicate-booking one: the room check is never reached. |
| `BookingService.ChangeFullRoomScenario` | tests/integration/booking.test.ts:402-421 | Moving one's own booking into a capacity-3 room that holds three bookings gets the full-room Forbidden. |
| `BookingController.RoomIdAccepted` | src/controllers/booking-controller.ts:23 | The request reaches the service exactly when roomId is neither undefined nor non-numeric. |
| `BookingController.AnswerGet` | src/controllers/booking-controller.ts:10-16 | 200 with the booking exactly when the service succeeds. Otherwise a bare 404, whatever the failure. |
| `BookingController.AnswerInsert` | src/controllers/booking-controller.ts:22-33 | A missing or non-numeric roomId is 400 with the invalid-data error, whatever the service would say. Otherwise: 200 with `{ bookingId }` on success, or exactly the error's status with its payload. |
| `BookingController.GetBookingByUser` | src/controllers/booking-controller.ts:7-17 | 200 exactly when the user has a booking, with the user's first booking and its stripped room. Otherwise a bare 404. |
| `BookingController.InsertBooking` | src/controllers/booking-controller.ts:19-34 | A bad roomId is 400 with the rows and the counter untouched. Otherwise 200 exactly when `InsertDecision` allows, with the new id, one appended row and the counter advanced by one; any refusal is answered with its own status and payload, with the rows and the counter unchanged. |
| `BookingController.GetBookingByUserAsWritten` | src/controllers/booking-controller.ts:7-17 | Over getBooking as written, GET /booking answers a bare 404 to every user, including one who has a booking. |
| `BookingController.GetBookingScenario` | tests/integration/booking.test.ts:47-70 | On the GET test's data the user has a booking whose room exists, so the corrected endpoint answers 200; as written the answer is a bare 404. |

## Left out

- HTTP routing and authentication are not modelled. The 401 answers come from middleware that is not part of this model, and requests arrive with `userId` already set.
- The database and Prisma are replaced:
  - the Booking table by `BookingTable`;
  - `hotelRepository.findRoomById` by a read-only `map<int, Room>`;
  - `userRepository.findUserTicketAndPayment` by a read-only `map<int, UserProjection>` (enrollments, each with tickets carrying status and ticket type).
- Payments, timestamps other than the room's stripped pair, and the message text of `notFoundError`/`invalidDataError` are not modelled. The Forbidden messages are kept as constants.
- Concurrency is not modelled. Each request is one atomic step, so two requests racing between check and write are not covered.
- `BookingTable.DeleteBooking` and `BookingTable.UpdateBooking` answer None and leave the table unchanged when no row has the id, where Prisma's `delete` and `update` throw. The service reaches `UpdateBooking` only after `findById` found the row.
- JavaScript coercion in the `roomId` guard is not modelled: `isNaN(null)` is false, numeric strings pass, and non-integer numbers pass. The input is `Absent | Numeric(n) | NonNumeric` with integer room ids.
- The controller's `changeBooking` is imported by the router (src/routers/booking-router.ts:3,10) but is not defined in src/controllers/booking-controller.ts. Only the service side of changing a booking is modelled.
- `findFirst` (src/repositories/booking-repository/index.ts:4,10) has no `orderBy`, so which matching row the database returns is its own choice. The model takes it to be the earliest-inserted row (`FirstIndex`), and `Service.GetBooking` and `BookingController.GetBookingByUser` answer that row. This matters only when a user holds several rows, which the repository's insert allows.
- The POST full-room test (tests/integration/booking.test.ts:255-272) never exercises the room check, because its requester already holds a booking (`FullRoomTestStopsAtDuplicateCheck`). The full-room refusal on insert is stated by `InsertFullRoomIsForbidden` and `FullRoomScenario` instead.
- Exceptions thrown by the store itself (a lost connection, say) are not modelled, and neither is the controller's reaction to an error object without `http`.

## Findings

| source | as written | input that shows it | evidently intended | confidence | as-written member | corrected member |
|---|---|---|---|---|---|---|
| src/services/booking-service/index.ts:73 | `changeBooking` calls `bookingRepository.updateBooking`, which the exported repository object (src/repositories/booking-repository/index.ts:40-46) does not define. The TypeError has no `http`, so the catch block turns every allowed change into BadRequest. | User 1 owns booking 1 in room 10 and moves it to the empty room 11 (the PUT test at tests/integration/booking.test.ts:343-365 expects 200 and roomId 11). | Update that row's roomId and answer `{ bookingId }`. | not executed | `BookingService.ChangeBookingAsWritten`, `BookingService.ChangeScenario` | `BookingService.Service.ChangeBooking`, `BookingRepository.BookingTable.UpdateBooking`, `BookingRepository.MovedChangesOnlyThatRoom`, `BookingService.ChangeKeepsCapacity` |
| src/services/booking-service/index.ts:15-16 | `findByUserId` (src/repositories/booking-repository/index.ts:3-7) does not include the Room relation, so `booking.Room.createdAt` throws for every user who has a booking. The controller turns that into 404. | Any user with one booking calling GET /booking (the test at tests/integration/booking.test.ts:47-70 expects 200 with the booking's Room). | Load the room with the booking, and answer its id and the room without timestamps. | not executed | `BookingService.GetBookingAsWritten`, `BookingController.GetBookingByUserAsWritten`, `BookingController.GetBookingScenario` | `BookingService.Service.GetBooking`, `BookingController.GetBookingByUser` |
