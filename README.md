# drivent bookings, payments and tickets: a Dafny model

drivent is an event back end. A user enrolls, reserves a ticket of some ticket
type, pays for it and, when the paid ticket is for an in-person event with a
hotel, books a room in a hotel. This project models the business rules behind
three of its REST resources:

- **tickets** — list the ticket types, read the user's ticket, reserve one;
- **payments** — read a ticket's payment, pay for a ticket;
- **booking** — read the user's booking, book a room, move a booking to another room.

The model keeps the layering of the source. Each layer is one module:

- The database is a class, `Store.Database`. It holds one map per table (enrollments, ticket types, tickets, rooms, bookings, payments), keyed by row id, plus the next id of each table the core inserts into. `Valid()` says that rows are stored under their own ids, foreign keys hold and ids lie below their counters. Every state-changing operation preserves it.
- Repositories (`BookingRepository`, `RoomRepository`, `TicketRepository`, `TicketsRepository`, `PaymentsRepository`, and the enrollment lookup in `EnrollmentRepository`) are the Prisma queries. Lookups are functions over a snapshot of the tables (`Model.Tables`). `create` and `update` are methods that change the database's maps in place.
  - `findFirst` picks the matching row with the lowest id (`Lookup.FindFirst`).
  - `findMany` lists rows in ascending id order (`Lookup.SortedIds`).
  - A foreign key that names no row, or an update of a missing row, is the database error `DatabaseError`.
- Services (`BookingsService`, `PaymentsService`, `TicketsService`) return `Ok(value)` or `Err(kind)`. The error kinds are the named errors the source throws, plus `DatabaseError`.
- Controllers (`BookingsController`, `PaymentsController`, `TicketsController`) map a service outcome to a response: a status with a body, a bare status, or no response at all (`Http.Response`).

Main results proved:

- **Hotel eligibility.** `BookingsService.EligibilitySound` proves that a user who passes the check holds a paid, in-person, hotel-inclusive ticket on one of their enrollments. `BookingsService.EligibilityExact` proves the converse as well, when users have one enrollment each and enrollments one ticket each.
- **Capacity.** Booking and moving a booking never put more bookings in a room than its capacity (`WithinCapacity` is preserved by `BookingsService.PostBooking` and `BookingsService.UpdateBooking`).
- **Error ordering.** The order in which each service raises its errors is stated in full, including which operations leave the database untouched.
- **Tickets only move towards PAID.** Reserving and paying never un-pay a ticket (`PaidStaysPaid`).
- **Every handler's status mapping** is stated, including the two tickets handlers that leave some errors unanswered.

`Scenarios` plays whole flows through the services' contracts: three guests filling a room of capacity 2, a ticket paid twice, and a ticket reserved with an unknown type.

## Model

| member | source | states |
|---|---|---|
| Lookup.FindFirst | src/repositories/room-repository/index.ts:4-9 | Prisma's `findFirst`: a result is a matching row and no row with a lower id matches; no result exactly when no row matches |
| Lookup.SortedIds | src/repositories/ticket-repository/index.ts:4-6 | Prisma's `findMany` order: every id of the table exactly once, strictly ascending |
| EnrollmentRepository.FindEnrollmentByUserId | src/services/bookings-service/index.ts:56 | a found enrollment is a stored row of that user; none exactly when the user has no enrollment |
| RoomRepository.FindRoomById | src/repositories/room-repository/index.ts:3-10 | found exactly when the room exists; the included bookings are exactly the bookings of that room, and their number is what the model takes as the room's occupancy (the source's `_count.Booking`; see Left out) |
| RoomRepository.OccupancyAfterInsert | src/services/bookings-service/index.ts:26-30 | inserting a booking under a fresh id adds one to the occupancy of its room and leaves every other room's occupancy unchanged |
| RoomRepository.OccupancyAfterMove | src/services/bookings-service/index.ts:48-52 | moving a booking to another room adds one to the target's occupancy and takes one from the room it left; moving it to its own room changes nothing |
| BookingRepository.FindBookingByUserId | src/repositories/booking-repository/index.ts:4-11 | a found booking is a stored row of that user, with its own room; none exactly when the user has no booking |
| BookingRepository.FindBookingById | src/repositories/booking-repository/index.ts:13-17 | found exactly when the id is stored, and then the stored row |
| BookingRepository.CreateBooking | src/repositories/booking-repository/index.ts:19-26 | a new row under the next id with that user and room, all other rows kept; a room that does not exist is a database error and writes nothing |
| BookingRepository.UpdateBooking | src/repositories/booking-repository/index.ts:28-33 | the row keeps its id and user and takes the new room, all other rows kept; a missing row or room is a database error and writes nothing |
| TicketRepository.FindTicketTypes | src/repositories/ticket-repository/index.ts:4-6 | every ticket type exactly once, in ascending id order, and nothing else |
| TicketRepository.FindTicketById | src/repositories/ticket-repository/index.ts:8-16 | found exactly when the id is stored, with the ticket's own enrollment and ticket type |
| TicketRepository.FindTicketByEnrollmentId | src/repositories/ticket-repository/index.ts:18-25 | a found ticket is a stored ticket of that enrollment with its own type; none exactly when the enrollment has no ticket |
| TicketRepository.CreateTicket | src/repositories/ticket-repository/index.ts:27-34 | a new ticket under the next id with the given columns and its type, all other tickets kept; an unknown type or enrollment is a database error and writes nothing |
| TicketRepository.Patched | src/repositories/ticket-repository/index.ts:36-40 | a partial update overwrites exactly the supplied columns and never the id |
| TicketRepository.UpdateTicket | src/repositories/ticket-repository/index.ts:36-41 | the ticket becomes its patched version and no other ticket changes; a missing ticket, or a patch naming a missing type or enrollment, is a database error and writes nothing |
| TicketsRepository.FindTicketTypes | src/repositories/tickets-repository/index.ts:4-6 | every ticket type exactly once, in ascending id order |
| TicketsRepository.FindTicketByEnrollmentId | src/repositories/tickets-repository/index.ts:8-15 | a stored ticket of that enrollment with its own type; none exactly when the enrollment has no ticket |
| TicketsRepository.CreateTicket | src/repositories/tickets-repository/index.ts:17-24 | a new ticket under the next id, others kept; an unknown type or enrollment is a database error and writes nothing |
| PaymentsRepository.FindPaymentByTicketId | src/repositories/payments-repository/index.ts:4-8 | a found payment is a stored payment of that ticket; none exactly when the ticket has no payment |
| PaymentsRepository.Create | src/repositories/payments-repository/index.ts:10-14 | a new payment under the next id whatever payments the ticket already has, others kept; an unknown ticket is a database error and writes nothing |
| BookingsService.HasValidEnrollment | src/services/bookings-service/index.ts:55-73 | every failure of the eligibility chain is AccessDenied |
| BookingsService.EligibilitySound | src/services/bookings-service/index.ts:55-73 | passing the check means the user holds a PAID ticket of an in-person, hotel-inclusive type on one of their enrollments |
| BookingsService.EligibilityExact | src/services/bookings-service/index.ts:55-73 | with one enrollment per user and one ticket per enrollment, the check passes exactly when the user holds such a ticket |
| BookingsService.InsertKeepsCapacity | src/services/bookings-service/index.ts:26-30 | adding a booking to a room that is not full keeps every room within its capacity |
| BookingsService.MoveKeepsCapacity | src/services/bookings-service/index.ts:48-52 | moving a booking to a room that is not full keeps every room within its capacity |
| BookingsService.GetBookingByUser | src/services/bookings-service/index.ts:9-16 | AccessDenied for an ineligible user; NotFound for an eligible user without bookings; an eligible user holding a booking gets a stored booking of theirs with its room |
| BookingsService.PostBooking | src/services/bookings-service/index.ts:18-31 | AccessDenied (ineligible), then NotFound (no room), then AccessDenied (room full), each writing nothing; booked exactly when eligible, the room exists and is not full; the new booking under the next id; rooms stay within capacity |
| BookingsService.UpdateBooking | src/services/bookings-service/index.ts:33-53 | no eligibility check; AccessDenied for a missing or foreign booking, NotFound for a missing room, AccessDenied for a full room, each writing nothing; otherwise the booking keeps its id and user and moves to the room; rooms stay within capacity |
| PaymentsService.CardLastDigits | src/services/payments-service/index.ts:30 | the result is the card number's suffix of length four, or the whole number when it is shorter |
| PaymentsService.GetPayment | src/services/payments-service/index.ts:6-17 | InvalidBody for a falsy ticket id, NotFound for a missing ticket, Unauthorized for another user's ticket, NotFound when the ticket has no payment; a stored payment of that ticket exactly when none of these applies |
| PaymentsService.PostPayment | src/services/payments-service/index.ts:19-33 | NotFound for a missing ticket, Unauthorized for another user's, both writing nothing; otherwise the ticket becomes PAID and a payment with the type's price, the issuer and the card's last digits is added; a payment of the ticket is then readable by its owner; no PAID ticket is un-paid |
| TicketsService.GetTicketTypes | src/services/tickets-service/index.ts:6-8 | every ticket type exactly once, in ascending id order |
| TicketsService.GetTicketByUser | src/services/tickets-service/index.ts:10-18 | NotFound (the only error) when the user has no enrollment or no ticket; otherwise a stored ticket on one of the user's enrollments, with its type; a ticket of the user is found only with one enrollment per user (`TicketFoundExactly`) |
| TicketsService.TicketFoundExactly | src/services/tickets-service/index.ts:10-18 | with one enrollment per user, the lookup succeeds exactly when the user holds a ticket |
| TicketsService.SetTicket | src/services/tickets-service/index.ts:20-33 | InvalidBody for a falsy type id, NotFound without an enrollment, a database error for an unknown type, each writing nothing; otherwise a new RESERVED ticket of that type on the user's enrollment, after which the user's ticket lookup succeeds (it returns the lowest-id ticket of the enrollment, an older one when there is one); no PAID ticket is un-paid |
| BookingsController.ErrorStatus | src/controllers/bookings-controller.ts:16-25 | 403 exactly for AccessDenied, 404 exactly for NotFound, 400 for everything else |
| BookingsController.GetBooking | src/controllers/bookings-controller.ts:6-27 | 200 with the booking's id and room exactly on success, otherwise the error's status alone |
| BookingsController.PostBooking | src/controllers/bookings-controller.ts:29-48 | 200 with `bookingId` exactly on success, otherwise the error's status alone |
| BookingsController.UpdateBooking | src/controllers/bookings-controller.ts:50-70 | 200 with the id under the key `booking` exactly on success, otherwise the error's status alone |
| BookingsController.IneligibleUserIsForbidden | tests/integration/bookings.test.ts:41-79 | a user without a paid, in-person, hotel-inclusive ticket gets 403 from GET /booking |
| BookingsController.EntitledUserSeesBooking | tests/integration/bookings.test.ts:81-93 | assuming one enrollment per user and one ticket per enrollment, an entitled user who holds a booking gets 200 with one of their bookings and its room |
| PaymentsController.ErrorStatus | src/controllers/payments-controller.ts:14-20 | 404 exactly for NotFound, 401 exactly for Unauthorized, 400 for everything else |
| PaymentsController.PaymentResponse | src/controllers/payments-controller.ts:6-39 | 200 with the payment exactly on success, otherwise the error's status alone |
| PaymentsController.FalsyTicketIdIsBadRequest | src/controllers/payments-controller.ts:7-20 | GET /payments with a missing, non-numeric or zero ticket id gets 400 |
| PaymentsController.ForeignTicketIsUnauthorized | src/controllers/payments-controller.ts:6-22 | GET /payments for another user's ticket gets 401 |
| TicketsController.GetTicketTypes | src/controllers/tickets-controller.ts:6-13 | 200 with the list on success, 400 on any error |
| TicketsController.GetTicketByUser | src/controllers/tickets-controller.ts:15-24 | 200 with the ticket on success, 404 exactly for NotFound, no response exactly for any other error |
| TicketsController.TicketLookupIsAlwaysAnswered | src/controllers/tickets-controller.ts:15-24 | GET /tickets is always answered, because the service raises nothing but NotFound |
| TicketsController.PostNewTicket | src/controllers/tickets-controller.ts:26-41 | 201 with the ticket on success, 400 exactly for InvalidBody, 404 exactly for NotFound, no response exactly for any other error |
| TicketsController.PostNewTicketAnswered | src/controllers/tickets-controller.ts:26-41 | with a fallback branch every outcome is answered; 404 exactly for NotFound, 400 for every other error |
| Scenarios.RoomFillsUp | src/services/bookings-service/index.ts:18-31 | three paid guests ask for one room of capacity 2: the first two are answered 200, the third 403, with occupancy read as the number of bookings in the room (see Left out) |
| Scenarios.PaidTwice | src/services/payments-service/index.ts:19-33 | paying an already paid ticket succeeds again and writes a second payment of the same ticket |
| Scenarios.UnknownTicketTypeIsUnanswered | src/controllers/tickets-controller.ts:26-41 | POST /tickets by an enrolled user with an unknown ticket type id gets no response; with a fallback it gets 400 |

## Left out

- HTTP transport, routing, request validation (the Joi schemas) and authentication: a handler receives the service's outcome, and `userId` is taken as given.
- The hotels resource (hotels service, controller and repository) and the error constructors in the `errors.ts` files. The model names each error by its kind.
- The enrollment repository is not part of this model. Its lookup by user is taken to be a `findFirst` on `userId`, like the other repositories' lookups.
- Prisma itself. `findFirst` is fixed to return the match with the lowest id, where the database promises no order. `findMany` is fixed to ascending ids. `include` is modelled only as the related rows.
- Prisma errors are all one kind, `DatabaseError`. That covers a foreign key naming no row and an update of a missing row. Their messages and codes are not modelled.
- Concurrency. Each service call runs alone against the database. Two concurrent bookings of the last place in a room, which the source does not guard against, are not modelled.
- The clock. `updatedAt` and `createdAt` columns are not modelled.
- Request-value coercion. Unary `+` on a query string and JavaScript's `!` are modelled as `Model.Falsy` on an optional id: undefined or NaN is `None`, and 0 is falsy. Other non-integer numbers are not modelled.
- PaymentsService.PostPayment: the card number is a `string` and `CardLastDigits` takes its last four characters. The source converts a number with a template literal, and that conversion (including exponent notation for large numbers) is not modelled.
- PaymentsService.PostPayment, PaymentsService.GetPayment: the payments service imports the tickets repository (`src/repositories/tickets-repository/index.ts`), which defines neither `findTicketById` nor `updateTicket`. As written, the call `ticketsRepository.findTicketById` is not a function. Every GET /payments with a truthy ticket id and every POST /payments/process therefore throws a TypeError, which the controller answers with 400. The model is the corrected reading: it reads and updates tickets with the ticket repository (`src/repositories/ticket-repository/index.ts`), which defines both on the same table.
- BookingsService.HasValidEnrollment: every failure is AccessDenied, answered 403, as the integration tests expect (`tests/integration/bookings.test.ts:41-79`). The import is not resolved as written: `src/services/bookings-service/index.ts:6` takes `accessDeniedError` from `../hotels-service`, whose index has only a default export (the constructor lives in `hotels-service/errors.ts`). Each `accessDeniedError()` call in the bookings service would then call undefined, throw a TypeError and be answered 400. The model takes the evidently intended error. The payment-required error the hotels resource uses is never raised here.
- BookingsService.PostBooking, BookingsService.UpdateBooking: the source tests fullness with `room._count.Booking === room.capacity` (`src/services/bookings-service/index.ts:26,48`). `findRoomById` includes the `Booking` list but does not select `_count` (`src/repositories/room-repository/index.ts:6-8`). As written, `room._count` is undefined, so every POST /booking and PUT /booking/:bookingId whose room exists throws a TypeError, which the controller's `default` branch answers 400. The model uses the length of the included `Booking` list (`RoomRepository.Occupancy`), as the code evidently intends. `Scenarios.RoomFillsUp` shows that reading, not the text.
- BookingsService.PostBooking, BookingsService.UpdateBooking: the bookings router validates no body (`src/routers/bookings-router.ts:7-11`; `createBookingSchema` is unused). The model takes `roomId` and `bookingId` as present integers; an undefined `roomId`, which Prisma reads as no filter, and a non-numeric `bookingId`, which `+` turns into NaN, are not modelled.
- BookingsController.UpdateBooking: the success body carries the id under the key `booking`, as the code sends it, not `bookingId`.
- BookingsService.PostBooking does not look at bookings the user already has, and TicketsService.SetTicket does not look at tickets the user already has, as in the code. A user can hold several bookings, and an enrollment several tickets.
- BookingsService.EligibilityExact, BookingsController.EntitledUserSeesBooking, TicketsService.TicketFoundExactly: these assume one enrollment per user (`Model.OneEnrollmentPerUser`). The first two also assume one ticket per enrollment (`Model.OneTicketPerEnrollment`). These are hypotheses, not invariants. Nothing in the code enforces one ticket per enrollment: `SetTicket` called twice for the same user adds a second ticket on the same enrollment and breaks it. They are adopted because, with several candidates, `findFirst` may return any of them, and the eligibility check then depends on which ticket is returned. Without them only the one-way `EligibilitySound` holds.
- TicketsService.GetTicketByUser, TicketsService.SetTicket: the lookup reads the user's first enrollment and that enrollment's first ticket. A user whose only ticket is on a later enrollment gets NotFound, and after a second `SetTicket` on the same enrollment the lookup returns the older ticket, not the new one. The contracts promise success of the lookup, not which ticket it returns.
- PaymentsService.PostPayment does not refuse a ticket that is already PAID, and payments per ticket are not limited to one (`Scenarios.PaidTwice`).

## Findings

| source | as written | input that shows it | evidently intended | confidence | as-written member | corrected member |
|---|---|---|---|---|---|---|
| src/controllers/tickets-controller.ts:33-40 | `postNewTicket` answers only InvalidBody (400) and NotFoundError (404); any other error falls out of the `catch` without a response, so the request hangs | an enrolled user posts `{ ticketTypeId: 5 }` when no ticket type 5 exists: the insert fails on the ticket type's foreign key | every error is answered; the other handlers fall back to 400 | medium; not executed | TicketsController.PostNewTicket, Scenarios.UnknownTicketTypeIsUnanswered | TicketsController.PostNewTicketAnswered |
