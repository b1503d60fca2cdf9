/**
 * Clients of the services that play the flows the backend serves, concluding
 * only from the services' contracts what each step answers.
 */
module Scenarios {
  import opened Model
  import opened Store
  import opened Http
  import RoomRepository
  import BookingsService
  import PaymentsService
  import TicketsService
  import BookingsController
  import TicketRepository
  import TicketsController

  /** The user reserves a ticket of type 1, which lands on their enrollment. */
  method Reserve(db: Database, userId: int) returns (ticketId: int)
    requires db.Valid()
    requires exists e :: e in db.enrollments && db.enrollments[e].userId == userId
    requires 1 in db.ticketTypes
    modifies db`tickets, db`nextTicketId
    ensures db.Valid()
    ensures ticketId !in old(db.tickets) && ticketId in db.tickets
    ensures db.tickets == old(db.tickets)[ticketId := db.tickets[ticketId]]
    ensures db.tickets[ticketId].status == Reserved && db.tickets[ticketId].ticketTypeId == 1
    ensures db.enrollments[db.tickets[ticketId].enrollmentId].userId == userId
  {
    var reserved := TicketsService.SetTicket(db, userId, Some(1));
    assert reserved.Ok?;
    ticketId := reserved.value.ticket.id;
  }

  /** The owner of a ticket pays for it, which marks it PAID. */
  method Pay(db: Database, userId: int, ticketId: int)
    requires db.Valid()
    requires ticketId in db.tickets && db.enrollments[db.tickets[ticketId].enrollmentId].userId == userId
    modifies db`tickets, db`payments, db`nextPaymentId
    ensures db.Valid()
    ensures db.tickets == old(db.tickets)[ticketId := old(db.tickets)[ticketId].(status := Paid)]
  {
    var card := PaymentsService.CardData("VISA", "4111111111111111", "Ann", "12/30", 123);
    var payment := PaymentsService.PostPayment(db, PaymentsService.PaymentRequest(ticketId, card), userId);
    assert payment.Ok?;
  }

  /** User `userId`, enrolled as `e`, reserves and pays: a PAID ticket of type 1 is added on `e`. */
  method Guest(db: Database, userId: int, e: int) returns (k: int)
    requires db.Valid() && OneEnrollmentPerUser(db.Snapshot())
    requires e in db.enrollments && db.enrollments[e].userId == userId
    requires 1 in db.ticketTypes
    modifies db`tickets, db`nextTicketId, db`payments, db`nextPaymentId
    ensures db.Valid()
    ensures k !in old(db.tickets)
    ensures db.tickets == old(db.tickets)[k := Ticket(k, 1, e, Paid)]
  {
    k := Reserve(db, userId);
    assert db.tickets[k].enrollmentId == e;
    Pay(db, userId, k);
  }

  /** The three guests' tickets: one per enrollment. */
  lemma GuestTicketsDistinct(t: Tables, k1: int, k2: int, k3: int)
    requires k1 != k2 && k1 != k3 && k2 != k3
    requires t.tickets == map[k1 := Ticket(k1, 1, 1, Paid), k2 := Ticket(k2, 1, 2, Paid), k3 := Ticket(k3, 1, 3, Paid)]
    ensures OneTicketPerEnrollment(t)
  {
    forall a, b | a in t.tickets && b in t.tickets && t.tickets[a].enrollmentId == t.tickets[b].enrollmentId
      ensures a == b
    {
      assert t.tickets[a].enrollmentId == (if a == k1 then 1 else if a == k2 then 2 else 3);
      assert t.tickets[b].enrollmentId == (if b == k1 then 1 else if b == k2 then 2 else 3);
    }
  }

  /** A guest holding a PAID ticket of the in-person, hotel-inclusive type passes the check. */
  lemma GuestEligible(t: Tables, userId: int, e: int, k: int)
    requires Consistent(t) && OneEnrollmentPerUser(t) && OneTicketPerEnrollment(t)
    requires t.ticketTypes == map[1 := TicketType(1, "Valid Ticket", 123, false, true)]
    requires e in t.enrollments && t.enrollments[e].userId == userId
    requires k in t.tickets && t.tickets[k] == Ticket(k, 1, e, Paid)
    ensures BookingsService.HasValidEnrollment(t, userId) == Pass
  {
    BookingsService.EligibilityExact(t, userId);
    assert BookingsService.Entitles(t, userId, e, k);
  }

  /**
   * Three users, 10, 20 and 30, enrolled as 1, 2 and 3, each reserve and pay
   * for an in-person, hotel-inclusive ticket; no room is booked yet.
   */
  method PaidGuests() returns (db: Database, k1: int, k2: int, k3: int)
    ensures fresh(db) && db.Valid()
    ensures db.enrollments == map[1 := Enrollment(1, 10), 2 := Enrollment(2, 20), 3 := Enrollment(3, 30)]
    ensures db.ticketTypes == map[1 := TicketType(1, "Valid Ticket", 123, false, true)]
    ensures db.tickets == map[k1 := Ticket(k1, 1, 1, Paid), k2 := Ticket(k2, 1, 2, Paid), k3 := Ticket(k3, 1, 3, Paid)]
    ensures k1 != k2 && k1 != k3 && k2 != k3
    ensures db.rooms == map[7 := Room(7, "110", 2, 1)] && db.bookings == map[]
  {
    var types := map[1 := TicketType(1, "Valid Ticket", 123, false, true)];
    var enrollments := map[1 := Enrollment(1, 10), 2 := Enrollment(2, 20), 3 := Enrollment(3, 30)];
    db := new Database(enrollments, types, map[7 := Room(7, "110", 2, 1)]);
    assert OneEnrollmentPerUser(db.Snapshot());
    k1 := Guest(db, 10, 1);
    k2 := Guest(db, 20, 2);
    k3 := Guest(db, 30, 3);
  }

  /**
   * A guest holding a PAID ticket of the in-person, hotel-inclusive type asks
   * for an existing room: booked exactly when the room is not full, 403 otherwise.
   */
  method BookGuest(db: Database, userId: int, e: int, k: int, roomId: int) returns (r: Result<Booking>)
    requires db.Valid() && OneEnrollmentPerUser(db.Snapshot()) && OneTicketPerEnrollment(db.Snapshot())
    requires db.ticketTypes == map[1 := TicketType(1, "Valid Ticket", 123, false, true)]
    requires e in db.enrollments && db.enrollments[e].userId == userId
    requires k in db.tickets && db.tickets[k] == Ticket(k, 1, e, Paid)
    requires roomId in db.rooms
    modifies db`bookings, db`nextBookingId
    ensures db.Valid() && OneEnrollmentPerUser(db.Snapshot()) && OneTicketPerEnrollment(db.Snapshot())
    ensures r.Ok? <==> RoomRepository.Occupancy(old(db.bookings), roomId) != db.rooms[roomId].capacity
    ensures r.Err? ==> r == Err(AccessDenied) && db.bookings == old(db.bookings)
    ensures RoomRepository.Occupancy(db.bookings, roomId) ==
      RoomRepository.Occupancy(old(db.bookings), roomId) + (if r.Ok? then 1 else 0)
  {
    GuestEligible(db.Snapshot(), userId, e, k);
    r := BookingsService.PostBooking(db, userId, roomId);
    if r.Ok? {
      RoomRepository.OccupancyAfterInsert(old(db.bookings), r.value, roomId);
    }
  }

  /**
   * The three paid guests ask for the same room of capacity 2: the first two
   * get it, the third is answered 403 (occupancy read as the number of
   * bookings of the room).
   */
  method RoomFillsUp() returns (first: Response<BookingsController.BookingIdBody>,
      second: Response<BookingsController.BookingIdBody>, third: Response<BookingsController.BookingIdBody>)
    ensures first.Send? && first.status == OK && second.Send? && second.status == OK
    ensures third == SendStatus(FORBIDDEN)
  {
    var db, k1, k2, k3 := PaidGuests();
    assert OneEnrollmentPerUser(db.Snapshot());
    GuestTicketsDistinct(db.Snapshot(), k1, k2, k3);
    assert RoomRepository.BookingIdsIn(db.bookings, 7) == {};
    var b1 := BookGuest(db, 10, 1, k1, 7);
    assert RoomRepository.Occupancy(db.bookings, 7) == 1;
    var b2 := BookGuest(db, 20, 2, k2, 7);
    assert RoomRepository.Occupancy(db.bookings, 7) == 2;
    var b3 := BookGuest(db, 30, 3, k3, 7);
    first, second, third := BookingsController.PostBooking(b1), BookingsController.PostBooking(b2), BookingsController.PostBooking(b3);
  }

  /**
   * POST /tickets with a ticket type id that names no ticket type, by an
   * enrolled user: the insert fails on the ticket type's foreign key, the
   * handler matches neither of its error branches and sends nothing; the
   * handler with a fallback answers 400.
   */
  method UnknownTicketTypeIsUnanswered() returns (asWritten: Response<TicketRepository.TicketWithType>,
      withFallback: Response<TicketRepository.TicketWithType>)
    ensures asWritten == NoResponse
    ensures withFallback == SendStatus(BAD_REQUEST)
  {
    var db := new Database(map[1 := Enrollment(1, 10)], map[1 := TicketType(1, "Valid Ticket", 123, false, true)], map[]);
    assert db.enrollments[1].userId == 10;
    var r := TicketsService.SetTicket(db, 10, Some(5));
    assert r == Err(DatabaseError);
    assert db.tickets == map[];
    asWritten, withFallback := TicketsController.PostNewTicket(r), TicketsController.PostNewTicketAnswered(r);
  }

  /**
   * A ticket paid twice: the second payment succeeds as well, and a second
   * payment row of the same ticket is written.
   */
  method PaidTwice() returns (first: Payment, second: Payment)
    ensures first.ticketId == second.ticketId && first.id != second.id
  {
    var db := new Database(map[1 := Enrollment(1, 10)], map[1 := TicketType(1, "Valid Ticket", 123, false, true)], map[]);
    assert db.enrollments[1].userId == 10;
    var k := Reserve(db, 10);
    var card := PaymentsService.CardData("VISA", "4111111111111111", "Ann", "12/30", 123);
    var paid := PaymentsService.PostPayment(db, PaymentsService.PaymentRequest(k, card), 10);
    assert paid.Ok?;
    var paidAgain := PaymentsService.PostPayment(db, PaymentsService.PaymentRequest(k, card), 10);
    assert paidAgain.Ok?;
    first, second := paid.value, paidAgain.value;
  }
}
