/**
 * Rows of the event backend's tables, the snapshot of the whole database the
 * lookups read, and the outcomes the services report.
 */
module Model {

  datatype Option<T> = None | Some(value: T)

  /** The error names the services raise, and the errors of the database client itself. */
  datatype ErrorKind =
    | AccessDenied   // "AccessDeniedError"
    | NotFound       // "NotFoundError"
    | Unauthorized   // "UnauthorizedError"
    | InvalidBody    // "InvalidBody"
    | DatabaseError  // raised by the database client: a foreign key that names no row, an update of a missing row

  /** A service call either returns a value or throws one of the errors above. */
  datatype Result<T> = Ok(value: T) | Err(error: ErrorKind)

  /** A check that returns nothing on success. */
  datatype Outcome = Pass | Fail(error: ErrorKind)

  datatype TicketStatus = Reserved | Paid

  datatype Enrollment = Enrollment(id: int, userId: int)
  datatype TicketType = TicketType(id: int, name: string, price: int, isRemote: bool, includesHotel: bool)
  datatype Ticket = Ticket(id: int, ticketTypeId: int, enrollmentId: int, status: TicketStatus)
  datatype Room = Room(id: int, name: string, capacity: int, hotelId: int)
  datatype Booking = Booking(id: int, userId: int, roomId: int)
  datatype Payment = Payment(id: int, ticketId: int, value: int, cardIssuer: string, cardLastDigits: string)

  /** The six tables the core reads and writes, each a map from primary key to row. */
  datatype Tables = Tables(
    enrollments: map<int, Enrollment>,
    ticketTypes: map<int, TicketType>,
    tickets: map<int, Ticket>,
    rooms: map<int, Room>,
    bookings: map<int, Booking>,
    payments: map<int, Payment>)

  /** Every row is stored under its own id. */
  ghost predicate KeyedById(t: Tables) {
    && (forall k :: k in t.enrollments ==> t.enrollments[k].id == k)
    && (forall k :: k in t.ticketTypes ==> t.ticketTypes[k].id == k)
    && (forall k :: k in t.tickets ==> t.tickets[k].id == k)
    && (forall k :: k in t.rooms ==> t.rooms[k].id == k)
    && (forall k :: k in t.bookings ==> t.bookings[k].id == k)
    && (forall k :: k in t.payments ==> t.payments[k].id == k)
  }

  /** The relations the database enforces: a ticket's enrollment and type, a booking's room, a payment's ticket. */
  ghost predicate ForeignKeysHold(t: Tables) {
    && (forall k :: k in t.tickets ==> t.tickets[k].enrollmentId in t.enrollments)
    && (forall k :: k in t.tickets ==> t.tickets[k].ticketTypeId in t.ticketTypes)
    && (forall k :: k in t.bookings ==> t.bookings[k].roomId in t.rooms)
    && (forall k :: k in t.payments ==> t.payments[k].ticketId in t.tickets)
  }

  ghost predicate Consistent(t: Tables) {
    KeyedById(t) && ForeignKeysHold(t)
  }

  /** Enrollment.userId is unique. */
  ghost predicate OneEnrollmentPerUser(t: Tables) {
    forall e1, e2 ::
      (e1 in t.enrollments && e2 in t.enrollments && t.enrollments[e1].userId == t.enrollments[e2].userId) ==> e1 == e2
  }

  /** No enrollment has two tickets. */
  ghost predicate OneTicketPerEnrollment(t: Tables) {
    forall k1, k2 ::
      (k1 in t.tickets && k2 in t.tickets && t.tickets[k1].enrollmentId == t.tickets[k2].enrollmentId) ==> k1 == k2
  }

  /** A ticket that was PAID is still there and still PAID: the status only ever moves from RESERVED to PAID. */
  ghost predicate PaidStaysPaid(before: map<int, Ticket>, after: map<int, Ticket>) {
    forall k :: k in before && before[k].status == Paid ==> k in after && after[k].status == Paid
  }

  /**
   * JavaScript's `!id` for an id taken from a request: true for a missing
   * value (undefined, or NaN after a numeric conversion) and for 0.
   */
  predicate Falsy(id: Option<int>) {
    id.None? || id.value == 0
  }
}
