/**
 * The database the repositories talk to: one object holding every table as a
 * map from id to row, and the autoincrement counter of each table the core
 * inserts into.
 */
module Store {
  import opened Model

  class Database {
    var enrollments: map<int, Enrollment>
    var ticketTypes: map<int, TicketType>
    var tickets: map<int, Ticket>
    var rooms: map<int, Room>
    var bookings: map<int, Booking>
    var payments: map<int, Payment>

    // next value of each autoincrement primary key
    var nextTicketId: int
    var nextBookingId: int
    var nextPaymentId: int

    /** The current contents of every table, as the lookups read them. */
    function Snapshot(): Tables
      reads this
    {
      Tables(enrollments, ticketTypes, tickets, rooms, bookings, payments)
    }

    /** Rows are keyed by id, foreign keys hold, and every generated id is positive and below its counter. */
    ghost predicate Valid()
      reads this
    {
      && Consistent(Snapshot())
      && 1 <= nextTicketId && 1 <= nextBookingId && 1 <= nextPaymentId
      && (forall k :: k in tickets ==> 1 <= k < nextTicketId)
      && (forall k :: k in bookings ==> 1 <= k < nextBookingId)
      && (forall k :: k in payments ==> 1 <= k < nextPaymentId)
    }

    /**
     * A database holding the reference data the core does not create
     * (enrollments, ticket types, rooms) and no tickets, bookings or payments.
     */
    constructor (enrollments: map<int, Enrollment>, ticketTypes: map<int, TicketType>, rooms: map<int, Room>)
      requires forall k :: k in enrollments ==> enrollments[k].id == k
      requires forall k :: k in ticketTypes ==> ticketTypes[k].id == k
      requires forall k :: k in rooms ==> rooms[k].id == k
      ensures Valid()
      ensures Snapshot() == Tables(enrollments, ticketTypes, map[], rooms, map[], map[])
      ensures nextTicketId == 1 && nextBookingId == 1 && nextPaymentId == 1
    {
      this.enrollments := enrollments;
      this.ticketTypes := ticketTypes;
      this.rooms := rooms;
      tickets, bookings, payments := map[], map[], map[];
      nextTicketId, nextBookingId, nextPaymentId := 1, 1, 1;
    }
  }
}
