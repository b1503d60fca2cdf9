/** The tickets service: the ticket-type listing, the user's ticket, and reserving a ticket. */
module TicketsService {
  import opened Model
  import opened Store
  import EnrollmentRepository
  import TicketRepository
  import TicketsRepository

  /** `getTicketTypes`: the whole ticket-type table. */
  function GetTicketTypes(t: Tables): (r: seq<TicketType>)
    requires Consistent(t)
    ensures TicketRepository.ListsTable(r, t.ticketTypes)
  {
    TicketsRepository.FindTicketTypes(t)
  }

  /** The user has at least one ticket, on any of their enrollments. */
  ghost predicate HasTicket(t: Tables, userId: int)
    requires Consistent(t)
  {
    exists k :: k in t.tickets && t.enrollments[t.tickets[k].enrollmentId].userId == userId
  }

  /**
   * `getTicketByUser`: NotFound when the user has no enrollment or the
   * enrollment has no ticket; otherwise a ticket of the user's enrollment
   * with its type.
   */
  function GetTicketByUser(t: Tables, userId: int): (r: Result<TicketRepository.TicketWithType>)
    requires Consistent(t)
    ensures (forall k :: k in t.enrollments ==> t.enrollments[k].userId != userId) ==> r == Err(NotFound)
    ensures !HasTicket(t, userId) ==> r == Err(NotFound)
    ensures r.Err? ==> r.error == NotFound
    ensures r.Ok? ==> r.value.ticket.id in t.tickets && t.tickets[r.value.ticket.id] == r.value.ticket
    ensures r.Ok? ==> t.enrollments[r.value.ticket.enrollmentId].userId == userId
    ensures r.Ok? ==> r.value.ticketType == t.ticketTypes[r.value.ticket.ticketTypeId]
  {
    match EnrollmentRepository.FindEnrollmentByUserId(t, userId)
    case None => Err(NotFound)
    case Some(enrollment) =>
      match TicketsRepository.FindTicketByEnrollmentId(t, enrollment.id)
      case None => Err(NotFound)
      case Some(ticket) => Ok(ticket)
  }

  /**
   * With one enrollment per user, the user's ticket is found exactly when
   * they have one. (With several enrollments, a ticket on an enrollment
   * other than the one the lookup picks is not found.)
   */
  lemma TicketFoundExactly(t: Tables, userId: int)
    requires Consistent(t)
    requires OneEnrollmentPerUser(t)
    ensures GetTicketByUser(t, userId).Ok? <==> HasTicket(t, userId)
  {
    if HasTicket(t, userId) {
      var k :| k in t.tickets && t.enrollments[t.tickets[k].enrollmentId].userId == userId;
      var e := t.tickets[k].enrollmentId;
      assert EnrollmentRepository.FindEnrollmentByUserId(t, userId) == Some(t.enrollments[e]);
    }
  }

  /**
   * `setTicket`: InvalidBody for a falsy ticket type id before any lookup,
   * NotFound when the user has no enrollment, both creating nothing;
   * otherwise a new RESERVED ticket of that type on the user's enrollment.
   * It does not look at the tickets the user already has.
   */
  method SetTicket(db: Database, userId: int, ticketTypeId: Option<int>) returns (r: Result<TicketRepository.TicketWithType>)
    requires db.Valid()
    modifies db`tickets, db`nextTicketId
    ensures db.Valid()
    ensures r.Err? ==> unchanged(db)
    ensures Falsy(ticketTypeId) ==> r == Err(InvalidBody)
    ensures (!Falsy(ticketTypeId) && forall k :: k in db.enrollments ==> db.enrollments[k].userId != userId) ==>
      r == Err(NotFound)
    ensures (!Falsy(ticketTypeId) && ticketTypeId.value !in db.ticketTypes
      && exists k :: k in db.enrollments && db.enrollments[k].userId == userId) ==> r == Err(DatabaseError)
    ensures r.Ok? <==> (!Falsy(ticketTypeId) && ticketTypeId.value in db.ticketTypes
      && exists k :: k in db.enrollments && db.enrollments[k].userId == userId)
    ensures r.Ok? ==>
      && r.value.ticket == Ticket(old(db.nextTicketId), ticketTypeId.value,
           EnrollmentRepository.FindEnrollmentByUserId(old(db.Snapshot()), userId).value.id, Reserved)
      && r.value.ticketType == db.ticketTypes[ticketTypeId.value]
      && r.value.ticket.id !in old(db.tickets)
      && db.tickets == old(db.tickets)[r.value.ticket.id := r.value.ticket]
    ensures r.Ok? ==> db.enrollments[r.value.ticket.enrollmentId].userId == userId
    ensures r.Ok? ==> GetTicketByUser(db.Snapshot(), userId).Ok?
    ensures PaidStaysPaid(old(db.tickets), db.tickets)
  {
    if Falsy(ticketTypeId) {
      return Err(InvalidBody);
    }
    var enrollment := EnrollmentRepository.FindEnrollmentByUserId(db.Snapshot(), userId);
    if enrollment.None? {
      return Err(NotFound);
    }
    r := TicketsRepository.CreateTicket(db, TicketRepository.NewTicket(ticketTypeId.value, enrollment.value.id, Reserved));
    if r.Ok? {
      assert db.tickets[r.value.ticket.id].enrollmentId == enrollment.value.id;
    }
  }
}
