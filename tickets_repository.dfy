/**
 * The second ticket repository, the one the tickets service imports. It runs
 * the same queries on the same ticket table as TicketRepository, whose
 * definitions it uses, and exposes only three operations: there is no lookup
 * by ticket id and no update here.
 */
module TicketsRepository {
  import opened Model
  import opened Store
  import TicketRepository

  /** `ticketType.findMany()`: every ticket type. */
  function FindTicketTypes(t: Tables): (r: seq<TicketType>)
    requires Consistent(t)
    ensures TicketRepository.ListsTable(r, t.ticketTypes)
  {
    TicketRepository.FindTicketTypes(t)
  }

  /** `findFirst({ where: { enrollmentId }, include: { TicketType: true } })`. */
  function FindTicketByEnrollmentId(t: Tables, enrollmentId: int): (r: Option<TicketRepository.TicketWithType>)
    requires Consistent(t)
    ensures r.Some? ==> r.value.ticket.id in t.tickets && t.tickets[r.value.ticket.id] == r.value.ticket
    ensures r.Some? ==> r.value.ticket.enrollmentId == enrollmentId
    ensures r.Some? ==> r.value.ticketType == t.ticketTypes[r.value.ticket.ticketTypeId]
    ensures r.None? <==> forall k :: k in t.tickets ==> t.tickets[k].enrollmentId != enrollmentId
  {
    TicketRepository.FindTicketByEnrollmentId(t, enrollmentId)
  }

  /** `create({ data, include: { TicketType: true } })`: one new row under the next id. */
  method CreateTicket(db: Database, data: TicketRepository.NewTicket) returns (r: Result<TicketRepository.TicketWithType>)
    requires db.Valid()
    modifies db`tickets, db`nextTicketId
    ensures db.Valid()
    ensures data.ticketTypeId !in db.ticketTypes || data.enrollmentId !in db.enrollments ==>
      r == Err(DatabaseError) && unchanged(db)
    ensures data.ticketTypeId in db.ticketTypes && data.enrollmentId in db.enrollments ==>
      && r == Ok(TicketRepository.TicketWithType(
           Ticket(old(db.nextTicketId), data.ticketTypeId, data.enrollmentId, data.status),
           db.ticketTypes[data.ticketTypeId]))
      && r.value.ticket.id !in old(db.tickets)
      && db.tickets == old(db.tickets)[r.value.ticket.id := r.value.ticket]
  {
    r := TicketRepository.CreateTicket(db, data);
  }
}
