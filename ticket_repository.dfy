/**
 * The ticket repository: the ticket-type listing, ticket lookups with their
 * relations included, an insert and a partial update of one ticket.
 */
module TicketRepository {
  import opened Model
  import Lookup
  import opened Store

  /** A ticket with its `TicketType` relation included. */
  datatype TicketWithType = TicketWithType(ticket: Ticket, ticketType: TicketType)

  /** A ticket with its `Enrollment` and `TicketType` relations included. */
  datatype TicketWithRelations = TicketWithRelations(ticket: Ticket, enrollment: Enrollment, ticketType: TicketType)

  /** The data of a new ticket: every column but the generated id. */
  datatype NewTicket = NewTicket(ticketTypeId: int, enrollmentId: int, status: TicketStatus)

  /** A partial update of a ticket: the columns to overwrite, None for those to keep. */
  datatype TicketPatch = TicketPatch(ticketTypeId: Option<int>, enrollmentId: Option<int>, status: Option<TicketStatus>)

  /** `rows` lists the table `m` exactly: each row once, in ascending id order. */
  ghost predicate ListsTable(rows: seq<TicketType>, m: map<int, TicketType>) {
    && (forall i :: 0 <= i < |rows| ==> rows[i].id in m && m[rows[i].id] == rows[i])
    && (forall k :: k in m ==> m[k] in rows)
    && (forall i, j :: 0 <= i < j < |rows| ==> rows[i].id < rows[j].id)
  }

  /** `ticketType.findMany()`: every ticket type. */
  function FindTicketTypes(t: Tables): (r: seq<TicketType>)
    requires Consistent(t)
    ensures ListsTable(r, t.ticketTypes)
  {
    var ids := Lookup.SortedIds(t.ticketTypes.Keys);
    var rows := Lookup.RowsAt(t.ticketTypes, ids);
    SortedRowsListTable(t.ticketTypes, ids, rows);
    rows
  }

  /** The rows of a table keyed by id, read at its ids in ascending order, list the table. */
  lemma SortedRowsListTable(m: map<int, TicketType>, ids: seq<int>, rows: seq<TicketType>)
    requires forall k :: k in m ==> m[k].id == k
    requires forall k :: k in m.Keys <==> k in ids
    requires forall i, j :: 0 <= i < j < |ids| ==> ids[i] < ids[j]
    requires |rows| == |ids| && forall i :: 0 <= i < |rows| ==> ids[i] in m && rows[i] == m[ids[i]]
    ensures ListsTable(rows, m)
  {
    forall k | k in m
      ensures m[k] in rows
    {
      assert k in ids;
      var i :| 0 <= i < |ids| && ids[i] == k;
      assert rows[i] == m[k];
    }
  }

  /** `findFirst({ where: { id }, include: { Enrollment: true, TicketType: true } })`. */
  function FindTicketById(t: Tables, id: int): (r: Option<TicketWithRelations>)
    requires Consistent(t)
    ensures r.Some? <==> id in t.tickets
    ensures r.Some? ==> r.value.ticket == t.tickets[id]
    ensures r.Some? ==> r.value.enrollment == t.enrollments[r.value.ticket.enrollmentId]
    ensures r.Some? ==> r.value.ticketType == t.ticketTypes[r.value.ticket.ticketTypeId]
  {
    match Lookup.FindFirst(t.tickets, (k: Ticket) => k.id == id)
    case None => None
    case Some(k) =>
      var ticket := t.tickets[k];
      Some(TicketWithRelations(ticket, t.enrollments[ticket.enrollmentId], t.ticketTypes[ticket.ticketTypeId]))
  }

  /** `findFirst({ where: { enrollmentId }, include: { TicketType: true } })`. */
  function FindTicketByEnrollmentId(t: Tables, enrollmentId: int): (r: Option<TicketWithType>)
    requires Consistent(t)
    ensures r.Some? ==> r.value.ticket.id in t.tickets && t.tickets[r.value.ticket.id] == r.value.ticket
    ensures r.Some? ==> r.value.ticket.enrollmentId == enrollmentId
    ensures r.Some? ==> r.value.ticketType == t.ticketTypes[r.value.ticket.ticketTypeId]
    ensures r.None? <==> forall k :: k in t.tickets ==> t.tickets[k].enrollmentId != enrollmentId
  {
    match Lookup.FindFirst(t.tickets, (k: Ticket) => k.enrollmentId == enrollmentId)
    case None => None
    case Some(k) => Some(TicketWithType(t.tickets[k], t.ticketTypes[t.tickets[k].ticketTypeId]))
  }

  /**
   * `create({ data, include: { TicketType: true } })`: one new row under the
   * next id. The database refuses a type or an enrollment that names no row.
   */
  method CreateTicket(db: Database, data: NewTicket) returns (r: Result<TicketWithType>)
    requires db.Valid()
    modifies db`tickets, db`nextTicketId
    ensures db.Valid()
    ensures data.ticketTypeId !in db.ticketTypes || data.enrollmentId !in db.enrollments ==>
      r == Err(DatabaseError) && unchanged(db)
    ensures data.ticketTypeId in db.ticketTypes && data.enrollmentId in db.enrollments ==>
      && r == Ok(TicketWithType(
           Ticket(old(db.nextTicketId), data.ticketTypeId, data.enrollmentId, data.status),
           db.ticketTypes[data.ticketTypeId]))
      && r.value.ticket.id !in old(db.tickets)
      && db.tickets == old(db.tickets)[r.value.ticket.id := r.value.ticket]
  {
    if data.ticketTypeId !in db.ticketTypes || data.enrollmentId !in db.enrollments {
      return Err(DatabaseError);
    }
    var ticket := Ticket(db.nextTicketId, data.ticketTypeId, data.enrollmentId, data.status);
    db.tickets := db.tickets[ticket.id := ticket];
    db.nextTicketId := db.nextTicketId + 1;
    r := Ok(TicketWithType(ticket, db.ticketTypes[ticket.ticketTypeId]));
  }

  /** `ticket` with the columns `patch` supplies overwritten. */
  function Patched(ticket: Ticket, patch: TicketPatch): (r: Ticket)
    ensures r.id == ticket.id
    ensures r.ticketTypeId == (if patch.ticketTypeId.Some? then patch.ticketTypeId.value else ticket.ticketTypeId)
    ensures r.enrollmentId == (if patch.enrollmentId.Some? then patch.enrollmentId.value else ticket.enrollmentId)
    ensures r.status == (if patch.status.Some? then patch.status.value else ticket.status)
  {
    var ticket := match patch.ticketTypeId case Some(v) => ticket.(ticketTypeId := v) case None => ticket;
    var ticket := match patch.enrollmentId case Some(v) => ticket.(enrollmentId := v) case None => ticket;
    match patch.status case Some(v) => ticket.(status := v) case None => ticket
  }

  /**
   * `update({ where: { id }, data })`: overwrites the supplied columns of one
   * ticket. The database refuses a missing row or a foreign key that names no row.
   */
  method UpdateTicket(db: Database, patch: TicketPatch, id: int) returns (r: Result<Ticket>)
    requires db.Valid()
    modifies db`tickets
    ensures db.Valid()
    ensures id !in old(db.tickets) ==> r == Err(DatabaseError) && unchanged(db)
    ensures id in old(db.tickets) ==>
      var updated := Patched(old(db.tickets)[id], patch);
      if updated.ticketTypeId in db.ticketTypes && updated.enrollmentId in db.enrollments then
        r == Ok(updated) && db.tickets == old(db.tickets)[id := updated]
      else
        r == Err(DatabaseError) && unchanged(db)
  {
    if id !in db.tickets {
      return Err(DatabaseError);
    }
    var updated := Patched(db.tickets[id], patch);
    if updated.ticketTypeId !in db.ticketTypes || updated.enrollmentId !in db.enrollments {
      return Err(DatabaseError);
    }
    db.tickets := db.tickets[id := updated];
    r := Ok(updated);
  }
}
