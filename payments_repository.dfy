/** The payments repository: a lookup by ticket and an insert. */
module PaymentsRepository {
  import opened Model
  import Lookup
  import opened Store

  /** The data of a new payment: every column but the generated id. */
  datatype NewPayment = NewPayment(ticketId: int, value: int, cardIssuer: string, cardLastDigits: string)

  /** `findFirst({ where: { ticketId } })`: a payment of the ticket, or None when it has none. */
  function FindPaymentByTicketId(t: Tables, ticketId: int): (r: Option<Payment>)
    requires Consistent(t)
    ensures r.Some? ==> r.value.id in t.payments && t.payments[r.value.id] == r.value
    ensures r.Some? ==> r.value.ticketId == ticketId
    ensures r.None? <==> forall k :: k in t.payments ==> t.payments[k].ticketId != ticketId
  {
    match Lookup.FindFirst(t.payments, (p: Payment) => p.ticketId == ticketId)
    case None => None
    case Some(k) => Some(t.payments[k])
  }

  /**
   * `create({ data })`: one new row under the next id, whatever payments the
   * ticket already has. The database refuses a ticket id that names no ticket.
   */
  method Create(db: Database, data: NewPayment) returns (r: Result<Payment>)
    requires db.Valid()
    modifies db`payments, db`nextPaymentId
    ensures db.Valid()
    ensures data.ticketId !in db.tickets ==> r == Err(DatabaseError) && unchanged(db)
    ensures data.ticketId in db.tickets ==>
      && r == Ok(Payment(old(db.nextPaymentId), data.ticketId, data.value, data.cardIssuer, data.cardLastDigits))
      && r.value.id !in old(db.payments)
      && db.payments == old(db.payments)[r.value.id := r.value]
  {
    if data.ticketId !in db.tickets {
      return Err(DatabaseError);
    }
    var p := Payment(db.nextPaymentId, data.ticketId, data.value, data.cardIssuer, data.cardLastDigits);
    db.payments := db.payments[p.id := p];
    db.nextPaymentId := db.nextPaymentId + 1;
    r := Ok(p);
  }
}
