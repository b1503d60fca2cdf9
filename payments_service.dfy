/**
 * The payments service: reading the payment of a ticket the user owns, and
 * paying for such a ticket. It reads tickets through TicketRepository: the
 * repository it imports by name defines neither a lookup by ticket id nor an
 * update.
 */
module PaymentsService {
  import opened Model
  import opened Store
  import TicketRepository
  import PaymentsRepository

  /** The card fields of a payment request; only the issuer and the number are used. */
  datatype CardData = CardData(issuer: string, number: string, name: string, expirationDate: string, cvv: int)

  datatype PaymentRequest = PaymentRequest(ticketId: int, cardData: CardData)

  /** The user whose enrollment the ticket belongs to. */
  function TicketOwner(t: Tables, ticketId: int): int
    requires Consistent(t) && ticketId in t.tickets
  {
    t.enrollments[t.tickets[ticketId].enrollmentId].userId
  }

  /** `${number}`.slice(-4): the last four characters of the card number, all of it when shorter. */
  function CardLastDigits(number: string): (r: string)
    ensures |r| == if |number| < 4 then |number| else 4
    ensures number == number[..|number| - |r|] + r
  {
    if |number| <= 4 then number else number[|number| - 4..]
  }

  /**
   * `getPayment`: InvalidBody for a falsy ticket id before any lookup, then
   * NotFound for a missing ticket, Unauthorized for another user's ticket,
   * NotFound when the ticket has no payment; a payment of that ticket
   * exactly when none of these applies.
   */
  function GetPayment(t: Tables, ticketId: Option<int>, userId: int): (r: Result<Payment>)
    requires Consistent(t)
    ensures Falsy(ticketId) ==> r == Err(InvalidBody)
    ensures !Falsy(ticketId) && ticketId.value !in t.tickets ==> r == Err(NotFound)
    ensures (!Falsy(ticketId) && ticketId.value in t.tickets && TicketOwner(t, ticketId.value) != userId) ==>
      r == Err(Unauthorized)
    ensures (!Falsy(ticketId) && ticketId.value in t.tickets && TicketOwner(t, ticketId.value) == userId
      && forall k :: k in t.payments ==> t.payments[k].ticketId != ticketId.value) ==> r == Err(NotFound)
    ensures (!Falsy(ticketId) && ticketId.value in t.tickets && TicketOwner(t, ticketId.value) == userId
      && exists k :: k in t.payments && t.payments[k].ticketId == ticketId.value) ==> r.Ok?
    ensures r.Ok? ==> !Falsy(ticketId) && ticketId.value in t.tickets && TicketOwner(t, ticketId.value) == userId
    ensures r.Ok? ==> r.value.id in t.payments && t.payments[r.value.id] == r.value && r.value.ticketId == ticketId.value
  {
    if Falsy(ticketId) then Err(InvalidBody)
    else match TicketRepository.FindTicketById(t, ticketId.value)
      case None => Err(NotFound)
      case Some(ticket) =>
        if ticket.enrollment.userId != userId then Err(Unauthorized)
        else match PaymentsRepository.FindPaymentByTicketId(t, ticketId.value)
          case None => Err(NotFound)
          case Some(payment) => Ok(payment)
  }

  /**
   * `postPayment`: NotFound for a missing ticket, Unauthorized for another
   * user's ticket, both writing nothing; otherwise the ticket becomes PAID
   * and a payment is appended carrying the ticket type's price, the card
   * issuer and the card number's last digits. A ticket already PAID is paid again.
   */
  method PostPayment(db: Database, request: PaymentRequest, userId: int) returns (r: Result<Payment>)
    requires db.Valid()
    modifies db`tickets, db`payments, db`nextPaymentId
    ensures db.Valid()
    ensures r.Err? ==> unchanged(db)
    ensures request.ticketId !in old(db.tickets) ==> r == Err(NotFound)
    ensures (request.ticketId in old(db.tickets) && TicketOwner(old(db.Snapshot()), request.ticketId) != userId) ==>
      r == Err(Unauthorized)
    ensures r.Ok? <==> request.ticketId in old(db.tickets) && TicketOwner(old(db.Snapshot()), request.ticketId) == userId
    ensures r.Ok? ==>
      var ticket := old(db.tickets)[request.ticketId];
      && db.tickets == old(db.tickets)[request.ticketId := ticket.(status := Paid)]
      && r.value == Payment(old(db.nextPaymentId), request.ticketId, db.ticketTypes[ticket.ticketTypeId].price,
                            request.cardData.issuer, CardLastDigits(request.cardData.number))
      && r.value.id !in old(db.payments)
      && db.payments == old(db.payments)[r.value.id := r.value]
    ensures r.Ok? ==> GetPayment(db.Snapshot(), Some(request.ticketId), userId).Ok?
    ensures PaidStaysPaid(old(db.tickets), db.tickets)
  {
    var t := db.Snapshot();
    var ticket := TicketRepository.FindTicketById(t, request.ticketId);
    if ticket.None? {
      return Err(NotFound);
    }
    if ticket.value.enrollment.userId != userId {
      return Err(Unauthorized);
    }
    var paid := TicketRepository.UpdateTicket(db, TicketRepository.TicketPatch(None, None, Some(Paid)), request.ticketId);
    assert paid.Ok?;
    r := PaymentsRepository.Create(db, PaymentsRepository.NewPayment(
      request.ticketId, ticket.value.ticketType.price, request.cardData.issuer, CardLastDigits(request.cardData.number)));
    assert db.payments[r.value.id].ticketId == request.ticketId;
  }
}
