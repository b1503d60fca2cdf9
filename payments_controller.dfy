/**
 * The payments controller. Its two handlers, `getPayment` and
 * `processPayment`, answer the service's outcome with the same `if` chain.
 */
module PaymentsController {
  import opened Model
  import opened Http
  import PaymentsService

  /** NotFoundError is 404, UnauthorizedError 401, anything else (InvalidBody among them) 400. */
  function ErrorStatus(e: ErrorKind): (s: int)
    ensures s == NOT_FOUND <==> e == NotFound
    ensures s == UNAUTHORIZED <==> e == Unauthorized
    ensures s == NOT_FOUND || s == UNAUTHORIZED || s == BAD_REQUEST
  {
    if e == NotFound then NOT_FOUND
    else if e == Unauthorized then UNAUTHORIZED
    else BAD_REQUEST
  }

  /** Either handler: 200 with the payment record, or the error's status alone. */
  function PaymentResponse(outcome: Result<Payment>): (res: Response<Payment>)
    ensures res.Send? <==> outcome.Ok?
    ensures outcome.Ok? ==> res.status == OK && res.body == outcome.value
    ensures outcome.Err? ==> res == SendStatus(ErrorStatus(outcome.error))
  {
    match outcome
    case Ok(payment) => Send(OK, payment)
    case Err(e) => SendStatus(ErrorStatus(e))
  }

  /** GET /payments with a missing, non-numeric or zero ticket id is answered 400. */
  lemma FalsyTicketIdIsBadRequest(t: Tables, ticketId: Option<int>, userId: int)
    requires Consistent(t)
    requires Falsy(ticketId)
    ensures PaymentResponse(PaymentsService.GetPayment(t, ticketId, userId)) == SendStatus(BAD_REQUEST)
  {
  }

  /** GET /payments for another user's ticket is answered 401, whether or not it has a payment. */
  lemma ForeignTicketIsUnauthorized(t: Tables, ticketId: int, userId: int)
    requires Consistent(t)
    requires ticketId != 0 && ticketId in t.tickets
    requires PaymentsService.TicketOwner(t, ticketId) != userId
    ensures PaymentResponse(PaymentsService.GetPayment(t, Some(ticketId), userId)) == SendStatus(UNAUTHORIZED)
  {
  }
}
