/**
 * The tickets controller. Unlike the other two, its `getTicketByUser` and
 * `postNewTicket` handlers have no fallback branch: an error they do not
 * name leaves the request without a response.
 */
module TicketsController {
  import opened Model
  import opened Http
  import TicketRepository
  import TicketsService

  /** `getTicketTypes`: 200 with the list, 400 on any error. */
  function GetTicketTypes(outcome: Result<seq<TicketType>>): (res: Response<seq<TicketType>>)
    ensures outcome.Ok? ==> res == Send(OK, outcome.value)
    ensures outcome.Err? ==> res == SendStatus(BAD_REQUEST)
  {
    match outcome
    case Ok(types) => Send(OK, types)
    case Err(_) => SendStatus(BAD_REQUEST)
  }

  /** `getTicketByUser`: 200 with the ticket, 404 for NotFoundError, no response for any other error. */
  function GetTicketByUser(outcome: Result<TicketRepository.TicketWithType>): (res: Response<TicketRepository.TicketWithType>)
    ensures outcome.Ok? ==> res == Send(OK, outcome.value)
    ensures res == SendStatus(NOT_FOUND) <==> outcome == Err(NotFound)
    ensures res == NoResponse <==> outcome.Err? && outcome.error != NotFound
  {
    match outcome
    case Ok(ticket) => Send(OK, ticket)
    case Err(e) => if e == NotFound then SendStatus(NOT_FOUND) else NoResponse
  }

  /**
   * `postNewTicket`: 201 with the created ticket, 400 for InvalidBody, 404
   * for NotFoundError, no response for any other error.
   */
  function PostNewTicket(outcome: Result<TicketRepository.TicketWithType>): (res: Response<TicketRepository.TicketWithType>)
    ensures outcome.Ok? ==> res == Send(CREATED, outcome.value)
    ensures res == SendStatus(BAD_REQUEST) <==> outcome == Err(InvalidBody)
    ensures res == SendStatus(NOT_FOUND) <==> outcome == Err(NotFound)
    ensures res == NoResponse <==> outcome.Err? && outcome.error != InvalidBody && outcome.error != NotFound
  {
    match outcome
    case Ok(ticket) => Send(CREATED, ticket)
    case Err(e) =>
      if e == InvalidBody then SendStatus(BAD_REQUEST)
      else if e == NotFound then SendStatus(NOT_FOUND)
      else NoResponse
  }

  /**
   * `postNewTicket` with a fallback to 400, as the other handlers have:
   * every outcome is answered, and the statuses of the named errors are kept.
   */
  function PostNewTicketAnswered(outcome: Result<TicketRepository.TicketWithType>): (res: Response<TicketRepository.TicketWithType>)
    ensures res != NoResponse
    ensures outcome.Ok? ==> res == Send(CREATED, outcome.value)
    ensures outcome == Err(NotFound) <==> res == SendStatus(NOT_FOUND)
    ensures outcome.Err? && outcome.error != NotFound ==> res == SendStatus(BAD_REQUEST)
  {
    match PostNewTicket(outcome)
    case NoResponse => SendStatus(BAD_REQUEST)
    case answered => answered
  }

  /** GET /tickets is always answered: the service raises nothing but NotFoundError. */
  lemma TicketLookupIsAlwaysAnswered(t: Tables, userId: int)
    requires Consistent(t)
    ensures GetTicketByUser(TicketsService.GetTicketByUser(t, userId)) != NoResponse
  {
  }
}
