/**
 * The bookings controller: each handler turns the service's outcome into a
 * response, with one `switch` on the error name shared by all three.
 */
module BookingsController {
  import opened Model
  import opened Http
  import BookingRepository
  import BookingsService

  /** The body of a successful GET: the booking's id and its room, nothing else. */
  datatype BookingView = BookingView(id: int, room: Room)

  /** The body of a successful POST: `{ bookingId }`. */
  datatype BookingIdBody = BookingIdBody(bookingId: int)

  /** The body of a successful PUT: `{ booking }`, the id under another key than POST's. */
  datatype BookingKeyBody = BookingKeyBody(booking: int)

  /** `switch (error.name)`: AccessDeniedError is 403, NotFoundError 404, anything else 400. */
  function ErrorStatus(e: ErrorKind): (s: int)
    ensures s == FORBIDDEN <==> e == AccessDenied
    ensures s == NOT_FOUND <==> e == NotFound
    ensures s == FORBIDDEN || s == NOT_FOUND || s == BAD_REQUEST
  {
    match e
    case AccessDenied => FORBIDDEN
    case NotFound => NOT_FOUND
    case _ => BAD_REQUEST
  }

  /** `getBooking`: 200 with the booking's id and room, or the error's status alone. */
  function GetBooking(outcome: Result<BookingRepository.BookingWithRoom>): (res: Response<BookingView>)
    ensures res.Send? <==> outcome.Ok?
    ensures outcome.Ok? ==> res.status == OK && res.body == BookingView(outcome.value.booking.id, outcome.value.room)
    ensures outcome.Err? ==> res == SendStatus(ErrorStatus(outcome.error))
  {
    match outcome
    case Ok(found) => Send(OK, BookingView(found.booking.id, found.room))
    case Err(e) => SendStatus(ErrorStatus(e))
  }

  /** `postBooking`: 200 with `{ bookingId }`, or the error's status alone. */
  function PostBooking(outcome: Result<Booking>): (res: Response<BookingIdBody>)
    ensures res.Send? <==> outcome.Ok?
    ensures outcome.Ok? ==> res.status == OK && res.body.bookingId == outcome.value.id
    ensures outcome.Err? ==> res == SendStatus(ErrorStatus(outcome.error))
  {
    match outcome
    case Ok(booking) => Send(OK, BookingIdBody(booking.id))
    case Err(e) => SendStatus(ErrorStatus(e))
  }

  /** `updateBooking`: 200 with `{ booking }`, or the error's status alone. */
  function UpdateBooking(outcome: Result<Booking>): (res: Response<BookingKeyBody>)
    ensures res.Send? <==> outcome.Ok?
    ensures outcome.Ok? ==> res.status == OK && res.body.booking == outcome.value.id
    ensures outcome.Err? ==> res == SendStatus(ErrorStatus(outcome.error))
  {
    match outcome
    case Ok(booking) => Send(OK, BookingKeyBody(booking.id))
    case Err(e) => SendStatus(ErrorStatus(e))
  }

  /**
   * GET /booking by a user who holds no paid, in-person, hotel-inclusive
   * ticket (no enrollment, no ticket, an unpaid ticket, a remote or
   * hotel-less type) is answered 403.
   */
  lemma IneligibleUserIsForbidden(t: Tables, userId: int)
    requires Consistent(t)
    requires !BookingsService.HotelEntitled(t, userId)
    ensures GetBooking(BookingsService.GetBookingByUser(t, userId)) == SendStatus(FORBIDDEN)
  {
    BookingsService.EligibilitySound(t, userId);
  }

  /**
   * GET /booking by an entitled user who holds a booking is answered 200
   * with one of the user's bookings and its room (one enrollment per user
   * and one ticket per enrollment assumed).
   */
  lemma EntitledUserSeesBooking(t: Tables, userId: int, bookingId: int)
    requires Consistent(t) && OneEnrollmentPerUser(t) && OneTicketPerEnrollment(t)
    requires BookingsService.HotelEntitled(t, userId)
    requires bookingId in t.bookings && t.bookings[bookingId].userId == userId
    ensures var res := GetBooking(BookingsService.GetBookingByUser(t, userId));
      && res.Send? && res.status == OK
      && res.body.id in t.bookings && t.bookings[res.body.id].userId == userId
      && res.body.room == t.rooms[t.bookings[res.body.id].roomId]
  {
    BookingsService.EligibilityExact(t, userId);
  }
}
