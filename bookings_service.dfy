/**
 * The bookings service: the eligibility chain that gates hotel bookings, the
 * user's booking lookup, and the two operations that put a booking in a room.
 */
module BookingsService {
  import opened Model
  import opened Store
  import EnrollmentRepository
  import TicketRepository
  import RoomRepository
  import BookingRepository

  /**
   * `hasValidEnrollment`: four checks in order (an enrollment, a ticket of
   * it, the ticket paid, its type hotel-inclusive and in person); each
   * failure raises AccessDenied.
   */
  function HasValidEnrollment(t: Tables, userId: int): (r: Outcome)
    requires Consistent(t)
    ensures r == Pass || r == Fail(AccessDenied)
  {
    match EnrollmentRepository.FindEnrollmentByUserId(t, userId)
    case None => Fail(AccessDenied)
    case Some(enrollment) =>
      match TicketRepository.FindTicketByEnrollmentId(t, enrollment.id)
      case None => Fail(AccessDenied)
      case Some(found) =>
        if found.ticket.status != Paid then Fail(AccessDenied)
        else if !found.ticketType.includesHotel || found.ticketType.isRemote then Fail(AccessDenied)
        else Pass
  }

  /** Ticket `k` is a paid, in-person, hotel-inclusive ticket on enrollment `e` of `userId`. */
  ghost predicate Entitles(t: Tables, userId: int, e: int, k: int)
    requires Consistent(t)
  {
    && e in t.enrollments && k in t.tickets
    && t.enrollments[e].userId == userId
    && t.tickets[k].enrollmentId == e
    && t.tickets[k].status == Paid
    && t.ticketTypes[t.tickets[k].ticketTypeId].includesHotel
    && !t.ticketTypes[t.tickets[k].ticketTypeId].isRemote
  }

  /** The user holds a ticket that entitles them to a hotel room. */
  ghost predicate HotelEntitled(t: Tables, userId: int)
    requires Consistent(t)
  {
    exists e, k :: Entitles(t, userId, e, k)
  }

  /** Whenever the chain passes, the user holds an entitling ticket. */
  lemma EligibilitySound(t: Tables, userId: int)
    requires Consistent(t)
    ensures HasValidEnrollment(t, userId) == Pass ==> HotelEntitled(t, userId)
  {
    if HasValidEnrollment(t, userId) == Pass {
      var enrollment := EnrollmentRepository.FindEnrollmentByUserId(t, userId).value;
      var found := TicketRepository.FindTicketByEnrollmentId(t, enrollment.id).value;
      assert Entitles(t, userId, enrollment.id, found.ticket.id);
    }
  }

  /**
   * With one enrollment per user and one ticket per enrollment, the chain
   * passes exactly when the user holds an entitling ticket. (Without them
   * the verdict depends on which row the lookups pick.)
   */
  lemma EligibilityExact(t: Tables, userId: int)
    requires Consistent(t)
    requires OneEnrollmentPerUser(t) && OneTicketPerEnrollment(t)
    ensures HasValidEnrollment(t, userId) == Pass <==> HotelEntitled(t, userId)
  {
    EligibilitySound(t, userId);
    if HotelEntitled(t, userId) {
      var e, k :| Entitles(t, userId, e, k);
      var enrollment := EnrollmentRepository.FindEnrollmentByUserId(t, userId);
      assert enrollment == Some(t.enrollments[e]);
      var found := TicketRepository.FindTicketByEnrollmentId(t, e);
      assert found.Some? && found.value.ticket == t.tickets[k];
    }
  }

  /** No room holds more bookings than its capacity. */
  ghost predicate WithinCapacity(t: Tables) {
    forall id :: id in t.rooms ==> RoomRepository.Occupancy(t.bookings, id) <= t.rooms[id].capacity
  }

  /** Adding a booking to a room that is not full keeps every room within capacity. */
  lemma InsertKeepsCapacity(t: Tables, b: Booking)
    requires b.id !in t.bookings && b.roomId in t.rooms
    requires RoomRepository.Occupancy(t.bookings, b.roomId) != t.rooms[b.roomId].capacity
    ensures WithinCapacity(t) ==> WithinCapacity(t.(bookings := t.bookings[b.id := b]))
  {
    forall id | id in t.rooms {
      RoomRepository.OccupancyAfterInsert(t.bookings, b, id);
    }
  }

  /** Moving a booking into a room that is not full keeps every room within capacity. */
  lemma MoveKeepsCapacity(t: Tables, id: int, to: int)
    requires id in t.bookings && to in t.rooms
    requires RoomRepository.Occupancy(t.bookings, to) != t.rooms[to].capacity
    ensures WithinCapacity(t) ==> WithinCapacity(t.(bookings := t.bookings[id := t.bookings[id].(roomId := to)]))
  {
    forall roomId | roomId in t.rooms {
      RoomRepository.OccupancyAfterMove(t.bookings, id, to, roomId);
    }
  }

  /** `getBookingByUser`: the eligibility chain first, then the user's booking with its room. */
  function GetBookingByUser(t: Tables, userId: int): (r: Result<BookingRepository.BookingWithRoom>)
    requires Consistent(t)
    ensures HasValidEnrollment(t, userId).Fail? ==> r == Err(AccessDenied)
    ensures HasValidEnrollment(t, userId).Pass? && (forall k :: k in t.bookings ==> t.bookings[k].userId != userId) ==>
      r == Err(NotFound)
    ensures (HasValidEnrollment(t, userId).Pass? && exists k :: k in t.bookings && t.bookings[k].userId == userId) ==> r.Ok?
    ensures r.Err? ==> r.error == AccessDenied || r.error == NotFound
    ensures r.Ok? ==> HotelEntitled(t, userId)
    ensures r.Ok? ==> r.value.booking.id in t.bookings && t.bookings[r.value.booking.id] == r.value.booking
    ensures r.Ok? ==> r.value.booking.userId == userId && r.value.room == t.rooms[r.value.booking.roomId]
  {
    EligibilitySound(t, userId);
    match HasValidEnrollment(t, userId)
    case Fail(e) => Err(e)
    case Pass =>
      match BookingRepository.FindBookingByUserId(t, userId)
      case None => Err(NotFound)
      case Some(booking) => Ok(booking)
  }

  /**
   * `postBooking`: the eligibility chain, then the room (NotFound when
   * missing), then its capacity (AccessDenied when its booking count equals
   * its capacity), then a new booking. It does not look at the bookings the
   * user already holds. The source compares `room._count.Booking`, a count
   * the room lookup does not select; the model reads it as the number of
   * bookings the lookup includes.
   */
  method PostBooking(db: Database, userId: int, roomId: int) returns (r: Result<Booking>)
    requires db.Valid()
    modifies db`bookings, db`nextBookingId
    ensures db.Valid()
    ensures r.Err? ==> unchanged(db)
    ensures HasValidEnrollment(old(db.Snapshot()), userId).Fail? ==> r == Err(AccessDenied)
    ensures HasValidEnrollment(old(db.Snapshot()), userId).Pass? && roomId !in db.rooms ==> r == Err(NotFound)
    ensures (HasValidEnrollment(old(db.Snapshot()), userId).Pass? && roomId in db.rooms
      && RoomRepository.Occupancy(old(db.bookings), roomId) == db.rooms[roomId].capacity) ==> r == Err(AccessDenied)
    ensures r.Ok? <==> (HasValidEnrollment(old(db.Snapshot()), userId).Pass? && roomId in db.rooms
      && RoomRepository.Occupancy(old(db.bookings), roomId) != db.rooms[roomId].capacity)
    ensures r.Ok? ==>
      && r.value == Booking(old(db.nextBookingId), userId, roomId)
      && r.value.id !in old(db.bookings)
      && db.bookings == old(db.bookings)[r.value.id := r.value]
    ensures WithinCapacity(old(db.Snapshot())) ==> WithinCapacity(db.Snapshot())
  {
    var t := db.Snapshot();
    var eligibility := HasValidEnrollment(t, userId);
    if eligibility.Fail? {
      return Err(eligibility.error);
    }
    var room := RoomRepository.FindRoomById(t, roomId);
    if room.None? {
      return Err(NotFound);
    }
    if |room.value.bookings| == room.value.room.capacity {
      return Err(AccessDenied);
    }
    r := BookingRepository.CreateBooking(db, userId, roomId);
    InsertKeepsCapacity(t, r.value);
  }

  /**
   * `updateBooking`: no eligibility check; the booking must exist and belong
   * to the user (AccessDenied otherwise, also when it is missing), the target
   * room must exist (NotFound) and not be full (AccessDenied, with the
   * room's fullness read as in `PostBooking`); then the booking's room is
   * rewritten in place, keeping its id and user.
   */
  method UpdateBooking(db: Database, userId: int, bookingId: int, roomId: int) returns (r: Result<Booking>)
    requires db.Valid()
    modifies db`bookings
    ensures db.Valid()
    ensures r.Err? ==> unchanged(db)
    ensures bookingId !in old(db.bookings) ==> r == Err(AccessDenied)
    ensures bookingId in old(db.bookings) && old(db.bookings)[bookingId].userId != userId ==> r == Err(AccessDenied)
    ensures bookingId in old(db.bookings) && old(db.bookings)[bookingId].userId == userId && roomId !in db.rooms ==>
      r == Err(NotFound)
    ensures (bookingId in old(db.bookings) && old(db.bookings)[bookingId].userId == userId && roomId in db.rooms
      && RoomRepository.Occupancy(old(db.bookings), roomId) == db.rooms[roomId].capacity) ==> r == Err(AccessDenied)
    ensures r.Ok? <==> (bookingId in old(db.bookings) && old(db.bookings)[bookingId].userId == userId
      && roomId in db.rooms && RoomRepository.Occupancy(old(db.bookings), roomId) != db.rooms[roomId].capacity)
    ensures r.Ok? ==>
      && r.value == Booking(bookingId, userId, roomId)
      && db.bookings == old(db.bookings)[bookingId := r.value]
    ensures WithinCapacity(old(db.Snapshot())) ==> WithinCapacity(db.Snapshot())
  {
    var t := db.Snapshot();
    var booking := BookingRepository.FindBookingById(t, bookingId);
    if booking.None? {
      return Err(AccessDenied);
    }
    if booking.value.userId != userId {
      return Err(AccessDenied);
    }
    var room := RoomRepository.FindRoomById(t, roomId);
    if room.None? {
      return Err(NotFound);
    }
    if |room.value.bookings| == room.value.room.capacity {
      return Err(AccessDenied);
    }
    r := BookingRepository.UpdateBooking(db, booking.value.id, roomId);
    MoveKeepsCapacity(t, bookingId, roomId);
  }
}
