/** The booking repository: lookups of the bookings table, an insert and an in-place update. */
module BookingRepository {
  import opened Model
  import Lookup
  import opened Store

  /** A booking with its `Room` relation included. */
  datatype BookingWithRoom = BookingWithRoom(booking: Booking, room: Room)

  /** `findFirst({ where: { userId }, include: { Room: true } })`. */
  function FindBookingByUserId(t: Tables, userId: int): (r: Option<BookingWithRoom>)
    requires Consistent(t)
    ensures r.Some? ==> r.value.booking.id in t.bookings && t.bookings[r.value.booking.id] == r.value.booking
    ensures r.Some? ==> r.value.booking.userId == userId
    ensures r.Some? ==> r.value.room == t.rooms[r.value.booking.roomId]
    ensures r.None? <==> forall k :: k in t.bookings ==> t.bookings[k].userId != userId
  {
    match Lookup.FindFirst(t.bookings, (b: Booking) => b.userId == userId)
    case None => None
    case Some(k) => Some(BookingWithRoom(t.bookings[k], t.rooms[t.bookings[k].roomId]))
  }

  /** `findFirst({ where: { id } })`: the booking stored under `id`, or None. */
  function FindBookingById(t: Tables, id: int): (r: Option<Booking>)
    requires Consistent(t)
    ensures r.Some? <==> id in t.bookings
    ensures r.Some? ==> r.value == t.bookings[id]
  {
    match Lookup.FindFirst(t.bookings, (b: Booking) => b.id == id)
    case None => None
    case Some(k) => Some(t.bookings[k])
  }

  /**
   * `create({ data: { userId, roomId } })`: one new row under the next id.
   * The database refuses a `roomId` that names no room.
   */
  method CreateBooking(db: Database, userId: int, roomId: int) returns (r: Result<Booking>)
    requires db.Valid()
    modifies db`bookings, db`nextBookingId
    ensures db.Valid()
    ensures roomId !in db.rooms ==> r == Err(DatabaseError) && unchanged(db)
    ensures roomId in db.rooms ==>
      && r == Ok(Booking(old(db.nextBookingId), userId, roomId))
      && r.value.id !in old(db.bookings)
      && db.bookings == old(db.bookings)[r.value.id := r.value]
  {
    if roomId !in db.rooms {
      return Err(DatabaseError);
    }
    var b := Booking(db.nextBookingId, userId, roomId);
    db.bookings := db.bookings[b.id := b];
    db.nextBookingId := db.nextBookingId + 1;
    r := Ok(b);
  }

  /**
   * `update({ where: { id }, data: { roomId } })`: rewrites the room of one
   * row and nothing else. The database refuses a missing row or a `roomId`
   * that names no room.
   */
  method UpdateBooking(db: Database, id: int, roomId: int) returns (r: Result<Booking>)
    requires db.Valid()
    modifies db`bookings
    ensures db.Valid()
    ensures id !in old(db.bookings) || roomId !in db.rooms ==> r == Err(DatabaseError) && unchanged(db)
    ensures id in old(db.bookings) && roomId in db.rooms ==>
      && r == Ok(old(db.bookings)[id].(roomId := roomId))
      && db.bookings == old(db.bookings)[id := r.value]
  {
    if id !in db.bookings || roomId !in db.rooms {
      return Err(DatabaseError);
    }
    var b := db.bookings[id].(roomId := roomId);
    db.bookings := db.bookings[id := b];
    r := Ok(b);
  }
}
