/**
 * The room repository: a room fetched together with the bookings that
 * reference it. The number of those bookings is the room's occupancy, the
 * figure the bookings service compares with the room's capacity. (The
 * service reads that figure as `_count.Booking`, which this query does not
 * select; the model takes the length of the included list instead.)
 */
module RoomRepository {
  import opened Model
  import Lookup

  /** A room with its `Booking` relation included, keyed by booking id. */
  datatype RoomWithBookings = RoomWithBookings(room: Room, bookings: map<int, Booking>)

  /** The ids of the bookings that reference `roomId`. */
  function BookingIdsIn(bookings: map<int, Booking>, roomId: int): set<int> {
    set k | k in bookings && bookings[k].roomId == roomId
  }

  /** How many bookings reference `roomId`. */
  function Occupancy(bookings: map<int, Booking>, roomId: int): nat {
    |BookingIdsIn(bookings, roomId)|
  }

  /** `findFirst({ where: { id }, include: { Booking: true } })`. */
  function FindRoomById(t: Tables, id: int): (r: Option<RoomWithBookings>)
    requires Consistent(t)
    ensures r.Some? <==> id in t.rooms
    ensures r.Some? ==> r.value.room == t.rooms[id]
    ensures r.Some? ==> forall k :: k in r.value.bookings <==> k in t.bookings && t.bookings[k].roomId == id
    ensures r.Some? ==> forall k :: k in r.value.bookings ==> r.value.bookings[k] == t.bookings[k]
    ensures r.Some? ==> |r.value.bookings| == Occupancy(t.bookings, id)
  {
    match Lookup.FindFirst(t.rooms, (room: Room) => room.id == id)
    case None => None
    case Some(k) =>
      var included := map b | b in t.bookings && t.bookings[b].roomId == id :: t.bookings[b];
      assert included.Keys == BookingIdsIn(t.bookings, id);
      Some(RoomWithBookings(t.rooms[k], included))
  }

  /** Inserting a booking under a fresh id adds one to the occupancy of its room and no other. */
  lemma OccupancyAfterInsert(bookings: map<int, Booking>, b: Booking, roomId: int)
    requires b.id !in bookings
    ensures Occupancy(bookings[b.id := b], roomId) == Occupancy(bookings, roomId) + (if b.roomId == roomId then 1 else 0)
  {
    var after := bookings[b.id := b];
    if b.roomId == roomId {
      assert BookingIdsIn(after, roomId) == BookingIdsIn(bookings, roomId) + {b.id};
    } else {
      assert BookingIdsIn(after, roomId) == BookingIdsIn(bookings, roomId);
    }
  }

  /**
   * Moving booking `id` to room `to` adds one to the occupancy of `to` and
   * takes one from the room it left; moving it to the room it is in changes nothing.
   */
  lemma OccupancyAfterMove(bookings: map<int, Booking>, id: int, to: int, roomId: int)
    requires id in bookings
    ensures var from := bookings[id].roomId;
      Occupancy(bookings[id := bookings[id].(roomId := to)], roomId)
        == Occupancy(bookings, roomId) + (if to == roomId then 1 else 0) - (if from == roomId then 1 else 0)
  {
    var from := bookings[id].roomId;
    var after := bookings[id := bookings[id].(roomId := to)];
    var before := BookingIdsIn(bookings, roomId);
    var others := before - {id};
    assert BookingIdsIn(after, roomId) == if to == roomId then others + {id} else others;
    if from == roomId {
      assert before == others + {id};
    } else {
      assert before == others;
    }
  }
}
