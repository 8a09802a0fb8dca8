/** The Hotel document: embedded rooms with their booked interval, per-type prices
    and `{total, available}` counters. */
module HotelModel {
  import opened Common

  datatype RoomType = Standard | Deluxe | Suite

  /** The value of the `roomType` enum, which is also what a client sends. */
  function TypeName(t: RoomType): string {
    match t
    case Standard => "standard"
    case Deluxe => "deluxe"
    case Suite => "suite"
  }

  /** One embedded room. `bookedFrom`/`bookedTo` are the stay it is held for (ms). */
  datatype Room = Room(
    roomNumber: string,
    roomType: RoomType,
    isBooked: bool,
    bookedFrom: Option<int>,
    bookedTo: Option<int>,
    bookedBy: Option<Id>)

  datatype HotelStatus = HotelActive | HotelInactive | HotelSuspended

  datatype Hotel = Hotel(
    name: string,
    city: string,
    address: string,
    description: string,
    rating: real,
    amenities: seq<string>,
    standardPrice: real,
    deluxePrice: real,
    suitePrice: real,
    standardRooms: Counter,
    deluxeRooms: Counter,
    suiteRooms: Counter,
    rooms: seq<Room>,
    isRefundable: bool,
    cancellationFee: real,
    images: seq<string>,
    createdBy: Id,
    createdAt: int,
    status: HotelStatus)

  /** The counter the schema keeps for type `t`. */
  function TypeRooms(h: Hotel, t: RoomType): Counter {
    match t
    case Standard => h.standardRooms
    case Deluxe => h.deluxeRooms
    case Suite => h.suiteRooms
  }

  /** The per-night price the schema keeps for type `t`. */
  function TypePrice(h: Hotel, t: RoomType): real {
    match t
    case Standard => h.standardPrice
    case Deluxe => h.deluxePrice
    case Suite => h.suitePrice
  }

  /** `hotel[key]` for a key naming a room counter. */
  function CounterAt(h: Hotel, key: string): Option<Counter> {
    if key == "standardRooms" then Some(h.standardRooms)
    else if key == "deluxeRooms" then Some(h.deluxeRooms)
    else if key == "suiteRooms" then Some(h.suiteRooms)
    else None
  }

  /** `hotel[key] = k` for a key naming a room counter. */
  function SetCounterAt(h: Hotel, key: string, k: Counter): Hotel {
    if key == "standardRooms" then h.(standardRooms := k)
    else if key == "deluxeRooms" then h.(deluxeRooms := k)
    else if key == "suiteRooms" then h.(suiteRooms := k)
    else h
  }

  /** `hotel[key]` for a key naming a price. */
  function PriceAt(h: Hotel, key: string): Option<real> {
    if key == "standardPrice" then Some(h.standardPrice)
    else if key == "deluxePrice" then Some(h.deluxePrice)
    else if key == "suitePrice" then Some(h.suitePrice)
    else None
  }

  function RoomsKey(t: RoomType): string {
    TypeName(t) + "Rooms"
  }

  function PriceKey(t: RoomType): string {
    TypeName(t) + "Price"
  }

  /** Unlike the flight schema, every `${roomType}Rooms`/`${roomType}Price` key names a
      field, and writing through it changes exactly that type's counter. */
  lemma KeysResolve(h: Hotel, t: RoomType, k: Counter)
    ensures CounterAt(h, RoomsKey(t)) == Some(TypeRooms(h, t))
    ensures PriceAt(h, PriceKey(t)) == Some(TypePrice(h, t))
    ensures var g := SetCounterAt(h, RoomsKey(t), k);
      && TypeRooms(g, t) == k
      && (forall u: RoomType | u != t :: TypeRooms(g, u) == TypeRooms(h, u))
      && g.(standardRooms := h.standardRooms, deluxeRooms := h.deluxeRooms, suiteRooms := h.suiteRooms) == h
  {
    match t
    case Standard =>
      assert RoomsKey(t) == "standardRooms";
      assert PriceKey(t) == "standardPrice";
    case Deluxe =>
      assert RoomsKey(t) == "deluxeRooms";
      assert PriceKey(t) == "deluxePrice";
    case Suite =>
      assert RoomsKey(t) == "suiteRooms";
      assert PriceKey(t) == "suitePrice";
  }

  /** 1 when `r` is a booked room of type `t`. */
  function BookedIn(r: Room, t: RoomType): nat {
    if r.isBooked && r.roomType == t then 1 else 0
  }

  /** 1 when `r` is a room of type `t`. */
  function OfType(r: Room, t: RoomType): nat {
    if r.roomType == t then 1 else 0
  }

  /** The number of rooms of type `t` flagged booked. */
  function BookedCount(rooms: seq<Room>, t: RoomType): nat {
    if |rooms| == 0 then 0 else BookedIn(rooms[0], t) + BookedCount(rooms[1..], t)
  }

  /** The number of rooms of type `t`. */
  function TypeSize(rooms: seq<Room>, t: RoomType): nat {
    if |rooms| == 0 then 0 else OfType(rooms[0], t) + TypeSize(rooms[1..], t)
  }

  lemma {:induction false} BookedCountUpdate(rooms: seq<Room>, i: nat, x: Room, t: RoomType)
    requires i < |rooms|
    ensures BookedCount(rooms[i := x], t) == BookedCount(rooms, t) - BookedIn(rooms[i], t) + BookedIn(x, t)
    ensures TypeSize(rooms[i := x], t) == TypeSize(rooms, t) - OfType(rooms[i], t) + OfType(x, t)
  {
    if i == 0 {
      assert rooms[i := x][1..] == rooms[1..];
    } else {
      assert rooms[i := x][1..] == rooms[1..][i - 1 := x];
      BookedCountUpdate(rooms[1..], i - 1, x, t);
    }
  }

  lemma {:induction false} CountsOfConcat(a: seq<Room>, b: seq<Room>, t: RoomType)
    ensures BookedCount(a + b, t) == BookedCount(a, t) + BookedCount(b, t)
    ensures TypeSize(a + b, t) == TypeSize(a, t) + TypeSize(b, t)
  {
    if |a| > 0 {
      assert (a + b)[1..] == a[1..] + b;
      CountsOfConcat(a[1..], b, t);
    } else {
      assert a + b == b;
    }
  }

  /** The counter of type `t` agrees with the rooms' booked flags. */
  predicate CounterMatches(h: Hotel, t: RoomType) {
    && TypeRooms(h, t).total == TypeSize(h.rooms, t)
    && TypeRooms(h, t).available == TypeRooms(h, t).total - BookedCount(h.rooms, t)
  }

  /** Schema bounds on a hotel: rating within [0, 5], prices non-negative. */
  predicate SchemaValid(h: Hotel) {
    && 0.0 <= h.rating <= 5.0
    && h.standardPrice >= 0.0 && h.deluxePrice >= 0.0 && h.suitePrice >= 0.0
  }

  /** The schema's required text fields are present: a saved hotel names itself, its
      city and its address. */
  predicate FieldsPresent(h: Hotel) {
    h.name != "" && h.city != "" && h.address != ""
  }

  /** The inclusive overlap test of a booked room against a requested stay
      (`bookedFrom <= checkOut && bookedTo >= checkIn`). A booked room always carries both
      bounds (`Hotels.Linked`), so a room without them is taken as overlapping nothing. */
  predicate Overlaps(r: Room, checkIn: int, checkOut: int) {
    && r.bookedFrom.Some? && r.bookedTo.Some?
    && r.bookedFrom.value <= checkOut && r.bookedTo.value >= checkIn
  }
}
