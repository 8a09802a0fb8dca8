/** The hotel routes: creation (room generation and counter initialisation), the public
    search with its price and date-aware availability filter, update and soft delete.
    The database query of the search (the case-insensitive city match) is the parameter
    `matches`. */
module Hotels {
  import opened Common
  import opened Text
  import opened HotelModel
  import opened RoomMarking
  import opened Db
  import opened Auth

  /** The `count` rooms of type `t`, numbered `<initial>1` .. `<initial>count`, vacant. */
  function RoomUnits(t: RoomType, count: nat): (r: seq<Room>)
    ensures |r| == count
    ensures forall k | 0 <= k < count :: r[k] == Room(UnitLabel(TypeName(t), k + 1), t, false, None, None, None)
  {
    if count == 0 then [] else RoomUnits(t, count - 1) + [Room(UnitLabel(TypeName(t), count), t, false, None, None, None)]
  }

  /** The room list of a new hotel: standard, then deluxe, then suite rooms. */
  function GenerateRooms(standard: nat, deluxe: nat, suite: nat): seq<Room> {
    RoomUnits(Standard, standard) + RoomUnits(Deluxe, deluxe) + RoomUnits(Suite, suite)
  }

  lemma {:induction false} RoomUnitsCount(t: RoomType, count: nat, u: RoomType)
    ensures TypeSize(RoomUnits(t, count), u) == (if t == u then count else 0)
    ensures BookedCount(RoomUnits(t, count), u) == 0
  {
    if count > 0 {
      RoomUnitsCount(t, count - 1, u);
      var last := Room(UnitLabel(TypeName(t), count), t, false, None, None, None);
      CountsOfConcat(RoomUnits(t, count - 1), [last], u);
      assert [last][1..] == [];
    }
  }

  /** Where type `t` starts in a generated list. */
  function Offset(standard: nat, deluxe: nat, t: RoomType): nat {
    match t
    case Standard => 0
    case Deluxe => standard
    case Suite => standard + deluxe
  }

  /** Where position `i` of a generated list falls: its type and its number within it. */
  function Position(standard: nat, deluxe: nat, suite: nat, i: nat): (r: (RoomType, nat))
    requires i < standard + deluxe + suite
    ensures r.1 >= 1 && i == Offset(standard, deluxe, r.0) + r.1 - 1
    ensures GenerateRooms(standard, deluxe, suite)[i] == Room(UnitLabel(TypeName(r.0), r.1), r.0, false, None, None, None)
  {
    if i < standard then (Standard, i + 1)
    else if i < standard + deluxe then (Deluxe, i - standard + 1)
    else (Suite, i - standard - deluxe + 1)
  }

  /** A generated room list holds the requested number of rooms of each type, all vacant,
      and no two rooms of one type share a number. */
  lemma GeneratedRooms(standard: nat, deluxe: nat, suite: nat)
    ensures var rooms := GenerateRooms(standard, deluxe, suite);
      && TypeSize(rooms, Standard) == standard
      && TypeSize(rooms, Deluxe) == deluxe
      && TypeSize(rooms, Suite) == suite
      && (forall t: RoomType :: BookedCount(rooms, t) == 0)
      && (forall t: RoomType :: UniqueWithin(rooms, Some(t)))
      && forall k | 0 <= k < |rooms| :: rooms[k] == Vacated(rooms[k])
  {
    var rooms := GenerateRooms(standard, deluxe, suite);
    forall u: RoomType
      ensures TypeSize(rooms, u) == (if u == Standard then standard else if u == Deluxe then deluxe else suite)
      ensures BookedCount(rooms, u) == 0
    {
      RoomUnitsCount(Standard, standard, u);
      RoomUnitsCount(Deluxe, deluxe, u);
      RoomUnitsCount(Suite, suite, u);
      CountsOfConcat(RoomUnits(Standard, standard), RoomUnits(Deluxe, deluxe), u);
      CountsOfConcat(RoomUnits(Standard, standard) + RoomUnits(Deluxe, deluxe), RoomUnits(Suite, suite), u);
    }
    forall t: RoomType ensures UniqueWithin(rooms, Some(t)) {
      forall i, j | 0 <= i < j < |rooms| && InScope(rooms[i], Some(t)) && InScope(rooms[j], Some(t))
        ensures rooms[i].roomNumber != rooms[j].roomNumber
      {
        var (ti, ki) := Position(standard, deluxe, suite, i);
        var (tj, kj) := Position(standard, deluxe, suite, j);
        assert ki != kj;
        UnitLabelDistinct(TypeName(ti), ki, TypeName(tj), kj);
      }
    }
    forall k | 0 <= k < |rooms| ensures rooms[k] == Vacated(rooms[k]) {
      var _ := Position(standard, deluxe, suite, k);
    }
  }

  /** Standard and suite rooms share the initial `S`, so a hotel with rooms of both types
      has two rooms numbered `S1`: numbers are not unique across types. */
  lemma RoomNumbersCollide(standard: nat, deluxe: nat, suite: nat)
    requires standard >= 1 && suite >= 1
    ensures var rooms := GenerateRooms(standard, deluxe, suite);
      && rooms[0].roomNumber == rooms[standard + deluxe].roomNumber == "S1"
      && rooms[0].roomType == Standard && rooms[standard + deluxe].roomType == Suite
      && !UniqueWithin(rooms, None)
  {
    var rooms := GenerateRooms(standard, deluxe, suite);
    var _ := Position(standard, deluxe, suite, 0);
    var _ := Position(standard, deluxe, suite, standard + deluxe);
    assert Show(1, 10) == "1";
  }

  /** The body of a create request, after express-validator's sanitizers. */
  datatype HotelForm = HotelForm(
    name: string,
    city: string,
    address: string,
    description: string,
    rating: Option<real>,
    amenities: seq<string>,
    standardPrice: real,
    deluxePrice: real,
    suitePrice: real,
    standardTotal: int,
    deluxeTotal: int,
    suiteTotal: int,
    isRefundable: Option<bool>,
    cancellationFee: Option<real>,
    images: seq<string>)

  /** The create route's validators: required text present, prices and room totals
      non-negative. The rating is checked only by the schema. */
  predicate FormValid(form: HotelForm) {
    && form.name != "" && form.city != "" && form.address != ""
    && form.standardPrice >= 0.0 && form.deluxePrice >= 0.0 && form.suitePrice >= 0.0
    && form.standardTotal >= 0 && form.deluxeTotal >= 0 && form.suiteTotal >= 0
  }

  /** A room's flag agrees with its holder and stay: all set or all cleared. */
  predicate Linked(r: Room) {
    r.bookedBy.Some? == r.isBooked && r.bookedFrom.Some? == r.isBooked && r.bookedTo.Some? == r.isBooked
  }

  /** The inventory invariant of a hotel: rooms of one type have distinct numbers, a
      room flagged booked has a holder and a stay while an unflagged room has neither,
      and each counter agrees with the flags. */
  predicate Consistent(h: Hotel) {
    && (forall t: RoomType :: UniqueWithin(h.rooms, Some(t)))
    && (forall k | 0 <= k < |h.rooms| :: Linked(h.rooms[k]))
    && CounterMatches(h, Standard) && CounterMatches(h, Deluxe) && CounterMatches(h, Suite)
  }

  /** The hotel document the create route builds from a valid form, before the schema's
      rating bound is checked. */
  function NewHotel(form: HotelForm, creator: Id, now: int): (h: Hotel)
    requires FormValid(form)
    ensures Consistent(h)
    ensures forall t: RoomType :: TypeRooms(h, t).available == TypeRooms(h, t).total
    ensures h.rating == (if form.rating.Some? then form.rating.value else 0.0)
    ensures h.isRefundable == (form.isRefundable.None? || form.isRefundable.value)
    ensures h.cancellationFee == (if form.cancellationFee.Some? then form.cancellationFee.value else 0.0)
    ensures h.status == HotelActive && h.createdBy == creator
  {
    GeneratedRooms(form.standardTotal, form.deluxeTotal, form.suiteTotal);
    Hotel(
      name := form.name,
      city := form.city,
      address := form.address,
      description := form.description,
      rating := if form.rating.Some? then form.rating.value else 0.0,
      amenities := form.amenities,
      standardPrice := form.standardPrice,
      deluxePrice := form.deluxePrice,
      suitePrice := form.suitePrice,
      standardRooms := Counter(form.standardTotal, form.standardTotal),
      deluxeRooms := Counter(form.deluxeTotal, form.deluxeTotal),
      suiteRooms := Counter(form.suiteTotal, form.suiteTotal),
      rooms := GenerateRooms(form.standardTotal, form.deluxeTotal, form.suiteTotal),
      isRefundable := if form.isRefundable.Some? then form.isRefundable.value else true,
      cancellationFee := if form.cancellationFee.Some? then form.cancellationFee.value else 0.0,
      images := form.images,
      createdBy := creator,
      createdAt := now,
      status := HotelActive)
  }

  /** `POST /api/hotels`: a verified agent or an admin adds a hotel under a fresh id. A
      rating outside [0, 5] fails the schema on save and reaches the error handler. */
  function CreateHotel(s: Store, u: User, form: HotelForm, id: Id, now: int): (r: Result<Store>)
    requires id !in s.hotels
    ensures r.Ok? <==> CheckAgent(s.agents, u).Ok? && FormValid(form) && SchemaValid(NewHotel(form, u.id, now))
    ensures CheckAgent(s.agents, u).Err? ==> r == Err(Forbidden)
    ensures CheckAgent(s.agents, u).Ok? && !FormValid(form) ==> r == Err(BadRequest(InvalidInput))
    ensures r.Ok? ==> r.value == s.(hotels := s.hotels[id := NewHotel(form, u.id, now)])
    ensures r.Ok? ==> Consistent(r.value.hotels[id]) && SchemaValid(r.value.hotels[id])
  {
    var _ :- CheckAgent(s.agents, u);
    if !FormValid(form) then Err(BadRequest(InvalidInput))
    else
      var h := NewHotel(form, u.id, now);
      if !SchemaValid(h) then Err(Internal) else Ok(s.(hotels := s.hotels[id := h]))
  }

  // ----- search -----

  /** The query string of a search. An empty query value is modelled as absent. */
  datatype HotelQuery = HotelQuery(
    roomType: Option<string>,
    checkIn: Option<int>,
    checkOut: Option<int>,
    rooms: int,
    minPrice: Option<real>,
    maxPrice: Option<real>,
    minRating: Option<real>,
    refundable: Option<string>)

  /** The database filter: active hotels, rated at least `minRating`, of the requested
      refundability, matching the city condition. */
  predicate Selected(h: Hotel, q: HotelQuery, matches: Hotel -> bool) {
    && h.status == HotelActive
    && (q.minRating.None? || h.rating >= q.minRating.value)
    && (q.refundable.None? || h.isRefundable == (q.refundable.value == "true"))
    && matches(h)
  }

  /** The room type a query names, if it names one. */
  function NamedType(roomType: Option<string>): (t: Option<RoomType>)
    ensures t.Some? <==> roomType.Some? && roomType.value in {"standard", "deluxe", "suite"}
    ensures t.Some? ==> TypeName(t.value) == roomType.value
  {
    if roomType == Some("standard") then Some(Standard)
    else if roomType == Some("deluxe") then Some(Deluxe)
    else if roomType == Some("suite") then Some(Suite)
    else None
  }

  /** The quoted price: that of the named type, or the cheapest of the three. */
  function QuotedPrice(h: Hotel, roomType: Option<string>): (p: real)
    ensures NamedType(roomType).Some? ==> p == TypePrice(h, NamedType(roomType).value)
    ensures NamedType(roomType).None? ==> (forall t: RoomType :: p <= TypePrice(h, t)) && exists t: RoomType :: p == TypePrice(h, t)
  {
    match NamedType(roomType)
    case Some(t) => TypePrice(h, t)
    case None =>
      var p := Min(Min(h.standardPrice, h.deluxePrice), h.suitePrice);
      assert p == TypePrice(h, Standard) || p == TypePrice(h, Deluxe) || p == TypePrice(h, Suite);
      p
  }

  /** The counted availability before dates are considered: that of the named type, or
      the largest of the three. */
  function CountedRooms(h: Hotel, roomType: Option<string>): (n: int)
    ensures NamedType(roomType).Some? ==> n == TypeRooms(h, NamedType(roomType).value).available
    ensures NamedType(roomType).None? ==>
      (forall t: RoomType :: TypeRooms(h, t).available <= n) && exists t: RoomType :: n == TypeRooms(h, t).available
  {
    match NamedType(roomType)
    case Some(t) => TypeRooms(h, t).available
    case None =>
      var n := MaxInt(MaxInt(h.standardRooms.available, h.deluxeRooms.available), h.suiteRooms.available);
      assert n == TypeRooms(h, Standard).available || n == TypeRooms(h, Deluxe).available || n == TypeRooms(h, Suite).available;
      n
  }

  /** 1 when room `r` is flagged booked over a day of the requested stay. */
  function ConflictIn(r: Room, checkIn: int, checkOut: int): nat {
    if r.isBooked && Overlaps(r, checkIn, checkOut) then 1 else 0
  }

  /** The number of flagged rooms, of any type, whose stay overlaps the requested one. */
  function Conflicts(rooms: seq<Room>, checkIn: int, checkOut: int): (n: nat)
    ensures n <= |rooms|
    ensures n == 0 <==> forall k | 0 <= k < |rooms| :: !(rooms[k].isBooked && Overlaps(rooms[k], checkIn, checkOut))
  {
    if |rooms| == 0 then 0
    else
      assert forall k | 1 <= k < |rooms| :: rooms[k] == rooms[1..][k - 1];
      ConflictIn(rooms[0], checkIn, checkOut) + Conflicts(rooms[1..], checkIn, checkOut)
  }

  /** The availability figure the search compares with the requested room count. */
  function AvailableRooms(h: Hotel, q: HotelQuery): int {
    var counted := CountedRooms(h, q.roomType);
    if q.checkIn.Some? && q.checkOut.Some? then counted - Conflicts(h.rooms, q.checkIn.value, q.checkOut.value)
    else counted
  }

  /** A search result: the hotel, its quoted price and whether it has enough rooms. */
  datatype HotelHit = HotelHit(hotel: Hotel, price: real, available: bool)

  /** The annotation of one hotel. */
  function Annotation(h: Hotel, q: HotelQuery): HotelHit {
    HotelHit(h, QuotedPrice(h, q.roomType), AvailableRooms(h, q) >= q.rooms)
  }

  /** Whether the search returns hotel `h`. */
  predicate Returned(h: Hotel, q: HotelQuery, matches: Hotel -> bool) {
    && Selected(h, q, matches)
    && InRange(QuotedPrice(h, q.roomType), q.minPrice, q.maxPrice)
    && AvailableRooms(h, q) >= q.rooms
  }

  /** The inclusive, optional price bounds. */
  predicate InRange(price: real, minPrice: Option<real>, maxPrice: Option<real>) {
    (minPrice.None? || price >= minPrice.value) && (maxPrice.None? || price <= maxPrice.value)
  }

  /** The stored hotels that pass the price and availability filter, in stored order. */
  function ReturnedHotels(hotels: seq<Hotel>, q: HotelQuery, matches: Hotel -> bool): (r: seq<Hotel>)
    ensures |r| <= |hotels|
    ensures forall h :: h in r <==> h in hotels && Returned(h, q, matches)
  {
    if |hotels| == 0 then []
    else
      var rest := ReturnedHotels(hotels[1..], q, matches);
      assert forall h | h in hotels :: h == hotels[0] || h in hotels[1..];
      if Returned(hotels[0], q, matches) then [hotels[0]] + rest else rest
  }

  /** `GET /api/hotels/search`: the returned hotels, each with its quoted price and
      availability flag. Every hotel listed has enough rooms. */
  function SearchHotels(hotels: seq<Hotel>, q: HotelQuery, matches: Hotel -> bool): (r: seq<HotelHit>)
    ensures forall hit | hit in r :: hit == Annotation(hit.hotel, q) && hit.available
    ensures forall h :: (exists hit | hit in r :: hit.hotel == h) <==> h in hotels && Returned(h, q, matches)
  {
    var fs := ReturnedHotels(hotels, q, matches);
    var r := seq(|fs|, k requires 0 <= k < |fs| => Annotation(fs[k], q));
    assert forall k | 0 <= k < |fs| :: fs[k] in fs && Returned(fs[k], q, matches);
    assert forall h | h in fs :: exists hit | hit in r :: hit.hotel == h by {
      forall h | h in fs ensures exists hit | hit in r :: hit.hotel == h {
        var k :| 0 <= k < |fs| && fs[k] == h;
        assert r[k] in r;
      }
    }
    r
  }

  /** Booked rooms whose stay overlaps the requested one lower the figure by one each,
      whatever their type; without both dates nothing is subtracted. */
  lemma DatesOnlySubtract(h: Hotel, q: HotelQuery)
    ensures AvailableRooms(h, q) <= CountedRooms(h, q.roomType)
    ensures q.checkIn.None? || q.checkOut.None? ==> AvailableRooms(h, q) == CountedRooms(h, q.roomType)
    ensures (forall k | 0 <= k < |h.rooms| :: !h.rooms[k].isBooked) ==>
      AvailableRooms(h, q) == CountedRooms(h, q.roomType)
  {
  }

  // ----- update and delete -----

  /** One key of an update body, typed by the field it names. */
  datatype HotelEdit =
    | IdEdit(id: Id)
    | NameEdit(text: string)
    | CityEdit(text: string)
    | AddressEdit(text: string)
    | DescriptionEdit(text: string)
    | RatingEdit(rating: real)
    | AmenitiesEdit(items: seq<string>)
    | PriceEdit(roomType: RoomType, price: real)
    | CounterEdit(roomType: RoomType, counter: Counter)
    | RoomsEdit(rooms: seq<Room>)
    | RefundableEdit(flag: bool)
    | FeeEdit(fee: real)
    | ImagesEdit(items: seq<string>)
    | StatusEdit(status: HotelStatus)
    | CreatedByEdit(user: Id)
    | CreatedAtEdit(time: int)

  /** The keys the update loop skips. */
  predicate Protected(e: HotelEdit) {
    e.IdEdit? || e.CreatedByEdit? || e.CreatedAtEdit?
  }

  /** `hotel[key] = value` for one key. */
  function Assign(h: Hotel, e: HotelEdit): Hotel {
    match e
    case IdEdit(_) => h
    case NameEdit(x) => h.(name := x)
    case CityEdit(x) => h.(city := x)
    case AddressEdit(x) => h.(address := x)
    case DescriptionEdit(x) => h.(description := x)
    case RatingEdit(x) => h.(rating := x)
    case AmenitiesEdit(x) => h.(amenities := x)
    case PriceEdit(t, x) =>
      (match t
       case Standard => h.(standardPrice := x)
       case Deluxe => h.(deluxePrice := x)
       case Suite => h.(suitePrice := x))
    case CounterEdit(t, x) =>
      (match t
       case Standard => h.(standardRooms := x)
       case Deluxe => h.(deluxeRooms := x)
       case Suite => h.(suiteRooms := x))
    case RoomsEdit(x) => h.(rooms := x)
    case RefundableEdit(x) => h.(isRefundable := x)
    case FeeEdit(x) => h.(cancellationFee := x)
    case ImagesEdit(x) => h.(images := x)
    case StatusEdit(x) => h.(status := x)
    case CreatedByEdit(x) => h.(createdBy := x)
    case CreatedAtEdit(x) => h.(createdAt := x)
  }

  /** The update loop over the body's keys: every key but the protected ones is copied. */
  function ApplyEdits(h: Hotel, edits: seq<HotelEdit>): (g: Hotel)
    ensures g.createdBy == h.createdBy && g.createdAt == h.createdAt
    ensures (forall k | 0 <= k < |edits| :: Protected(edits[k])) ==> g == h
    decreases |edits|
  {
    if |edits| == 0 then h
    else
      var h1 := if Protected(edits[0]) then h else Assign(h, edits[0]);
      ApplyEdits(h1, edits[1..])
  }

  /** Keys are applied in the body's order: a body split in two is the first part applied,
      then the second, so with `ApplyOneEdit` each key's last unprotected edit decides its
      field and protected keys leave theirs alone. */
  lemma {:induction false} ApplyEditsAppend(h: Hotel, a: seq<HotelEdit>, b: seq<HotelEdit>)
    ensures ApplyEdits(h, a + b) == ApplyEdits(ApplyEdits(h, a), b)
    decreases |a|
  {
    if |a| == 0 {
      assert a + b == b;
    } else {
      var h1 := if Protected(a[0]) then h else Assign(h, a[0]);
      assert (a + b)[1..] == a[1..] + b;
      ApplyEditsAppend(h1, a[1..], b);
    }
  }

  /** An unprotected key is copied: a body holding one edit sets that field. */
  lemma ApplyOneEdit(h: Hotel, e: HotelEdit)
    ensures ApplyEdits(h, [e]) == (if Protected(e) then h else Assign(h, e))
  {
  }

  /** Agents may touch only hotels they created; admins any. */
  predicate MayEdit(u: User, h: Hotel) {
    u.role != AgentRole || h.createdBy == u.id
  }

  /** `PUT /api/hotels/:id`. Saving re-runs the schema checks (required text fields
      present, rating and prices within bounds), whose failure reaches the error handler. */
  function UpdateHotel(s: Store, u: User, id: Id, edits: seq<HotelEdit>): (r: Result<Store>)
    ensures CheckAgent(s.agents, u).Err? ==> r == Err(Forbidden)
    ensures CheckAgent(s.agents, u).Ok? && id !in s.hotels ==> r == Err(NotFound)
    ensures CheckAgent(s.agents, u).Ok? && id in s.hotels && !MayEdit(u, s.hotels[id]) ==> r == Err(Forbidden)
    ensures r.Ok? ==> id in s.hotels && MayEdit(u, s.hotels[id]) && CheckAgent(s.agents, u).Ok?
    ensures (&& CheckAgent(s.agents, u).Ok? && id in s.hotels && MayEdit(u, s.hotels[id])
             && !FieldsPresent(ApplyEdits(s.hotels[id], edits))) ==> r == Err(Internal)
    ensures r.Ok? ==> id in r.value.hotels && r.value == s.(hotels := s.hotels[id := r.value.hotels[id]])
    ensures r.Ok? ==> var g := r.value.hotels[id];
      && g.createdBy == s.hotels[id].createdBy && g.createdAt == s.hotels[id].createdAt
      && SchemaValid(g) && FieldsPresent(g)
  {
    var _ :- CheckAgent(s.agents, u);
    if id !in s.hotels then Err(NotFound)
    else if !MayEdit(u, s.hotels[id]) then Err(Forbidden)
    else
      var g := ApplyEdits(s.hotels[id], edits);
      if !FieldsPresent(g) || !SchemaValid(g) then Err(Internal) else Ok(s.(hotels := s.hotels[id := g]))
  }

  /** `DELETE /api/hotels/:id`: the hotel is kept and marked inactive. */
  function DeleteHotel(s: Store, u: User, id: Id): (r: Result<Store>)
    ensures r.Ok? <==> CheckAgent(s.agents, u).Ok? && id in s.hotels && MayEdit(u, s.hotels[id])
    ensures CheckAgent(s.agents, u).Err? ==> r == Err(Forbidden)
    ensures CheckAgent(s.agents, u).Ok? && id !in s.hotels ==> r == Err(NotFound)
    ensures r.Err? && CheckAgent(s.agents, u).Ok? && id in s.hotels ==> r == Err(Forbidden)
    ensures r.Ok? ==> r.value == s.(hotels := s.hotels[id := s.hotels[id].(status := HotelInactive)])
  {
    var _ :- CheckAgent(s.agents, u);
    if id !in s.hotels then Err(NotFound)
    else if !MayEdit(u, s.hotels[id]) then Err(Forbidden)
    else Ok(s.(hotels := s.hotels[id := s.hotels[id].(status := HotelInactive)]))
  }
}
