/** The flight routes: creation (seat generation and counter initialisation), the public
    search with its price filter and availability annotation, update and soft delete.
    The database query of the search (the case-insensitive text matches and the date
    window) is the parameter `matches`. */
module Flights {
  import opened Common
  import opened Text
  import opened FlightModel
  import opened Db
  import opened Auth

  /** The `count` seats of class `c`, numbered `<initial>1` .. `<initial>count`, unbooked. */
  function Units(c: SeatClass, count: nat): (r: seq<Seat>)
    ensures |r| == count
    ensures forall k | 0 <= k < count :: r[k] == Seat(UnitLabel(ClassName(c), k + 1), c, false, None)
  {
    if count == 0 then [] else Units(c, count - 1) + [Seat(UnitLabel(ClassName(c), count), c, false, None)]
  }

  /** The seat list of a new flight: economy, then business, then first class. */
  function GenerateSeats(economy: nat, business: nat, first: nat): seq<Seat> {
    Units(Economy, economy) + Units(Business, business) + Units(First, first)
  }

  /** The seats of one class are that class, unbooked, and as many as requested. */
  lemma {:induction false} UnitsCount(c: SeatClass, count: nat, d: SeatClass)
    ensures ClassSize(Units(c, count), d) == (if c == d then count else 0)
    ensures BookedCount(Units(c, count), d) == 0
  {
    if count > 0 {
      UnitsCount(c, count - 1, d);
      var last := Seat(UnitLabel(ClassName(c), count), c, false, None);
      CountsOfConcat(Units(c, count - 1), [last], d);
      assert [last][1..] == [];
    }
  }

  /** The initial of each class name, which prefixes its seat numbers. */
  lemma Initials()
    ensures ToUpper(ClassName(Economy)[0]) == 'E'
    ensures ToUpper(ClassName(Business)[0]) == 'B'
    ensures ToUpper(ClassName(First)[0]) == 'F'
  {
  }

  /** A generated seat list holds `economy`, `business` and `first` seats of the three
      classes, none booked, and no two seats share a number. */
  lemma GeneratedSeats(economy: nat, business: nat, first: nat)
    ensures var seats := GenerateSeats(economy, business, first);
      && UniqueSeatNumbers(seats)
      && HoldersLinked(seats)
      && ClassSize(seats, Economy) == economy
      && ClassSize(seats, Business) == business
      && ClassSize(seats, First) == first
      && forall c: SeatClass :: BookedCount(seats, c) == 0
  {
    var seats := GenerateSeats(economy, business, first);
    forall c: SeatClass
      ensures ClassSize(seats, c) == (if c == Economy then economy else if c == Business then business else first)
      ensures BookedCount(seats, c) == 0
    {
      UnitsCount(Economy, economy, c);
      UnitsCount(Business, business, c);
      UnitsCount(First, first, c);
      CountsOfConcat(Units(Economy, economy), Units(Business, business), c);
      CountsOfConcat(Units(Economy, economy) + Units(Business, business), Units(First, first), c);
    }
    Initials();
    forall i, j | 0 <= i < j < |seats| ensures seats[i].seatNumber != seats[j].seatNumber {
      var (ci, ki) := Position(economy, business, first, i);
      var (cj, kj) := Position(economy, business, first, j);
      assert ci != cj || ki != kj;
      UnitLabelDistinct(ClassName(ci), ki, ClassName(cj), kj);
    }
  }

  /** Where class `c` starts in a generated list. */
  function Offset(economy: nat, business: nat, c: SeatClass): nat {
    match c
    case Economy => 0
    case Business => economy
    case First => economy + business
  }

  /** Where position `i` of a generated list falls: its class and its number within it. */
  function Position(economy: nat, business: nat, first: nat, i: nat): (r: (SeatClass, nat))
    requires i < economy + business + first
    ensures r.1 >= 1 && i == Offset(economy, business, r.0) + r.1 - 1
    ensures GenerateSeats(economy, business, first)[i] == Seat(UnitLabel(ClassName(r.0), r.1), r.0, false, None)
  {
    if i < economy then (Economy, i + 1)
    else if i < economy + business then (Business, i - economy + 1)
    else (First, i - economy - business + 1)
  }

  /** `Math.round(ms / 60000)`: the whole number of minutes nearest to `ms`, halves
      rounding up. */
  function Minutes(ms: int): (m: int)
    ensures m * 60000 - 30000 <= ms < m * 60000 + 30000
  {
    (ms + 30000) / 60000
  }

  /** The body of a create request, after express-validator's sanitizers. */
  datatype FlightForm = FlightForm(
    flightNumber: string,
    airline: string,
    source: string,
    destination: string,
    departureTime: int,
    arrivalTime: int,
    economyPrice: real,
    businessPrice: real,
    firstClassPrice: real,
    economyTotal: int,
    businessTotal: int,
    firstClassTotal: int,
    isRefundable: Option<bool>,
    cancellationFee: Option<real>)

  /** The create route's validators: required text present, prices and seat totals
      non-negative. */
  predicate FormValid(form: FlightForm) {
    && form.flightNumber != "" && form.airline != "" && form.source != "" && form.destination != ""
    && form.economyPrice >= 0.0 && form.businessPrice >= 0.0 && form.firstClassPrice >= 0.0
    && form.economyTotal >= 0 && form.businessTotal >= 0 && form.firstClassTotal >= 0
  }

  /** The flight document the create route builds from a valid form. It satisfies the
      inventory invariant, and the two optional fields take their defaults. */
  function NewFlight(form: FlightForm, creator: Id, now: int): (f: Flight)
    requires FormValid(form)
    ensures Consistent(f) && PricesValid(f)
    ensures forall c: SeatClass :: ClassSeats(f, c).available == ClassSeats(f, c).total
    ensures f.isRefundable == (form.isRefundable.None? || form.isRefundable.value)
    ensures f.cancellationFee == (if form.cancellationFee.Some? then form.cancellationFee.value else 0.0)
    ensures f.status == FlightActive && f.createdBy == creator
    ensures f.duration * 60000 - 30000 <= f.arrivalTime - f.departureTime < f.duration * 60000 + 30000
  {
    GeneratedSeats(form.economyTotal, form.businessTotal, form.firstClassTotal);
    Flight(
      flightNumber := form.flightNumber,
      airline := form.airline,
      source := form.source,
      destination := form.destination,
      departureTime := form.departureTime,
      arrivalTime := form.arrivalTime,
      duration := Minutes(form.arrivalTime - form.departureTime),
      economyPrice := form.economyPrice,
      businessPrice := form.businessPrice,
      firstClassPrice := form.firstClassPrice,
      economySeats := Counter(form.economyTotal, form.economyTotal),
      businessSeats := Counter(form.businessTotal, form.businessTotal),
      firstClassSeats := Counter(form.firstClassTotal, form.firstClassTotal),
      seats := GenerateSeats(form.economyTotal, form.businessTotal, form.firstClassTotal),
      isRefundable := if form.isRefundable.Some? then form.isRefundable.value else true,
      cancellationFee := if form.cancellationFee.Some? then form.cancellationFee.value else 0.0,
      createdBy := creator,
      createdAt := now,
      status := FlightActive)
  }

  /** Whether some stored flight already carries this flight number (the unique index). */
  predicate NumberTaken(flights: map<Id, Flight>, flightNumber: string) {
    exists id | id in flights :: flights[id].flightNumber == flightNumber
  }

  /** `POST /api/flights`: a verified agent or an admin adds a flight under a fresh id. */
  function CreateFlight(s: Store, u: User, form: FlightForm, id: Id, now: int): (r: Result<Store>)
    requires id !in s.flights
    ensures r.Ok? <==> CheckAgent(s.agents, u).Ok? && FormValid(form) && !NumberTaken(s.flights, form.flightNumber)
    ensures CheckAgent(s.agents, u).Err? ==> r == Err(Forbidden)
    ensures CheckAgent(s.agents, u).Ok? && !FormValid(form) ==> r == Err(BadRequest(InvalidInput))
    ensures CheckAgent(s.agents, u).Ok? && FormValid(form) && NumberTaken(s.flights, form.flightNumber) ==>
      r == Err(BadRequest(DuplicateFlightNumber))
    ensures r.Ok? ==> r.value == s.(flights := s.flights[id := NewFlight(form, u.id, now)])
  {
    var _ :- CheckAgent(s.agents, u);
    if !FormValid(form) then Err(BadRequest(InvalidInput))
    else if NumberTaken(s.flights, form.flightNumber) then Err(BadRequest(DuplicateFlightNumber))
    else Ok(s.(flights := s.flights[id := NewFlight(form, u.id, now)]))
  }

  /** Every flight a create request stores satisfies the inventory invariant. */
  lemma CreatePreservesConsistency(s: Store, u: User, form: FlightForm, id: Id, now: int)
    requires id !in s.flights
    requires forall k | k in s.flights :: Consistent(s.flights[k])
    requires CreateFlight(s, u, form, id, now).Ok?
    ensures var t := CreateFlight(s, u, form, id, now).value;
      forall k | k in t.flights :: Consistent(t.flights[k])
  {
  }

  // ----- search -----

  /** The query string of a search. An empty query value is modelled as absent. */
  datatype FlightQuery = FlightQuery(
    flightClass: Option<string>,
    minPrice: Option<real>,
    maxPrice: Option<real>,
    passengers: int,
    refundable: Option<string>)

  /** The database filter: active flights, of the requested refundability, matching the
      text and date conditions. */
  predicate Selected(f: Flight, q: FlightQuery, matches: Flight -> bool) {
    && f.status == FlightActive
    && (q.refundable.None? || f.isRefundable == (q.refundable.value == "true"))
    && matches(f)
  }

  /** The price the filter compares: that of the named class, or the cheapest of the three
      when no recognised class is named. */
  function FilterPrice(f: Flight, flightClass: Option<string>): (p: real)
    ensures flightClass == Some("economy") ==> p == ClassPrice(f, Economy)
    ensures flightClass == Some("business") ==> p == ClassPrice(f, Business)
    ensures flightClass == Some("first") ==> p == ClassPrice(f, First)
    ensures flightClass.None? ==> forall c: SeatClass :: p <= ClassPrice(f, c)
    ensures flightClass.None? ==> exists c: SeatClass :: p == ClassPrice(f, c)
  {
    if flightClass == Some("economy") then f.economyPrice
    else if flightClass == Some("business") then f.businessPrice
    else if flightClass == Some("first") then f.firstClassPrice
    else
      var p := Min(Min(f.economyPrice, f.businessPrice), f.firstClassPrice);
      assert p == ClassPrice(f, Economy) || p == ClassPrice(f, Business) || p == ClassPrice(f, First);
      p
  }

  /** The inclusive, optional price bounds. */
  predicate InRange(price: real, minPrice: Option<real>, maxPrice: Option<real>) {
    (minPrice.None? || price >= minPrice.value) && (maxPrice.None? || price <= maxPrice.value)
  }

  /** Whether the search keeps flight `f`. The price test runs only when a bound or a
      class is given. */
  predicate Kept(f: Flight, q: FlightQuery, matches: Flight -> bool) {
    && Selected(f, q, matches)
    && (q.minPrice.Some? || q.maxPrice.Some? || q.flightClass.Some? ==>
          InRange(FilterPrice(f, q.flightClass), q.minPrice, q.maxPrice))
  }

  /** The stored flights the search keeps, in their stored order. */
  function Candidates(flights: seq<Flight>, q: FlightQuery, matches: Flight -> bool): (r: seq<Flight>)
    ensures |r| <= |flights|
    ensures forall f :: f in r <==> f in flights && Kept(f, q, matches)
  {
    if |flights| == 0 then []
    else
      var rest := Candidates(flights[1..], q, matches);
      assert forall f | f in flights :: f == flights[0] || f in flights[1..];
      if Kept(flights[0], q, matches) then [flights[0]] + rest else rest
  }

  /** A search result: the flight, whether enough seats are free, and the quoted price
      (`None` for a key that names no field, which JSON renders as absent). */
  datatype FlightHit = FlightHit(flight: Flight, available: bool, price: Option<real>)

  /** The annotation of one flight; `None` when the counter lookup throws because
      `${class}Seats` names no field of the document. */
  function Annotation(f: Flight, q: FlightQuery): Option<FlightHit> {
    if q.flightClass.None? then Some(FlightHit(f, true, Some(f.economyPrice)))
    else match CounterAt(f, q.flightClass.value + "Seats")
      case None => None
      case Some(k) => Some(FlightHit(f, k.available >= q.passengers, PriceAt(f, q.flightClass.value + "Price")))
  }

  /** The availability map over the kept flights; one failed lookup fails the request. */
  function Annotate(fs: seq<Flight>, q: FlightQuery): (r: Result<seq<FlightHit>>)
    ensures r.Ok? <==> forall k | 0 <= k < |fs| :: Annotation(fs[k], q).Some?
    ensures r.Err? ==> r.error == Internal
    ensures r.Ok? ==> |r.value| == |fs| && forall k | 0 <= k < |fs| :: r.value[k] == Annotation(fs[k], q).value
  {
    if |fs| == 0 then Ok([])
    else match Annotation(fs[0], q)
      case None => Err(Internal)
      case Some(h) =>
        match Annotate(fs[1..], q)
        case Err(e) => Err(e)
        case Ok(rest) =>
          assert forall k | 1 <= k < |fs| :: fs[k] == fs[1..][k - 1];
          Ok([h] + rest)
  }

  /** `GET /api/flights/search`. */
  function SearchFlights(flights: seq<Flight>, q: FlightQuery, matches: Flight -> bool): Result<seq<FlightHit>> {
    Annotate(Candidates(flights, q, matches), q)
  }

  /** With class `economy` or `business` the search succeeds; it returns exactly the kept
      flights, quoting the class price and flagging whether that class has a seat for each
      passenger. */
  lemma SearchByClass(flights: seq<Flight>, q: FlightQuery, matches: Flight -> bool, c: SeatClass)
    requires c != First && q.flightClass == Some(ClassName(c))
    ensures var r := SearchFlights(flights, q, matches);
      && r.Ok?
      && (forall f :: (exists h | h in r.value :: h.flight == f) <==>
            f in flights && Selected(f, q, matches) && InRange(ClassPrice(f, c), q.minPrice, q.maxPrice))
      && (forall h | h in r.value ::
            && h.price == Some(ClassPrice(h.flight, c))
            && (h.available <==> ClassSeats(h.flight, c).available >= q.passengers))
  {
    var fs := Candidates(flights, q, matches);
    forall f: Flight | f in flights
      ensures Kept(f, q, matches) <==> Selected(f, q, matches) && InRange(ClassPrice(f, c), q.minPrice, q.maxPrice)
      ensures Annotation(f, q) == Some(FlightHit(f, ClassSeats(f, c).available >= q.passengers, Some(ClassPrice(f, c))))
    {
      EnumKeysResolve(f, c);
      assert FilterPrice(f, q.flightClass) == ClassPrice(f, c) by {
        match c
        case Economy =>
        case Business =>
      }
    }
    var r := SearchFlights(flights, q, matches);
    forall f | f in flights && Selected(f, q, matches) && InRange(ClassPrice(f, c), q.minPrice, q.maxPrice)
      ensures exists h | h in r.value :: h.flight == f
    {
      var k :| 0 <= k < |fs| && fs[k] == f;
      assert r.value[k] in r.value;
    }
  }

  /** With class `first` the search fails with 500 as soon as any flight is kept:
      `firstSeats` names no field of a flight. */
  lemma SearchFirstClassFails(flights: seq<Flight>, q: FlightQuery, matches: Flight -> bool)
    requires q.flightClass == Some("first")
    requires exists f | f in flights :: Selected(f, q, matches) && InRange(f.firstClassPrice, q.minPrice, q.maxPrice)
    ensures SearchFlights(flights, q, matches) == Err(Internal)
  {
    var f :| f in flights && Selected(f, q, matches) && InRange(f.firstClassPrice, q.minPrice, q.maxPrice);
    var fs := Candidates(flights, q, matches);
    assert f in fs;
    var k :| 0 <= k < |fs| && fs[k] == f;
    EnumKeysResolve(f, First);
    assert SeatsKey(EnumNaming, First) == "first" + "Seats";
  }

  /** Without a class every kept flight is reported available at its economy price, and
      the price bounds apply to its cheapest class. */
  lemma SearchWithoutClass(flights: seq<Flight>, q: FlightQuery, matches: Flight -> bool)
    requires q.flightClass.None?
    ensures var r := SearchFlights(flights, q, matches);
      && r.Ok?
      && (forall f :: (exists h | h in r.value :: h.flight == f) <==>
            f in flights && Selected(f, q, matches) && InRange(FilterPrice(f, None), q.minPrice, q.maxPrice))
      && (forall h | h in r.value :: h.available && h.price == Some(h.flight.economyPrice))
  {
    var fs := Candidates(flights, q, matches);
    var r := SearchFlights(flights, q, matches);
    forall f | f in flights && Selected(f, q, matches) && InRange(FilterPrice(f, None), q.minPrice, q.maxPrice)
      ensures exists h | h in r.value :: h.flight == f
    {
      var k :| 0 <= k < |fs| && fs[k] == f;
      assert r.value[k] in r.value;
    }
  }

  // ----- update and delete -----

  /** One key of an update body, typed by the field it names. */
  datatype FlightEdit =
    | IdEdit(id: Id)
    | FlightNumberEdit(text: string)
    | AirlineEdit(text: string)
    | SourceEdit(text: string)
    | DestinationEdit(text: string)
    | DepartureEdit(time: int)
    | ArrivalEdit(time: int)
    | DurationEdit(minutes: int)
    | PriceEdit(cls: SeatClass, price: real)
    | CounterEdit(cls: SeatClass, counter: Counter)
    | SeatsEdit(seats: seq<Seat>)
    | RefundableEdit(flag: bool)
    | FeeEdit(fee: real)
    | StatusEdit(status: FlightStatus)
    | CreatedByEdit(user: Id)
    | CreatedAtEdit(time: int)

  /** The keys the update loop skips. */
  predicate Protected(e: FlightEdit) {
    e.IdEdit? || e.CreatedByEdit? || e.CreatedAtEdit?
  }

  /** `flight[key] = value` for one key. The id is the document's key in the store and
      is not a field of the record. */
  function Assign(f: Flight, e: FlightEdit): Flight {
    match e
    case IdEdit(_) => f
    case FlightNumberEdit(x) => f.(flightNumber := x)
    case AirlineEdit(x) => f.(airline := x)
    case SourceEdit(x) => f.(source := x)
    case DestinationEdit(x) => f.(destination := x)
    case DepartureEdit(x) => f.(departureTime := x)
    case ArrivalEdit(x) => f.(arrivalTime := x)
    case DurationEdit(x) => f.(duration := x)
    case PriceEdit(c, x) =>
      (match c
       case Economy => f.(economyPrice := x)
       case Business => f.(businessPrice := x)
       case First => f.(firstClassPrice := x))
    case CounterEdit(c, x) =>
      (match c
       case Economy => f.(economySeats := x)
       case Business => f.(businessSeats := x)
       case First => f.(firstClassSeats := x))
    case SeatsEdit(x) => f.(seats := x)
    case RefundableEdit(x) => f.(isRefundable := x)
    case FeeEdit(x) => f.(cancellationFee := x)
    case StatusEdit(x) => f.(status := x)
    case CreatedByEdit(x) => f.(createdBy := x)
    case CreatedAtEdit(x) => f.(createdAt := x)
  }

  /** The update loop over the body's keys: every key but the protected ones is copied.
      The creator and creation time survive any body. */
  function ApplyEdits(f: Flight, edits: seq<FlightEdit>): (g: Flight)
    ensures g.createdBy == f.createdBy && g.createdAt == f.createdAt
    ensures (forall k | 0 <= k < |edits| :: Protected(edits[k])) ==> g == f
    decreases |edits|
  {
    if |edits| == 0 then f
    else
      var f1 := if Protected(edits[0]) then f else Assign(f, edits[0]);
      ApplyEdits(f1, edits[1..])
  }

  /** Keys are applied in the body's order: a body split in two is the first part applied,
      then the second, so with `ApplyOneEdit` each key's last unprotected edit decides its
      field and protected keys leave theirs alone. */
  lemma {:induction false} ApplyEditsAppend(f: Flight, a: seq<FlightEdit>, b: seq<FlightEdit>)
    ensures ApplyEdits(f, a + b) == ApplyEdits(ApplyEdits(f, a), b)
    decreases |a|
  {
    if |a| == 0 {
      assert a + b == b;
    } else {
      var f1 := if Protected(a[0]) then f else Assign(f, a[0]);
      assert (a + b)[1..] == a[1..] + b;
      ApplyEditsAppend(f1, a[1..], b);
    }
  }

  /** An unprotected key is copied: a body holding one edit sets that field. */
  lemma ApplyOneEdit(f: Flight, e: FlightEdit)
    ensures ApplyEdits(f, [e]) == (if Protected(e) then f else Assign(f, e))
  {
  }

  /** Whether the body names a departure or arrival time. */
  predicate TimesEdited(edits: seq<FlightEdit>) {
    exists k | 0 <= k < |edits| :: edits[k].DepartureEdit? || edits[k].ArrivalEdit?
  }

  /** Agents may touch only flights they created; admins any. */
  predicate MayEdit(u: User, f: Flight) {
    u.role != AgentRole || f.createdBy == u.id
  }

  /** `PUT /api/flights/:id`. Saving re-runs the schema checks (required text fields
      present, prices non-negative) and the unique index on the flight number, whose
      failures reach the error handler. */
  function UpdateFlight(s: Store, u: User, id: Id, edits: seq<FlightEdit>): (r: Result<Store>)
    ensures CheckAgent(s.agents, u).Err? ==> r == Err(Forbidden)
    ensures CheckAgent(s.agents, u).Ok? && id !in s.flights ==> r == Err(NotFound)
    ensures CheckAgent(s.agents, u).Ok? && id in s.flights && !MayEdit(u, s.flights[id]) ==> r == Err(Forbidden)
    ensures r.Ok? ==> id in s.flights && MayEdit(u, s.flights[id]) && CheckAgent(s.agents, u).Ok?
    ensures (&& CheckAgent(s.agents, u).Ok? && id in s.flights && MayEdit(u, s.flights[id])
             && !FieldsPresent(ApplyEdits(s.flights[id], edits))) ==> r == Err(Internal)
    ensures r.Ok? ==> id in r.value.flights && r.value == s.(flights := s.flights[id := r.value.flights[id]])
    ensures r.Ok? ==> var g := r.value.flights[id];
      && g.createdBy == s.flights[id].createdBy
      && g.createdAt == s.flights[id].createdAt
      && PricesValid(g)
      && FieldsPresent(g)
      && (TimesEdited(edits) ==>
            g.duration * 60000 - 30000 <= g.arrivalTime - g.departureTime < g.duration * 60000 + 30000)
  {
    var _ :- CheckAgent(s.agents, u);
    if id !in s.flights then Err(NotFound)
    else
      var f := s.flights[id];
      if !MayEdit(u, f) then Err(Forbidden)
      else
        var g0 := ApplyEdits(f, edits);
        var g := if TimesEdited(edits) then g0.(duration := Minutes(g0.arrivalTime - g0.departureTime)) else g0;
        if !FieldsPresent(g) || !PricesValid(g) then Err(Internal)
        else if exists other | other in s.flights && other != id :: s.flights[other].flightNumber == g.flightNumber
        then Err(Internal)
        else Ok(s.(flights := s.flights[id := g]))
  }

  /** `DELETE /api/flights/:id`: the flight is kept and marked inactive. */
  function DeleteFlight(s: Store, u: User, id: Id): (r: Result<Store>)
    ensures r.Ok? <==> CheckAgent(s.agents, u).Ok? && id in s.flights && MayEdit(u, s.flights[id])
    ensures CheckAgent(s.agents, u).Err? ==> r == Err(Forbidden)
    ensures CheckAgent(s.agents, u).Ok? && id !in s.flights ==> r == Err(NotFound)
    ensures r.Err? && CheckAgent(s.agents, u).Ok? && id in s.flights ==> r == Err(Forbidden)
    ensures r.Ok? ==> r.value == s.(flights := s.flights[id := s.flights[id].(status := FlightInactive)])
  {
    var _ :- CheckAgent(s.agents, u);
    if id !in s.flights then Err(NotFound)
    else if !MayEdit(u, s.flights[id]) then Err(Forbidden)
    else Ok(s.(flights := s.flights[id := s.flights[id].(status := FlightInactive)]))
  }

  /** A deleted flight keeps its document, so old bookings still find it, but it is no
      longer active, and no other flight changes. */
  lemma DeleteDeactivates(s: Store, u: User, id: Id)
    requires DeleteFlight(s, u, id).Ok?
    ensures var t := DeleteFlight(s, u, id).value;
      && t.flights.Keys == s.flights.Keys
      && t.flights[id].status != FlightActive
      && t.flights[id].seats == s.flights[id].seats
      && forall other | other in s.flights && other != id :: t.flights[other] == s.flights[other]
  {
  }
}
