/** The Flight document: its embedded seats, the per-class price and
    `{total, available}` counters, and the availability invariant those counters
    are meant to keep. */
module FlightModel {
  import opened Common

  datatype SeatClass = Economy | Business | First

  /** The value of the `class` enum, which is also the `flightClass` a client sends. */
  function ClassName(c: SeatClass): string {
    match c
    case Economy => "economy"
    case Business => "business"
    case First => "first"
  }

  /** One embedded seat. `bookedBy` is the id of the booking holding it. */
  datatype Seat = Seat(seatNumber: string, cls: SeatClass, isBooked: bool, bookedBy: Option<Id>)

  datatype FlightStatus = FlightActive | FlightInactive | FlightCancelled

  datatype Flight = Flight(
    flightNumber: string,
    airline: string,
    source: string,
    destination: string,
    departureTime: int,   // milliseconds since the epoch
    arrivalTime: int,
    duration: int,        // minutes
    economyPrice: real,
    businessPrice: real,
    firstClassPrice: real,
    economySeats: Counter,
    businessSeats: Counter,
    firstClassSeats: Counter,
    seats: seq<Seat>,
    isRefundable: bool,
    cancellationFee: real,
    createdBy: Id,
    createdAt: int,
    status: FlightStatus)

  /** The counter the schema keeps for class `c`. */
  function ClassSeats(f: Flight, c: SeatClass): Counter {
    match c
    case Economy => f.economySeats
    case Business => f.businessSeats
    case First => f.firstClassSeats
  }

  /** The price the schema keeps for class `c`. */
  function ClassPrice(f: Flight, c: SeatClass): real {
    match c
    case Economy => f.economyPrice
    case Business => f.businessPrice
    case First => f.firstClassPrice
  }

  /** `flight[key]` for a key naming a seat counter; `None` when the document has no such field. */
  function CounterAt(f: Flight, key: string): Option<Counter> {
    if key == "economySeats" then Some(f.economySeats)
    else if key == "businessSeats" then Some(f.businessSeats)
    else if key == "firstClassSeats" then Some(f.firstClassSeats)
    else None
  }

  /** `flight[key] = k` for a key naming a seat counter; other keys leave the schema fields alone. */
  function SetCounterAt(f: Flight, key: string, k: Counter): Flight {
    if key == "economySeats" then f.(economySeats := k)
    else if key == "businessSeats" then f.(businessSeats := k)
    else if key == "firstClassSeats" then f.(firstClassSeats := k)
    else f
  }

  /** `flight[key]` for a key naming a price; `None` when the document has no such field. */
  function PriceAt(f: Flight, key: string): Option<real> {
    if key == "economyPrice" then Some(f.economyPrice)
    else if key == "businessPrice" then Some(f.businessPrice)
    else if key == "firstClassPrice" then Some(f.firstClassPrice)
    else None
  }

  /** How a handler spells the stem of a class's document keys: from the enum value
      (`${flightClass}Seats`, as the booking and search handlers do) or from the schema's
      own field names. */
  datatype KeyNaming = EnumNaming | SchemaNaming

  function KeyStem(n: KeyNaming, c: SeatClass): string {
    match n
    case EnumNaming => ClassName(c)
    case SchemaNaming => if c == First then "firstClass" else ClassName(c)
  }

  function SeatsKey(n: KeyNaming, c: SeatClass): string {
    KeyStem(n, c) + "Seats"
  }

  function PriceKey(n: KeyNaming, c: SeatClass): string {
    KeyStem(n, c) + "Price"
  }

  /** Keys built from the enum value reach the economy and business fields but not the
      first-class ones: the schema calls them `firstClassSeats`/`firstClassPrice`. */
  lemma EnumKeysResolve(f: Flight, c: SeatClass)
    ensures CounterAt(f, SeatsKey(EnumNaming, c)) == (if c == First then None else Some(ClassSeats(f, c)))
    ensures PriceAt(f, PriceKey(EnumNaming, c)) == (if c == First then None else Some(ClassPrice(f, c)))
  {
    match c
    case Economy =>
      assert SeatsKey(EnumNaming, c) == "economySeats";
      assert PriceKey(EnumNaming, c) == "economyPrice";
    case Business =>
      assert SeatsKey(EnumNaming, c) == "businessSeats";
      assert PriceKey(EnumNaming, c) == "businessPrice";
    case First =>
      assert SeatsKey(EnumNaming, c) == "firstSeats";
      assert PriceKey(EnumNaming, c) == "firstPrice";
  }

  /** Keys built from the schema's field names reach every class, and writing through them
      changes exactly that class's counter. */
  lemma SchemaKeysResolve(f: Flight, c: SeatClass, k: Counter)
    ensures CounterAt(f, SeatsKey(SchemaNaming, c)) == Some(ClassSeats(f, c))
    ensures PriceAt(f, PriceKey(SchemaNaming, c)) == Some(ClassPrice(f, c))
    ensures var g := SetCounterAt(f, SeatsKey(SchemaNaming, c), k);
      ClassSeats(g, c) == k && g.seats == f.seats &&
      forall d: SeatClass | d != c :: ClassSeats(g, d) == ClassSeats(f, d)
  {
    match c
    case Economy =>
      assert SeatsKey(SchemaNaming, c) == "economySeats";
      assert PriceKey(SchemaNaming, c) == "economyPrice";
    case Business =>
      assert SeatsKey(SchemaNaming, c) == "businessSeats";
      assert PriceKey(SchemaNaming, c) == "businessPrice";
    case First =>
      assert SeatsKey(SchemaNaming, c) == "firstClassSeats";
      assert PriceKey(SchemaNaming, c) == "firstClassPrice";
  }

  /** Writing through an enum-named key of a class other than `first` changes exactly that
      class's counter. */
  lemma EnumKeyWrite(f: Flight, c: SeatClass, k: Counter)
    requires c != First
    ensures var g := SetCounterAt(f, SeatsKey(EnumNaming, c), k);
      ClassSeats(g, c) == k && g.seats == f.seats &&
      forall d: SeatClass | d != c :: ClassSeats(g, d) == ClassSeats(f, d)
  {
    assert SeatsKey(EnumNaming, c) == SeatsKey(SchemaNaming, c);
    SchemaKeysResolve(f, c, k);
  }

  /** Whether the keys spelled by `n` for class `c` name fields of the schema. */
  predicate Resolves(n: KeyNaming, c: SeatClass) {
    n == SchemaNaming || c != First
  }

  /** Keys that name fields read and write exactly that class's counter and price, and
      a write through them touches no other field. */
  lemma KeysResolve(f: Flight, n: KeyNaming, c: SeatClass, k: Counter)
    requires Resolves(n, c)
    ensures CounterAt(f, SeatsKey(n, c)) == Some(ClassSeats(f, c))
    ensures PriceAt(f, PriceKey(n, c)) == Some(ClassPrice(f, c))
    ensures var g := SetCounterAt(f, SeatsKey(n, c), k);
      && ClassSeats(g, c) == k
      && (forall d: SeatClass | d != c :: ClassSeats(g, d) == ClassSeats(f, d))
      && g.(economySeats := f.economySeats, businessSeats := f.businessSeats, firstClassSeats := f.firstClassSeats) == f
  {
    if n == SchemaNaming {
      SchemaKeysResolve(f, c, k);
    } else {
      EnumKeysResolve(f, c);
      EnumKeyWrite(f, c, k);
    }
    match c
    case Economy =>
      assert SeatsKey(n, c) == "economySeats";
    case Business =>
      assert SeatsKey(n, c) == "businessSeats";
    case First =>
      assert SeatsKey(n, c) == "firstClassSeats";
  }

  /** 1 when `s` is a booked seat of class `c`. */
  function BookedIn(s: Seat, c: SeatClass): nat {
    if s.isBooked && s.cls == c then 1 else 0
  }

  /** 1 when `s` is a seat of class `c`. */
  function OfClass(s: Seat, c: SeatClass): nat {
    if s.cls == c then 1 else 0
  }

  /** The number of booked seats of class `c`. */
  function BookedCount(seats: seq<Seat>, c: SeatClass): nat {
    if |seats| == 0 then 0 else BookedIn(seats[0], c) + BookedCount(seats[1..], c)
  }

  /** The number of seats of class `c`. */
  function ClassSize(seats: seq<Seat>, c: SeatClass): nat {
    if |seats| == 0 then 0 else OfClass(seats[0], c) + ClassSize(seats[1..], c)
  }

  lemma {:induction false} BookedWithinClass(seats: seq<Seat>, c: SeatClass)
    ensures BookedCount(seats, c) <= ClassSize(seats, c)
  {
    if |seats| > 0 {
      BookedWithinClass(seats[1..], c);
    }
  }

  /** Replacing one seat changes the booked count by that seat's contribution only. */
  lemma {:induction false} BookedCountUpdate(seats: seq<Seat>, i: nat, x: Seat, c: SeatClass)
    requires i < |seats|
    ensures BookedCount(seats[i := x], c) == BookedCount(seats, c) - BookedIn(seats[i], c) + BookedIn(x, c)
    ensures ClassSize(seats[i := x], c) == ClassSize(seats, c) - OfClass(seats[i], c) + OfClass(x, c)
  {
    if i == 0 {
      assert seats[i := x][1..] == seats[1..];
    } else {
      assert seats[i := x][1..] == seats[1..][i - 1 := x];
      BookedCountUpdate(seats[1..], i - 1, x, c);
    }
  }

  lemma {:induction false} CountsOfConcat(a: seq<Seat>, b: seq<Seat>, c: SeatClass)
    ensures BookedCount(a + b, c) == BookedCount(a, c) + BookedCount(b, c)
    ensures ClassSize(a + b, c) == ClassSize(a, c) + ClassSize(b, c)
  {
    if |a| > 0 {
      assert (a + b)[1..] == a[1..] + b;
      CountsOfConcat(a[1..], b, c);
    } else {
      assert a + b == b;
    }
  }

  /** No two seats share a number. */
  predicate UniqueSeatNumbers(seats: seq<Seat>) {
    forall i, j | 0 <= i < j < |seats| :: seats[i].seatNumber != seats[j].seatNumber
  }

  /** A seat is booked exactly when it names the booking holding it. */
  predicate HoldersLinked(seats: seq<Seat>) {
    forall i | 0 <= i < |seats| :: seats[i].isBooked <==> seats[i].bookedBy.Some?
  }

  /** The counter of class `c` agrees with the seats: `total` seats of the class exist and
      `available == total - booked`. */
  predicate CounterMatches(f: Flight, c: SeatClass) {
    && ClassSeats(f, c).total == ClassSize(f.seats, c)
    && ClassSeats(f, c).available == ClassSeats(f, c).total - BookedCount(f.seats, c)
  }

  /** The inventory invariant of a flight. */
  predicate Consistent(f: Flight) {
    && UniqueSeatNumbers(f.seats)
    && HoldersLinked(f.seats)
    && CounterMatches(f, Economy)
    && CounterMatches(f, Business)
    && CounterMatches(f, First)
  }

  /** Schema bounds on a flight: prices are non-negative. */
  predicate PricesValid(f: Flight) {
    f.economyPrice >= 0.0 && f.businessPrice >= 0.0 && f.firstClassPrice >= 0.0
  }

  /** The schema's required text fields are present: a saved flight names its number,
      airline, source and destination. */
  predicate FieldsPresent(f: Flight) {
    f.flightNumber != "" && f.airline != "" && f.source != "" && f.destination != ""
  }

  /** Under the invariant no class is overbooked: `0 <= available <= total`. */
  lemma NoOverbooking(f: Flight, c: SeatClass)
    requires Consistent(f)
    ensures 0 <= ClassSeats(f, c).available <= ClassSeats(f, c).total
  {
    BookedWithinClass(f.seats, c);
    assert CounterMatches(f, c) by {
      match c
      case Economy =>
      case Business =>
      case First =>
    }
  }
}
