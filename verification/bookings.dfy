/** The booking routes: booking a flight, booking a hotel and cancelling a booking,
    the inventory state machine of the backend.

    Every handler takes a `Revision`. `AsWritten` follows the route code line by line;
    `Revised` is the same handler with the defects recorded in the README corrected:
    duplicate unit numbers are refused, flight keys use the schema's field names, hotel
    rooms are marked and released by number and type, and a room already held is refused
    whatever its stay, since a room document records one stay. */
module Bookings {
  import opened Common
  import opened Text
  import F = FlightModel
  import H = HotelModel
  import S = SeatMarking
  import R = RoomMarking
  import opened AgentModel
  import opened BookingModel
  import opened Db

  datatype Revision = AsWritten | Revised

  /** How the handler spells a class's document keys. */
  function Naming(rev: Revision): F.KeyNaming {
    if rev == AsWritten then F.EnumNaming else F.SchemaNaming
  }

  /** Which rooms the marking and release loops may pick for a number. */
  function Scope(rev: Revision, t: H.RoomType): Option<H.RoomType> {
    if rev == AsWritten then None else Some(t)
  }

  /** Whether the room check refuses every flagged room, or only one whose stay overlaps
      the requested one. */
  predicate Strict(rev: Revision) {
    rev == Revised
  }

  /** The payment gateway's answer. */
  datatype Charge = Paid(paymentId: string) | Declined

  /** What the outside world contributes to one booking request: the gateway's answer,
      the id the database gives the new booking, the clock (ms) and the base-36 digits of
      the random fraction used in the booking number. */
  datatype Env = Env(charge: Charge, bookingId: Id, now: nat, digits: seq<Base36Digit>)

  datatype FlightRequest = FlightRequest(
    flight: Id,
    flightClass: F.SeatClass,
    passengers: seq<Passenger>,
    seatNumbers: seq<string>,
    paymentMethod: PaymentMethod,
    agentId: Option<Id>)

  datatype HotelRequest = HotelRequest(
    hotel: Id,
    roomType: H.RoomType,
    checkIn: int,
    checkOut: int,
    roomNumbers: seq<string>,
    guests: Guests,
    paymentMethod: PaymentMethod,
    agentId: Option<Id>)

  // ----- agent commission -----

  /** The agent a booking is credited to (its user id) and the commission: only an agent
      record found by `agentId` and verified earns anything. */
  function AttachAgent(agents: seq<Agent>, agentId: Option<Id>, total: real): (r: (Option<Id>, real))
    ensures r.0.Some? <==>
      agentId.Some? && FindById(agents, agentId.value).Some? && agents[FindById(agents, agentId.value).value].isVerified
    ensures r.0.None? ==> r.1 == 0.0
    ensures r.0.Some? ==> var a := agents[FindById(agents, agentId.value).value];
      r.0.value == a.userId && r.1 == Commission(a, total)
  {
    if agentId.None? then (None, 0.0)
    else match FindById(agents, agentId.value)
      case None => (None, 0.0)
      case Some(i) => if agents[i].isVerified then (Some(agents[i].userId), Commission(agents[i], total)) else (None, 0.0)
  }

  /** Adds `amount` to the earnings of the first agent record of user `agentUser`. */
  function CreditAgent(agents: seq<Agent>, agentUser: Option<Id>, amount: real): (r: seq<Agent>)
    ensures |r| == |agents|
    ensures forall k | 0 <= k < |agents| ::
      r[k] == (if agentUser.Some? && FindByUser(agents, agentUser.value) == Some(k)
               then agents[k].(totalEarnings := agents[k].totalEarnings + amount) else agents[k])
  {
    if agentUser.None? then agents
    else match FindByUser(agents, agentUser.value)
      case None => agents
      case Some(i) => agents[i := agents[i].(totalEarnings := agents[i].totalEarnings + amount)]
  }

  /** Takes `amount` from the earnings of the first agent record of user `agentUser`,
      never below zero. */
  function DebitAgent(agents: seq<Agent>, agentUser: Option<Id>, amount: real): (r: seq<Agent>)
    ensures |r| == |agents|
    ensures forall k | 0 <= k < |agents| ::
      r[k] == (if agentUser.Some? && FindByUser(agents, agentUser.value) == Some(k)
               then agents[k].(totalEarnings := Max(0.0, agents[k].totalEarnings - amount)) else agents[k])
  {
    if agentUser.None? then agents
    else match FindByUser(agents, agentUser.value)
      case None => agents
      case Some(i) => agents[i := agents[i].(totalEarnings := Max(0.0, agents[i].totalEarnings - amount))]
  }

  /** The booking document `Booking.create` stores for a paid request, numbered by the
      `pre('save')` hook. */
  function PaidBooking(u: User, agentUser: Option<Id>, details: Details, total: real, commission: real,
                       payMethod: PaymentMethod, paymentId: string, env: Env): (b: Booking)
    ensures b.bookingNumber != "" && Split(b.bookingNumber, '-')[0] == Prefix(details.Type())
    ensures b.user == u.id && b.agent == agentUser && b.details == details
    ensures b.totalAmount == total && b.commission == commission
    ensures b.paymentStatus == PaymentCompleted && b.paymentId == Some(paymentId)
    ensures b.bookingStatus == Confirmed && b.refundStatus == NoRefund && b.refundAmount.None?
  {
    var draft := Booking("", u.id, agentUser, details, total, commission, PaymentCompleted, payMethod,
                         Some(paymentId), Confirmed, None, None, None, NoRefund);
    AssignNumber(draft, env.now, env.digits)
  }

  // ----- flight booking -----

  /** The body validators: at least one passenger and at least one seat. */
  predicate FlightRequestValid(req: FlightRequest) {
    |req.passengers| >= 1 && |req.seatNumbers| >= 1
  }

  /** The checks `POST /api/bookings/flight` makes before charging, in the handler's
      order; on success answers the price of one seat. */
  function FlightQuote(rev: Revision, s: Store, req: FlightRequest): (r: Result<real>)
    ensures !FlightRequestValid(req) ==> r == Err(BadRequest(InvalidInput))
    ensures FlightRequestValid(req) && rev == Revised && !Distinct(req.seatNumbers) ==> r == Err(BadRequest(DuplicateUnits))
    ensures r.Ok? ==> && FlightRequestValid(req) && (rev == Revised ==> Distinct(req.seatNumbers))
                      && req.flight in s.flights && s.flights[req.flight].status == F.FlightActive
                      && F.Resolves(Naming(rev), req.flightClass)
    ensures r.Ok? ==> var f := s.flights[req.flight];
      && r.value == F.ClassPrice(f, req.flightClass)
      && |req.seatNumbers| <= F.ClassSeats(f, req.flightClass).available
      && forall k | 0 <= k < |req.seatNumbers| :: S.SeatFree(f.seats, req.seatNumbers[k], req.flightClass)
    ensures (&& FlightRequestValid(req) && (rev == Revised ==> Distinct(req.seatNumbers))
             && (req.flight !in s.flights || s.flights[req.flight].status != F.FlightActive)) ==> r == Err(NotFound)
    ensures (&& FlightRequestValid(req) && (rev == Revised ==> Distinct(req.seatNumbers))
             && req.flight in s.flights && s.flights[req.flight].status == F.FlightActive
             && F.Resolves(Naming(rev), req.flightClass)
             && |req.seatNumbers| <= F.ClassSeats(s.flights[req.flight], req.flightClass).available
             && forall k | 0 <= k < |req.seatNumbers| ::
                  S.SeatFree(s.flights[req.flight].seats, req.seatNumbers[k], req.flightClass)) ==> r.Ok?
    ensures (&& r.Err? && FlightRequestValid(req) && (rev == Revised ==> Distinct(req.seatNumbers))
             && req.flight in s.flights && s.flights[req.flight].status == F.FlightActive) ==>
      if !F.Resolves(Naming(rev), req.flightClass) then r == Err(Internal)
      else r.error.BadRequest? && (r.error.reason.NotEnoughUnits? || r.error.reason.UnitNotFound? || r.error.reason.UnitBooked?)
  {
    if !FlightRequestValid(req) then Err(BadRequest(InvalidInput))
    else if rev == Revised && !Distinct(req.seatNumbers) then Err(BadRequest(DuplicateUnits))
    else if req.flight !in s.flights || s.flights[req.flight].status != F.FlightActive then Err(NotFound)
    else
      var f := s.flights[req.flight];
      var c := req.flightClass;
      match F.CounterAt(f, F.SeatsKey(Naming(rev), c))
      case None =>
        if F.Resolves(Naming(rev), c) then F.KeysResolve(f, Naming(rev), c, Counter(0, 0)); Err(Internal)
        else Err(Internal)
      case Some(counter) =>
        if !F.Resolves(Naming(rev), c) then F.EnumKeysResolve(f, c); Err(Internal)
        else
          F.KeysResolve(f, Naming(rev), c, Counter(0, 0));
          if counter.available < |req.seatNumbers| then Err(BadRequest(NotEnoughUnits))
          else match S.CheckSeats(f.seats, c, req.seatNumbers)
            case Some(reason) => Err(BadRequest(reason))
            case None => Ok(F.ClassPrice(f, c))
  }

  /** The writes of a paid flight booking: the booking document, the marked seats, the
      decremented class counter and the agent's commission. */
  function CommitFlight(rev: Revision, s: Store, u: User, req: FlightRequest, env: Env, total: real, paymentId: string)
    : (r: Store)
    requires req.flight in s.flights && F.Resolves(Naming(rev), req.flightClass)
    ensures && r.users == s.users && r.hotels == s.hotels
            && env.bookingId in r.bookings && req.flight in r.flights
            && r.bookings == s.bookings[env.bookingId := r.bookings[env.bookingId]]
            && r.flights == s.flights[req.flight := r.flights[req.flight]]
    ensures var f, g := s.flights[req.flight], r.flights[req.flight];
      && g.seats == S.MarkSeats(f.seats, req.seatNumbers, env.bookingId)
      && F.ClassSeats(g, req.flightClass) ==
           Counter(F.ClassSeats(f, req.flightClass).total, F.ClassSeats(f, req.flightClass).available - |req.seatNumbers|)
      && (forall c: F.SeatClass | c != req.flightClass :: F.ClassSeats(g, c) == F.ClassSeats(f, c))
      && g.(economySeats := f.economySeats, businessSeats := f.businessSeats, firstClassSeats := f.firstClassSeats,
            seats := f.seats) == f
    ensures var b := r.bookings[env.bookingId];
      && b.user == u.id && b.bookingStatus == Confirmed && b.paymentStatus == PaymentCompleted
      && b.paymentId == Some(paymentId) && b.refundStatus == NoRefund
      && b.details == FlightDetails(req.flight, req.seatNumbers, req.flightClass, req.passengers)
      && b.totalAmount == total
      && (b.agent, b.commission) == AttachAgent(s.agents, req.agentId, total)
      && r.agents == CreditAgent(s.agents, b.agent, b.commission)
  {
    var f := s.flights[req.flight];
    var c := req.flightClass;
    var key := F.SeatsKey(Naming(rev), c);
    var counter := F.ClassSeats(f, c);
    var (agentUser, commission) := AttachAgent(s.agents, req.agentId, total);
    var details := FlightDetails(req.flight, req.seatNumbers, c, req.passengers);
    var b := PaidBooking(u, agentUser, details, total, commission, req.paymentMethod, paymentId, env);
    var marked := f.(seats := S.MarkSeats(f.seats, req.seatNumbers, env.bookingId));
    var next := Counter(counter.total, counter.available - |req.seatNumbers|);
    F.KeysResolve(marked, Naming(rev), c, next);
    s.(flights := s.flights[req.flight := F.SetCounterAt(marked, key, next)],
       bookings := s.bookings[env.bookingId := b],
       agents := CreditAgent(s.agents, agentUser, commission))
  }

  /** `POST /api/bookings/flight`. On success the store gains the booking under
      `env.bookingId`, the flight's requested seats are marked held by it and the class
      counter drops by the number of seats; a verified agent is credited its commission. */
  function BookFlight(rev: Revision, s: Store, u: User, req: FlightRequest, env: Env): (r: Result<Store>)
    requires env.bookingId !in s.bookings
    ensures FlightQuote(rev, s, req).Err? ==> r.Err? && r.error == FlightQuote(rev, s, req).error
    ensures FlightQuote(rev, s, req).Ok? && env.charge.Declined? ==> r == Err(BadRequest(PaymentDeclined))
    ensures r.Ok? ==> && FlightQuote(rev, s, req).Ok? && env.charge.Paid?
                      && r.value == CommitFlight(rev, s, u, req, env,
                           F.ClassPrice(s.flights[req.flight], req.flightClass) * (|req.seatNumbers| as real),
                           env.charge.paymentId)
    ensures r.Ok? ==> r.value.bookings[env.bookingId].totalAmount >= 0.0
  {
    match FlightQuote(rev, s, req)
    case Err(e) => Err(e)
    case Ok(price) =>
      assert price == F.ClassPrice(s.flights[req.flight], req.flightClass);
      var total := price * (|req.seatNumbers| as real);
      match env.charge
      case Declined => Err(BadRequest(PaymentDeclined))
      case Paid(paymentId) =>
        if total < 0.0 then Err(Internal)
        else
          assert total == F.ClassPrice(s.flights[req.flight], req.flightClass) * (|req.seatNumbers| as real);
          assert paymentId == env.charge.paymentId;
          Ok(CommitFlight(rev, s, u, req, env, total, paymentId))
  }

  // ----- hotel booking -----

  /** One day in milliseconds. */
  const Day: nat := 1000 * 60 * 60 * 24

  /** `Math.ceil(ms / day)` for a positive stay: the number of nights charged. */
  function Nights(ms: int): (n: int)
    requires ms > 0
    ensures n >= 1
    ensures (n - 1) * Day < ms <= n * Day
  {
    (ms + Day - 1) / Day
  }

  /** The body validators: at least one room. */
  predicate HotelRequestValid(req: HotelRequest) {
    |req.roomNumbers| >= 1
  }

  /** The checks `POST /api/bookings/hotel` makes before charging, in the handler's
      order; on success answers the price of one room for the whole stay. */
  function HotelQuote(rev: Revision, s: Store, req: HotelRequest): (r: Result<real>)
    ensures !HotelRequestValid(req) ==> r == Err(BadRequest(InvalidInput))
    ensures HotelRequestValid(req) && rev == Revised && !Distinct(req.roomNumbers) ==> r == Err(BadRequest(DuplicateUnits))
    ensures (&& HotelRequestValid(req) && (rev == AsWritten || Distinct(req.roomNumbers))
             && req.checkOut <= req.checkIn) ==> r == Err(BadRequest(InvalidDates))
    ensures (&& HotelRequestValid(req) && (rev == Revised ==> Distinct(req.roomNumbers)) && req.checkIn < req.checkOut
             && (req.hotel !in s.hotels || s.hotels[req.hotel].status != H.HotelActive)) ==> r == Err(NotFound)
    ensures (&& HotelRequestValid(req) && (rev == Revised ==> Distinct(req.roomNumbers)) && req.checkIn < req.checkOut
             && req.hotel in s.hotels && s.hotels[req.hotel].status == H.HotelActive
             && |req.roomNumbers| <= H.TypeRooms(s.hotels[req.hotel], req.roomType).available
             && forall k | 0 <= k < |req.roomNumbers| ::
                  R.RoomFree(s.hotels[req.hotel].rooms, req.roomNumbers[k], req.roomType, req.checkIn, req.checkOut, Strict(rev)))
            ==> r.Ok?
    ensures r.Ok? ==> && HotelRequestValid(req) && (rev == Revised ==> Distinct(req.roomNumbers))
                      && req.checkIn < req.checkOut
                      && req.hotel in s.hotels && s.hotels[req.hotel].status == H.HotelActive
    ensures r.Ok? ==> var h := s.hotels[req.hotel];
      && r.value == H.TypePrice(h, req.roomType) * (Nights(req.checkOut - req.checkIn) as real)
      && |req.roomNumbers| <= H.TypeRooms(h, req.roomType).available
      && forall k | 0 <= k < |req.roomNumbers| ::
           R.RoomFree(h.rooms, req.roomNumbers[k], req.roomType, req.checkIn, req.checkOut, Strict(rev))
  {
    if !HotelRequestValid(req) then Err(BadRequest(InvalidInput))
    else if rev == Revised && !Distinct(req.roomNumbers) then Err(BadRequest(DuplicateUnits))
    else if req.checkOut <= req.checkIn then Err(BadRequest(InvalidDates))
    else if req.hotel !in s.hotels || s.hotels[req.hotel].status != H.HotelActive then Err(NotFound)
    else
      var h := s.hotels[req.hotel];
      var t := req.roomType;
      H.KeysResolve(h, t, Counter(0, 0));
      match H.CounterAt(h, H.RoomsKey(t))
      case None => Err(Internal)
      case Some(counter) =>
        if counter.available < |req.roomNumbers| then Err(BadRequest(NotEnoughUnits))
        else match R.CheckRooms(h.rooms, t, req.roomNumbers, req.checkIn, req.checkOut, Strict(rev))
          case Some(reason) => Err(BadRequest(reason))
          case None =>
            match H.PriceAt(h, H.PriceKey(t))
            case None => Err(Internal)
            case Some(price) => Ok(price * (Nights(req.checkOut - req.checkIn) as real))
  }

  /** The writes of a paid hotel booking: the booking document, the rooms the marking
      loop picks held for the stay, the decremented type counter and the agent's
      commission. */
  function CommitHotel(rev: Revision, s: Store, u: User, req: HotelRequest, env: Env, total: real, paymentId: string)
    : (r: Store)
    requires req.hotel in s.hotels
    ensures && r.users == s.users && r.flights == s.flights
            && env.bookingId in r.bookings && req.hotel in r.hotels
            && r.bookings == s.bookings[env.bookingId := r.bookings[env.bookingId]]
            && r.hotels == s.hotels[req.hotel := r.hotels[req.hotel]]
    ensures var h, g := s.hotels[req.hotel], r.hotels[req.hotel];
      && g.rooms == R.MarkRooms(h.rooms, req.roomNumbers, Scope(rev, req.roomType), env.bookingId, req.checkIn, req.checkOut)
      && H.TypeRooms(g, req.roomType) ==
           Counter(H.TypeRooms(h, req.roomType).total, H.TypeRooms(h, req.roomType).available - |req.roomNumbers|)
      && (forall t: H.RoomType | t != req.roomType :: H.TypeRooms(g, t) == H.TypeRooms(h, t))
      && g.(standardRooms := h.standardRooms, deluxeRooms := h.deluxeRooms, suiteRooms := h.suiteRooms,
            rooms := h.rooms) == h
    ensures var b := r.bookings[env.bookingId];
      && b.user == u.id && b.bookingStatus == Confirmed && b.paymentStatus == PaymentCompleted
      && b.paymentId == Some(paymentId) && b.refundStatus == NoRefund
      && b.details == HotelDetails(req.hotel, req.roomNumbers, req.roomType, req.checkIn, req.checkOut, req.guests)
      && b.totalAmount == total
      && (b.agent, b.commission) == AttachAgent(s.agents, req.agentId, total)
      && r.agents == CreditAgent(s.agents, b.agent, b.commission)
  {
    var h := s.hotels[req.hotel];
    var t := req.roomType;
    var counter := H.TypeRooms(h, t);
    var (agentUser, commission) := AttachAgent(s.agents, req.agentId, total);
    var details := HotelDetails(req.hotel, req.roomNumbers, t, req.checkIn, req.checkOut, req.guests);
    var b := PaidBooking(u, agentUser, details, total, commission, req.paymentMethod, paymentId, env);
    var held := h.(rooms := R.MarkRooms(h.rooms, req.roomNumbers, Scope(rev, t), env.bookingId, req.checkIn, req.checkOut));
    var next := Counter(counter.total, counter.available - |req.roomNumbers|);
    H.KeysResolve(held, t, next);
    s.(hotels := s.hotels[req.hotel := H.SetCounterAt(held, H.RoomsKey(t), next)],
       bookings := s.bookings[env.bookingId := b],
       agents := CreditAgent(s.agents, agentUser, commission))
  }

  /** `POST /api/bookings/hotel`. On success the store gains the booking under
      `env.bookingId`, the rooms picked by the marking loop are held for the stay and the
      type's counter drops by the number of rooms. */
  function BookHotel(rev: Revision, s: Store, u: User, req: HotelRequest, env: Env): (r: Result<Store>)
    requires env.bookingId !in s.bookings
    ensures HotelQuote(rev, s, req).Err? ==> r.Err? && r.error == HotelQuote(rev, s, req).error
    ensures HotelQuote(rev, s, req).Ok? && env.charge.Declined? ==> r == Err(BadRequest(PaymentDeclined))
    ensures r.Ok? ==> && HotelQuote(rev, s, req).Ok? && env.charge.Paid?
                      && r.value == CommitHotel(rev, s, u, req, env,
                           HotelQuote(rev, s, req).value * (|req.roomNumbers| as real), env.charge.paymentId)
    ensures r.Ok? ==> r.value.bookings[env.bookingId].totalAmount >= 0.0
  {
    match HotelQuote(rev, s, req)
    case Err(e) => Err(e)
    case Ok(price) =>
      var total := price * (|req.roomNumbers| as real);
      match env.charge
      case Declined => Err(BadRequest(PaymentDeclined))
      case Paid(paymentId) =>
        if total < 0.0 then Err(Internal)
        else
          assert total == HotelQuote(rev, s, req).value * (|req.roomNumbers| as real);
          assert paymentId == env.charge.paymentId;
          Ok(CommitHotel(rev, s, u, req, env, total, paymentId))
  }

  // ----- cancellation -----

  /** The refund a cancellation pays: the total less the resource's cancellation fee,
      floored at zero, when the flight or hotel is refundable; nothing when it is not or
      when the booked resource no longer exists. */
  function RefundFor(s: Store, b: Booking): (amount: real)
    ensures amount >= 0.0
    ensures b.details.FlightDetails? && b.details.flight in s.flights && s.flights[b.details.flight].isRefundable ==>
      amount == Max(0.0, b.totalAmount - s.flights[b.details.flight].cancellationFee)
    ensures b.details.HotelDetails? && b.details.hotel in s.hotels && s.hotels[b.details.hotel].isRefundable ==>
      amount == Max(0.0, b.totalAmount - s.hotels[b.details.hotel].cancellationFee)
    ensures amount > 0.0 ==>
      || (b.details.FlightDetails? && b.details.flight in s.flights && s.flights[b.details.flight].isRefundable)
      || (b.details.HotelDetails? && b.details.hotel in s.hotels && s.hotels[b.details.hotel].isRefundable)
  {
    match b.details
    case FlightDetails(fid, _, _, _) =>
      if fid in s.flights && s.flights[fid].isRefundable
      then Max(0.0, b.totalAmount - s.flights[fid].cancellationFee) else 0.0
    case HotelDetails(hid, _, _, _, _, _) =>
      if hid in s.hotels && s.hotels[hid].isRefundable
      then Max(0.0, b.totalAmount - s.hotels[hid].cancellationFee) else 0.0
  }

  /** The booking as the cancellation handler saves it. */
  function CancelledBooking(b: Booking, refund: real, reason: Option<string>, now: int): (c: Booking)
    ensures c.bookingStatus == Cancelled && c.cancelledAt == Some(now)
    ensures c.cancellationReason == Some(if reason.Some? && reason.value != "" then reason.value else "User cancelled")
    ensures refund > 0.0 && b.paymentStatus == PaymentCompleted ==>
      c.paymentStatus == PaymentRefunded && c.refundStatus == RefundProcessed && c.refundAmount == Some(refund)
    ensures !(refund > 0.0 && b.paymentStatus == PaymentCompleted) ==>
      c.paymentStatus == b.paymentStatus && c.refundStatus == b.refundStatus && c.refundAmount == b.refundAmount
    ensures c.(bookingStatus := b.bookingStatus, cancelledAt := b.cancelledAt, cancellationReason := b.cancellationReason,
               paymentStatus := b.paymentStatus, refundStatus := b.refundStatus, refundAmount := b.refundAmount) == b
  {
    var refunded :=
      if refund > 0.0 && b.paymentStatus == PaymentCompleted
      then b.(refundAmount := Some(refund), refundStatus := RefundProcessed, paymentStatus := PaymentRefunded)
      else b;
    refunded.(bookingStatus := Cancelled, cancelledAt := Some(now),
              cancellationReason := Some(if reason.Some? && reason.value != "" then reason.value else "User cancelled"))
  }

  /** The release half of a cancellation: the booking's units are freed and the counter
      of its class or type rises by their number. A counter key that names no field
      throws before anything is saved. */
  function ReleaseUnits(rev: Revision, s: Store, b: Booking): (r: Result<Store>)
    ensures r.Ok? ==> r.value.users == s.users && r.value.bookings == s.bookings && r.value.agents == s.agents
    ensures r.Ok? ==> r.value.flights.Keys == s.flights.Keys && r.value.hotels.Keys == s.hotels.Keys
    ensures r.Err? ==> r.error == Internal && b.details.FlightDetails? && !F.Resolves(Naming(rev), b.details.flightClass)
    ensures b.details.FlightDetails? && r.Ok? ==>
      && r.value.hotels == s.hotels
      && forall id | id in s.flights && id != b.details.flight :: r.value.flights[id] == s.flights[id]
    ensures b.details.HotelDetails? ==>
      && r.Ok? && r.value.flights == s.flights
      && forall id | id in s.hotels && id != b.details.hotel :: r.value.hotels[id] == s.hotels[id]
    ensures b.details.FlightDetails? && b.details.flight in s.flights ==> r.Ok? ==>
      var f, g, c := s.flights[b.details.flight], r.value.flights[b.details.flight], b.details.flightClass;
      && g.seats == S.ReleaseSeats(f.seats, b.details.seatNumbers)
      && F.ClassSeats(g, c).available == F.ClassSeats(f, c).available + |b.details.seatNumbers|
      && F.ClassSeats(g, c).total == F.ClassSeats(f, c).total
      && (forall d: F.SeatClass | d != c :: F.ClassSeats(g, d) == F.ClassSeats(f, d))
      && g.(economySeats := f.economySeats, businessSeats := f.businessSeats, firstClassSeats := f.firstClassSeats,
            seats := f.seats) == f
    ensures b.details.HotelDetails? && b.details.hotel in s.hotels ==>
      var h, g, t := s.hotels[b.details.hotel], r.value.hotels[b.details.hotel], b.details.roomType;
      && g.rooms == R.ReleaseRooms(h.rooms, b.details.roomNumbers, Scope(rev, t))
      && H.TypeRooms(g, t).available == H.TypeRooms(h, t).available + |b.details.roomNumbers|
      && H.TypeRooms(g, t).total == H.TypeRooms(h, t).total
      && (forall u: H.RoomType | u != t :: H.TypeRooms(g, u) == H.TypeRooms(h, u))
      && g.(standardRooms := h.standardRooms, deluxeRooms := h.deluxeRooms, suiteRooms := h.suiteRooms,
            rooms := h.rooms) == h
    ensures b.details.FlightDetails? && b.details.flight !in s.flights ==> r == Ok(s)
    ensures b.details.HotelDetails? && b.details.hotel !in s.hotels ==> r == Ok(s)
  {
    match b.details
    case FlightDetails(fid, nums, c, _) =>
      if fid !in s.flights then Ok(s)
      else
        var f := s.flights[fid];
        var key := F.SeatsKey(Naming(rev), c);
        var freed := f.(seats := S.ReleaseSeats(f.seats, nums));
        if !F.Resolves(Naming(rev), c) then Err(Internal)
        else
          var counter := F.ClassSeats(freed, c);
          F.KeysResolve(freed, Naming(rev), c, Counter(counter.total, counter.available + |nums|));
          Ok(s.(flights := s.flights[fid := F.SetCounterAt(freed, key, Counter(counter.total, counter.available + |nums|))]))
    case HotelDetails(hid, nums, t, _, _, _) =>
      if hid !in s.hotels then Ok(s)
      else
        var h := s.hotels[hid];
        var key := H.RoomsKey(t);
        var freed := h.(rooms := R.ReleaseRooms(h.rooms, nums, Scope(rev, t)));
        var counter := H.TypeRooms(freed, t);
        H.KeysResolve(freed, t, Counter(counter.total, counter.available + |nums|));
        Ok(s.(hotels := s.hotels[hid := H.SetCounterAt(freed, key, Counter(counter.total, counter.available + |nums|))]))
  }

  /** `POST /api/bookings/:id/cancel`: answers the new store and the refund paid. */
  function Cancel(rev: Revision, s: Store, u: User, id: Id, reason: Option<string>, now: int): (r: Result<(Store, real)>)
    ensures id !in s.bookings ==> r == Err(NotFound)
    ensures id in s.bookings && u.role == UserRole && s.bookings[id].user != u.id ==> r == Err(Forbidden)
    ensures (&& id in s.bookings && !(u.role == UserRole && s.bookings[id].user != u.id)
             && s.bookings[id].bookingStatus == Cancelled) ==> r == Err(BadRequest(AlreadyCancelled))
    ensures r.Ok? ==> && id in s.bookings && s.bookings[id].bookingStatus != Cancelled
                      && (u.role == UserRole ==> s.bookings[id].user == u.id)
    ensures r.Ok? ==> var b := s.bookings[id];
      && r.value.1 == RefundFor(s, b)
      && r.value.0.bookings == s.bookings[id := CancelledBooking(b, r.value.1, reason, now)]
      && r.value.0.users == s.users
      && r.value.0.agents == (if r.value.1 > 0.0 then DebitAgent(s.agents, b.agent, b.commission) else s.agents)
    ensures r.Ok? ==>
      && ReleaseUnits(rev, s, s.bookings[id]).Ok?
      && r.value.0.flights == ReleaseUnits(rev, s, s.bookings[id]).value.flights
      && r.value.0.hotels == ReleaseUnits(rev, s, s.bookings[id]).value.hotels
    ensures (&& id in s.bookings && !(u.role == UserRole && s.bookings[id].user != u.id)
             && s.bookings[id].bookingStatus != Cancelled) ==>
      && (r.Ok? <==> ReleaseUnits(rev, s, s.bookings[id]).Ok?)
      && (r.Err? ==> r == Err(Internal))
  {
    if id !in s.bookings then Err(NotFound)
    else
      var b := s.bookings[id];
      if u.role == UserRole && b.user != u.id then Err(Forbidden)
      else if b.bookingStatus == Cancelled then Err(BadRequest(AlreadyCancelled))
      else
        var refund := RefundFor(s, b);
        var saved := CancelledBooking(b, refund, reason, now);
        match ReleaseUnits(rev, s, b)
        case Err(e) => Err(e)
        case Ok(released) =>
          var agents := if refund > 0.0 then DebitAgent(s.agents, b.agent, b.commission) else s.agents;
          Ok((released.(agents := agents, bookings := s.bookings[id := saved]), refund))
  }
}
