/** What the booking handlers promise across calls: the inventory invariant of flights
    and hotels survives a booking and a cancellation, a cancellation undoes the booking
    it cancels, a booking is cancelled once, agent earnings stay within the schema and
    deactivated resources take no bookings. */
module BookingProperties {
  import opened Common
  import F = FlightModel
  import H = HotelModel
  import S = SeatMarking
  import R = RoomMarking
  import Fl = Flights
  import Ho = Hotels
  import opened AgentModel
  import opened BookingModel
  import opened Db
  import opened Bookings

  // ----- flights -----

  lemma FlightCountersMatch(f: F.Flight)
    requires F.Consistent(f)
    ensures forall c: F.SeatClass :: F.CounterMatches(f, c)
  {
    forall c: F.SeatClass ensures F.CounterMatches(f, c) {
      match c
      case Economy =>
      case Business =>
      case First =>
    }
  }

  /** Marking seats keeps every flag agreeing with its holder. */
  lemma MarkKeepsHolders(seats: seq<F.Seat>, nums: seq<string>, id: Id)
    requires F.UniqueSeatNumbers(seats) && F.HoldersLinked(seats)
    ensures F.HoldersLinked(S.MarkSeats(seats, nums, id))
  {
    S.MarkSeatsPointwise(seats, nums, id);
  }

  /** Marking distinct free seats of class `c` and lowering that class's counter by
      their number keeps every counter in step with the seats. */
  lemma MarkKeepsCounters(f: F.Flight, g: F.Flight, nums: seq<string>, c: F.SeatClass, id: Id)
    requires F.Consistent(f)
    requires Distinct(nums)
    requires forall k | 0 <= k < |nums| :: S.SeatFree(f.seats, nums[k], c)
    requires g.seats == S.MarkSeats(f.seats, nums, id)
    requires F.ClassSeats(g, c) == Counter(F.ClassSeats(f, c).total, F.ClassSeats(f, c).available - |nums|)
    requires forall d: F.SeatClass | d != c :: F.ClassSeats(g, d) == F.ClassSeats(f, d)
    ensures forall d: F.SeatClass :: F.CounterMatches(g, d)
  {
    S.MarkSeatsCount(f.seats, nums, id, c);
    FlightCountersMatch(f);
    forall d: F.SeatClass ensures F.CounterMatches(g, d) {
      assert F.ClassSeats(g, d).total == F.ClassSeats(f, d).total;
    }
  }

  /** Marking distinct free seats of class `c` and lowering that class's counter by
      their number keeps a flight's inventory invariant. */
  lemma MarkKeepsFlightConsistency(f: F.Flight, g: F.Flight, nums: seq<string>, c: F.SeatClass, id: Id)
    requires F.Consistent(f)
    requires Distinct(nums)
    requires forall k | 0 <= k < |nums| :: S.SeatFree(f.seats, nums[k], c)
    requires g.seats == S.MarkSeats(f.seats, nums, id)
    requires F.ClassSeats(g, c) == Counter(F.ClassSeats(f, c).total, F.ClassSeats(f, c).available - |nums|)
    requires forall d: F.SeatClass | d != c :: F.ClassSeats(g, d) == F.ClassSeats(f, d)
    ensures F.Consistent(g)
  {
    S.SameLayoutUnique(f.seats, g.seats);
    MarkKeepsHolders(f.seats, nums, id);
    MarkKeepsCounters(f, g, nums, c, id);
    assert F.CounterMatches(g, F.Economy) && F.CounterMatches(g, F.Business) && F.CounterMatches(g, F.First);
  }

  /** Freeing seats keeps every flag agreeing with its holder. */
  lemma ReleaseKeepsHolders(seats: seq<F.Seat>, nums: seq<string>)
    requires F.UniqueSeatNumbers(seats) && F.HoldersLinked(seats)
    ensures F.HoldersLinked(S.ReleaseSeats(seats, nums))
  {
    S.ReleaseSeatsPointwise(seats, nums);
  }

  /** Freeing distinct held seats of class `c` and raising that class's counter by their
      number keeps every counter in step with the seats. */
  lemma ReleaseKeepsCounters(f: F.Flight, g: F.Flight, nums: seq<string>, c: F.SeatClass)
    requires F.Consistent(f)
    requires Distinct(nums)
    requires forall k | 0 <= k < |nums| :: S.SeatHeld(f.seats, nums[k], c)
    requires g.seats == S.ReleaseSeats(f.seats, nums)
    requires F.ClassSeats(g, c) == Counter(F.ClassSeats(f, c).total, F.ClassSeats(f, c).available + |nums|)
    requires forall d: F.SeatClass | d != c :: F.ClassSeats(g, d) == F.ClassSeats(f, d)
    ensures forall d: F.SeatClass :: F.CounterMatches(g, d)
  {
    S.ReleaseSeatsCount(f.seats, nums, c);
    FlightCountersMatch(f);
    forall d: F.SeatClass ensures F.CounterMatches(g, d) {
      assert F.ClassSeats(g, d).total == F.ClassSeats(f, d).total;
    }
  }

  /** Freeing distinct held seats of class `c` and raising that class's counter by their
      number keeps a flight's inventory invariant. */
  lemma ReleaseKeepsFlightConsistency(f: F.Flight, g: F.Flight, nums: seq<string>, c: F.SeatClass)
    requires F.Consistent(f)
    requires Distinct(nums)
    requires forall k | 0 <= k < |nums| :: S.SeatHeld(f.seats, nums[k], c)
    requires g.seats == S.ReleaseSeats(f.seats, nums)
    requires F.ClassSeats(g, c) == Counter(F.ClassSeats(f, c).total, F.ClassSeats(f, c).available + |nums|)
    requires forall d: F.SeatClass | d != c :: F.ClassSeats(g, d) == F.ClassSeats(f, d)
    ensures F.Consistent(g)
  {
    S.SameLayoutUnique(f.seats, g.seats);
    ReleaseKeepsHolders(f.seats, nums);
    ReleaseKeepsCounters(f, g, nums, c);
    assert F.CounterMatches(g, F.Economy) && F.CounterMatches(g, F.Business) && F.CounterMatches(g, F.First);
  }

  /** A flight booking keeps the flight's inventory invariant when the requested seat
      numbers are distinct, which the revised handler enforces. */
  lemma BookFlightKeepsConsistency(rev: Revision, s: Store, u: User, req: FlightRequest, env: Env)
    requires env.bookingId !in s.bookings
    requires req.flight in s.flights && F.Consistent(s.flights[req.flight])
    requires rev == Revised || Distinct(req.seatNumbers)
    requires BookFlight(rev, s, u, req, env).Ok?
    ensures req.flight in BookFlight(rev, s, u, req, env).value.flights
    ensures F.Consistent(BookFlight(rev, s, u, req, env).value.flights[req.flight])
  {
    var g := BookFlight(rev, s, u, req, env).value.flights[req.flight];
    MarkKeepsFlightConsistency(s.flights[req.flight], g, req.seatNumbers, req.flightClass, env.bookingId);
  }

  /** A cancellation keeps the booked flight's inventory invariant when the booking's
      seats are distinct and still held. */
  lemma CancelKeepsFlightConsistency(rev: Revision, s: Store, u: User, id: Id, reason: Option<string>, now: int)
    requires id in s.bookings && s.bookings[id].details.FlightDetails?
    requires s.bookings[id].details.flight in s.flights
    requires F.Consistent(s.flights[s.bookings[id].details.flight])
    requires Distinct(s.bookings[id].details.seatNumbers)
    requires var d := s.bookings[id].details;
      forall k | 0 <= k < |d.seatNumbers| :: S.SeatHeld(s.flights[d.flight].seats, d.seatNumbers[k], d.flightClass)
    requires Cancel(rev, s, u, id, reason, now).Ok?
    ensures s.bookings[id].details.flight in Cancel(rev, s, u, id, reason, now).value.0.flights
    ensures F.Consistent(Cancel(rev, s, u, id, reason, now).value.0.flights[s.bookings[id].details.flight])
  {
    var d := s.bookings[id].details;
    var g := ReleaseUnits(rev, s, s.bookings[id]).value.flights[d.flight];
    ReleaseKeepsFlightConsistency(s.flights[d.flight], g, d.seatNumbers, d.flightClass);
  }

  /** Two flights equal in every counter and in every other field are the same flight. */
  lemma FlightsEqual(f: F.Flight, g: F.Flight)
    requires forall c: F.SeatClass :: F.ClassSeats(g, c) == F.ClassSeats(f, c)
    requires g.(economySeats := f.economySeats, businessSeats := f.businessSeats, firstClassSeats := f.firstClassSeats)
             == f
    ensures g == f
  {
    assert F.ClassSeats(g, F.Economy) == F.ClassSeats(f, F.Economy);
    assert F.ClassSeats(g, F.Business) == F.ClassSeats(f, F.Business);
    assert F.ClassSeats(g, F.First) == F.ClassSeats(f, F.First);
  }

  /** Releasing what a marking just took, and adding back to the counter what it
      subtracted, gives back the flight, provided the seats were free and unheld. */
  lemma FlightRoundTrip(f: F.Flight, g: F.Flight, h: F.Flight, nums: seq<string>, c: F.SeatClass, id: Id)
    requires F.Consistent(f)
    requires forall k | 0 <= k < |nums| :: S.SeatFree(f.seats, nums[k], c)
    requires g.seats == S.MarkSeats(f.seats, nums, id)
    requires F.ClassSeats(g, c) == Counter(F.ClassSeats(f, c).total, F.ClassSeats(f, c).available - |nums|)
    requires forall d: F.SeatClass | d != c :: F.ClassSeats(g, d) == F.ClassSeats(f, d)
    requires g.(economySeats := f.economySeats, businessSeats := f.businessSeats, firstClassSeats := f.firstClassSeats,
                seats := f.seats) == f
    requires h.seats == S.ReleaseSeats(g.seats, nums)
    requires F.ClassSeats(h, c) == Counter(F.ClassSeats(g, c).total, F.ClassSeats(g, c).available + |nums|)
    requires forall d: F.SeatClass | d != c :: F.ClassSeats(h, d) == F.ClassSeats(g, d)
    requires h.(economySeats := g.economySeats, businessSeats := g.businessSeats, firstClassSeats := g.firstClassSeats,
                seats := g.seats) == g
    ensures h == f
  {
    forall k | 0 <= k < |f.seats| && f.seats[k].seatNumber in nums
      ensures !f.seats[k].isBooked && f.seats[k].bookedBy.None?
    {
      var j :| 0 <= j < |nums| && nums[j] == f.seats[k].seatNumber;
      assert S.SeatFree(f.seats, nums[j], c);
      var i := S.FindInClass(f.seats, nums[j], c).value;
      S.FindByNumberUnique(f.seats, i);
      S.FindByNumberUnique(f.seats, k);
    }
    S.ReleaseUndoesMark(f.seats, nums, id);
    forall d: F.SeatClass ensures F.ClassSeats(h, d) == F.ClassSeats(f, d) {
    }
    FlightsEqual(f, h);
  }

  /** The owner's cancellation of a live flight booking whose class keys resolve
      succeeds, and its flights are those the release step computes. */
  lemma CancelFlightBooking(rev: Revision, s: Store, u: User, id: Id, reason: Option<string>, now: int)
    requires id in s.bookings && s.bookings[id].user == u.id && s.bookings[id].bookingStatus != Cancelled
    requires s.bookings[id].details.FlightDetails?
    requires F.Resolves(Naming(rev), s.bookings[id].details.flightClass)
    ensures Cancel(rev, s, u, id, reason, now).Ok?
    ensures Cancel(rev, s, u, id, reason, now).value.0.flights == ReleaseUnits(rev, s, s.bookings[id]).value.flights
  {
  }

  /** The flights after a hold of the requested seats: the booked flight's seats
      marked and its class counter lowered, nothing else changed. */
  predicate FlightHeld(rev: Revision, s: Store, s1: Store, req: FlightRequest, id: Id)
    requires req.flight in s.flights
  {
    && s1.flights.Keys == s.flights.Keys
    && (forall x | x in s.flights && x != req.flight :: s1.flights[x] == s.flights[x])
    && var f, g := s.flights[req.flight], s1.flights[req.flight];
      && g.seats == S.MarkSeats(f.seats, req.seatNumbers, id)
      && F.ClassSeats(g, req.flightClass) ==
           Counter(F.ClassSeats(f, req.flightClass).total, F.ClassSeats(f, req.flightClass).available - |req.seatNumbers|)
      && (forall c: F.SeatClass | c != req.flightClass :: F.ClassSeats(g, c) == F.ClassSeats(f, c))
      && g.(economySeats := f.economySeats, businessSeats := f.businessSeats, firstClassSeats := f.firstClassSeats,
            seats := f.seats) == f
  }

  /** Releasing the seats behind a hold gives back the flights as they were before it. */
  lemma ReleaseUndoesFlightHold(rev: Revision, s: Store, s1: Store, req: FlightRequest, id: Id, b: Booking)
    requires req.flight in s.flights && F.Consistent(s.flights[req.flight])
    requires F.Resolves(Naming(rev), req.flightClass)
    requires forall k | 0 <= k < |req.seatNumbers| ::
      S.SeatFree(s.flights[req.flight].seats, req.seatNumbers[k], req.flightClass)
    requires FlightHeld(rev, s, s1, req, id)
    requires b.details == FlightDetails(req.flight, req.seatNumbers, req.flightClass, req.passengers)
    ensures ReleaseUnits(rev, s1, b).Ok?
    ensures ReleaseUnits(rev, s1, b).value.flights == s.flights
  {
    var s2 := ReleaseUnits(rev, s1, b).value;
    assert s2.flights[req.flight] == s.flights[req.flight] by {
      FlightRoundTrip(s.flights[req.flight], s1.flights[req.flight], s2.flights[req.flight],
                      req.seatNumbers, req.flightClass, id);
    }
    assert forall x | x in s.flights :: s2.flights[x] == s.flights[x];
  }

  /** Cancelling the booking behind a hold gives back the flights as they were before it. */
  lemma CancelUndoesFlightHold(rev: Revision, s: Store, s1: Store, u: User, req: FlightRequest, id: Id,
                               reason: Option<string>, now: int)
    requires req.flight in s.flights && F.Consistent(s.flights[req.flight])
    requires F.Resolves(Naming(rev), req.flightClass)
    requires forall k | 0 <= k < |req.seatNumbers| ::
      S.SeatFree(s.flights[req.flight].seats, req.seatNumbers[k], req.flightClass)
    requires FlightHeld(rev, s, s1, req, id)
    requires id in s1.bookings && s1.bookings[id].user == u.id && s1.bookings[id].bookingStatus == Confirmed
    requires s1.bookings[id].details == FlightDetails(req.flight, req.seatNumbers, req.flightClass, req.passengers)
    ensures Cancel(rev, s1, u, id, reason, now).Ok?
    ensures Cancel(rev, s1, u, id, reason, now).value.0.flights == s.flights
  {
    CancelFlightBooking(rev, s1, u, id, reason, now);
    ReleaseUndoesFlightHold(rev, s, s1, req, id, s1.bookings[id]);
  }

  /** Cancelling a flight booking right after making it succeeds and gives back every
      flight exactly as it was: the same seats free and the same counters. */
  lemma BookThenCancelRestoresFlights(rev: Revision, s: Store, u: User, req: FlightRequest, env: Env,
                                      reason: Option<string>, now: int)
    requires env.bookingId !in s.bookings
    requires req.flight in s.flights && F.Consistent(s.flights[req.flight])
    requires BookFlight(rev, s, u, req, env).Ok?
    ensures var s1 := BookFlight(rev, s, u, req, env).value;
      && Cancel(rev, s1, u, env.bookingId, reason, now).Ok?
      && Cancel(rev, s1, u, env.bookingId, reason, now).value.0.flights == s.flights
  {
    var s1 := BookFlight(rev, s, u, req, env).value;
    assert FlightHeld(rev, s, s1, req, env.bookingId);
    CancelUndoesFlightHold(rev, s, s1, u, req, env.bookingId, reason, now);
  }

  /** Under the legacy key naming a first-class booking never succeeds: the handler
      reads a counter field that does not exist and answers 500. */
  lemma FirstClassUnbookable(s: Store, u: User, req: FlightRequest, env: Env)
    requires env.bookingId !in s.bookings
    requires req.flightClass == F.First
    requires FlightRequestValid(req)
    requires req.flight in s.flights && s.flights[req.flight].status == F.FlightActive
    ensures BookFlight(AsWritten, s, u, req, env) == Err(Internal)
  {
  }

  /** With the schema's key naming, first class books like any other class. */
  lemma FirstClassBookable(s: Store, u: User, req: FlightRequest, env: Env)
    requires env.bookingId !in s.bookings
    requires req.flightClass == F.First
    requires FlightRequestValid(req) && Distinct(req.seatNumbers)
    requires req.flight in s.flights && s.flights[req.flight].status == F.FlightActive
    requires |req.seatNumbers| <= s.flights[req.flight].firstClassSeats.available
    requires forall k | 0 <= k < |req.seatNumbers| :: S.SeatFree(s.flights[req.flight].seats, req.seatNumbers[k], F.First)
    requires F.PricesValid(s.flights[req.flight])
    requires env.charge.Paid?
    ensures BookFlight(Revised, s, u, req, env).Ok?
  {
    assert FlightQuote(Revised, s, req).Ok?;
  }

  /** A deactivated flight takes no new booking. */
  lemma DeletedFlightUnbookable(rev: Revision, s: Store, admin: User, u: User, req: FlightRequest, env: Env)
    requires Fl.DeleteFlight(s, admin, req.flight).Ok?
    requires env.bookingId !in Fl.DeleteFlight(s, admin, req.flight).value.bookings
    requires FlightRequestValid(req) && (rev == Revised ==> Distinct(req.seatNumbers))
    ensures BookFlight(rev, Fl.DeleteFlight(s, admin, req.flight).value, u, req, env) == Err(NotFound)
  {
  }

  // ----- hotels -----

  lemma HotelCountersMatch(h: H.Hotel)
    requires Ho.Consistent(h)
    ensures forall t: H.RoomType :: H.CounterMatches(h, t)
  {
    forall t: H.RoomType ensures H.CounterMatches(h, t) {
      match t
      case Standard =>
      case Deluxe =>
      case Suite =>
    }
  }

  /** Room `n` of type `t` exists and is not flagged booked. */
  predicate Vacant(rooms: seq<H.Room>, n: string, t: H.RoomType) {
    var r := R.FindRoom(rooms, n, Some(t));
    r.Some? && !rooms[r.value].isBooked
  }

  /** Holding rooms through a unique lookup keeps every room's flag, holder and stay in
      agreement. */
  lemma MarkKeepsLinks(rooms: seq<H.Room>, nums: seq<string>, scope: Option<H.RoomType>, id: Id, checkIn: int, checkOut: int)
    requires R.UniqueWithin(rooms, scope)
    requires forall k | 0 <= k < |rooms| :: Ho.Linked(rooms[k])
    ensures var g := R.MarkRooms(rooms, nums, scope, id, checkIn, checkOut);
      forall k | 0 <= k < |g| :: Ho.Linked(g[k])
  {
    R.MarkRoomsPointwise(rooms, nums, scope, id, checkIn, checkOut);
  }

  /** Vacating rooms through a unique lookup keeps every room's flag, holder and stay in
      agreement. */
  lemma ReleaseKeepsLinks(rooms: seq<H.Room>, nums: seq<string>, scope: Option<H.RoomType>)
    requires R.UniqueWithin(rooms, scope)
    requires forall k | 0 <= k < |rooms| :: Ho.Linked(rooms[k])
    ensures var g := R.ReleaseRooms(rooms, nums, scope);
      forall k | 0 <= k < |g| :: Ho.Linked(g[k])
  {
    R.ReleaseRoomsPointwise(rooms, nums, scope);
  }

  /** Marking and release keep the rooms of every type distinct by number. */
  lemma LayoutKeepsUnique(h: H.Hotel, g: H.Hotel)
    requires Ho.Consistent(h)
    requires R.SameLayout(h.rooms, g.rooms)
    ensures forall v: H.RoomType :: R.UniqueWithin(g.rooms, Some(v))
  {
    forall v: H.RoomType ensures R.UniqueWithin(g.rooms, Some(v)) {
      R.SameLayoutUnique(h.rooms, g.rooms, Some(v));
    }
  }

  /** Holding distinct vacant rooms of type `t` and lowering that type's counter by
      their number keeps every counter in step with the flags. */
  lemma MarkKeepsRoomCounters(h: H.Hotel, g: H.Hotel, nums: seq<string>, t: H.RoomType, scope: Option<H.RoomType>,
                              id: Id, checkIn: int, checkOut: int)
    requires Ho.Consistent(h)
    requires scope == None || scope == Some(t)
    requires R.UniqueWithin(h.rooms, scope)
    requires Distinct(nums)
    requires forall k | 0 <= k < |nums| :: Vacant(h.rooms, nums[k], t)
    requires g.rooms == R.MarkRooms(h.rooms, nums, scope, id, checkIn, checkOut)
    requires H.TypeRooms(g, t) == Counter(H.TypeRooms(h, t).total, H.TypeRooms(h, t).available - |nums|)
    requires forall v: H.RoomType | v != t :: H.TypeRooms(g, v) == H.TypeRooms(h, v)
    ensures forall v: H.RoomType :: H.CounterMatches(g, v)
  {
    R.MarkRoomsCount(h.rooms, nums, t, scope, id, checkIn, checkOut);
    HotelCountersMatch(h);
    forall v: H.RoomType ensures H.CounterMatches(g, v) {
      assert H.TypeRooms(g, v).total == H.TypeRooms(h, v).total;
    }
  }

  /** Vacating distinct flagged rooms of type `t` and raising that type's counter by
      their number keeps every counter in step with the flags. */
  lemma ReleaseKeepsRoomCounters(h: H.Hotel, g: H.Hotel, nums: seq<string>, t: H.RoomType, scope: Option<H.RoomType>)
    requires Ho.Consistent(h)
    requires scope == None || scope == Some(t)
    requires R.UniqueWithin(h.rooms, scope)
    requires Distinct(nums)
    requires forall k | 0 <= k < |nums| ::
      R.FindRoom(h.rooms, nums[k], Some(t)).Some? && h.rooms[R.FindRoom(h.rooms, nums[k], Some(t)).value].isBooked
    requires g.rooms == R.ReleaseRooms(h.rooms, nums, scope)
    requires H.TypeRooms(g, t) == Counter(H.TypeRooms(h, t).total, H.TypeRooms(h, t).available + |nums|)
    requires forall v: H.RoomType | v != t :: H.TypeRooms(g, v) == H.TypeRooms(h, v)
    ensures forall v: H.RoomType :: H.CounterMatches(g, v)
  {
    R.ReleaseRoomsCount(h.rooms, nums, t, scope);
    HotelCountersMatch(h);
    forall v: H.RoomType ensures H.CounterMatches(g, v) {
      assert H.TypeRooms(g, v).total == H.TypeRooms(h, v).total;
    }
  }

  /** Holding distinct vacant rooms of type `t`, picked by a unique lookup, and lowering
      that type's counter by their number keeps a hotel's inventory invariant. */
  lemma MarkKeepsHotelConsistency(h: H.Hotel, g: H.Hotel, nums: seq<string>, t: H.RoomType, scope: Option<H.RoomType>,
                                  id: Id, checkIn: int, checkOut: int)
    requires Ho.Consistent(h)
    requires scope == None || scope == Some(t)
    requires R.UniqueWithin(h.rooms, scope)
    requires Distinct(nums)
    requires forall k | 0 <= k < |nums| :: Vacant(h.rooms, nums[k], t)
    requires g.rooms == R.MarkRooms(h.rooms, nums, scope, id, checkIn, checkOut)
    requires H.TypeRooms(g, t) == Counter(H.TypeRooms(h, t).total, H.TypeRooms(h, t).available - |nums|)
    requires forall v: H.RoomType | v != t :: H.TypeRooms(g, v) == H.TypeRooms(h, v)
    ensures Ho.Consistent(g)
  {
    LayoutKeepsUnique(h, g);
    MarkKeepsLinks(h.rooms, nums, scope, id, checkIn, checkOut);
    MarkKeepsRoomCounters(h, g, nums, t, scope, id, checkIn, checkOut);
    assert H.CounterMatches(g, H.Standard) && H.CounterMatches(g, H.Deluxe) && H.CounterMatches(g, H.Suite);
  }

  /** Vacating distinct flagged rooms of type `t`, picked by a unique lookup, and raising
      that type's counter by their number keeps a hotel's inventory invariant. */
  lemma ReleaseKeepsHotelConsistency(h: H.Hotel, g: H.Hotel, nums: seq<string>, t: H.RoomType, scope: Option<H.RoomType>)
    requires Ho.Consistent(h)
    requires scope == None || scope == Some(t)
    requires R.UniqueWithin(h.rooms, scope)
    requires Distinct(nums)
    requires forall k | 0 <= k < |nums| ::
      R.FindRoom(h.rooms, nums[k], Some(t)).Some? && h.rooms[R.FindRoom(h.rooms, nums[k], Some(t)).value].isBooked
    requires g.rooms == R.ReleaseRooms(h.rooms, nums, scope)
    requires H.TypeRooms(g, t) == Counter(H.TypeRooms(h, t).total, H.TypeRooms(h, t).available + |nums|)
    requires forall v: H.RoomType | v != t :: H.TypeRooms(g, v) == H.TypeRooms(h, v)
    ensures Ho.Consistent(g)
  {
    LayoutKeepsUnique(h, g);
    ReleaseKeepsLinks(h.rooms, nums, scope);
    ReleaseKeepsRoomCounters(h, g, nums, t, scope);
    assert H.CounterMatches(g, H.Standard) && H.CounterMatches(g, H.Deluxe) && H.CounterMatches(g, H.Suite);
  }

  /** A revised hotel booking always keeps the hotel's inventory invariant: it refuses
      repeated numbers and flagged rooms, and marks by number and type. The handler as
      written keeps it only when room numbers are unique across the hotel and the
      requested rooms are distinct and unflagged (see the findings for what happens
      otherwise). */
  lemma BookHotelKeepsConsistency(rev: Revision, s: Store, u: User, req: HotelRequest, env: Env)
    requires env.bookingId !in s.bookings
    requires req.hotel in s.hotels && Ho.Consistent(s.hotels[req.hotel])
    requires rev == Revised || (&& R.UniqueWithin(s.hotels[req.hotel].rooms, None) && Distinct(req.roomNumbers)
                                && forall k | 0 <= k < |req.roomNumbers| ::
                                     Vacant(s.hotels[req.hotel].rooms, req.roomNumbers[k], req.roomType))
    requires BookHotel(rev, s, u, req, env).Ok?
    ensures req.hotel in BookHotel(rev, s, u, req, env).value.hotels
    ensures Ho.Consistent(BookHotel(rev, s, u, req, env).value.hotels[req.hotel])
  {
    var h := s.hotels[req.hotel];
    var g := BookHotel(rev, s, u, req, env).value.hotels[req.hotel];
    if rev == Revised {
      assert forall k | 0 <= k < |req.roomNumbers| :: Vacant(h.rooms, req.roomNumbers[k], req.roomType) by {
        forall k | 0 <= k < |req.roomNumbers| ensures Vacant(h.rooms, req.roomNumbers[k], req.roomType) {
          assert R.RoomFree(h.rooms, req.roomNumbers[k], req.roomType, req.checkIn, req.checkOut, true);
        }
      }
    }
    MarkKeepsHotelConsistency(h, g, req.roomNumbers, req.roomType, Scope(rev, req.roomType),
                              env.bookingId, req.checkIn, req.checkOut);
  }

  /** A cancellation keeps the booked hotel's inventory invariant when the booking's
      rooms are distinct and still flagged, under the same lookup condition. */
  lemma CancelKeepsHotelConsistency(rev: Revision, s: Store, u: User, id: Id, reason: Option<string>, now: int)
    requires id in s.bookings && s.bookings[id].details.HotelDetails?
    requires s.bookings[id].details.hotel in s.hotels
    requires Ho.Consistent(s.hotels[s.bookings[id].details.hotel])
    requires Distinct(s.bookings[id].details.roomNumbers)
    requires rev == Revised || R.UniqueWithin(s.hotels[s.bookings[id].details.hotel].rooms, None)
    requires var d := s.bookings[id].details; var rooms := s.hotels[d.hotel].rooms;
      forall k | 0 <= k < |d.roomNumbers| ::
        R.FindRoom(rooms, d.roomNumbers[k], Some(d.roomType)).Some? &&
        rooms[R.FindRoom(rooms, d.roomNumbers[k], Some(d.roomType)).value].isBooked
    requires Cancel(rev, s, u, id, reason, now).Ok?
    ensures s.bookings[id].details.hotel in Cancel(rev, s, u, id, reason, now).value.0.hotels
    ensures Ho.Consistent(Cancel(rev, s, u, id, reason, now).value.0.hotels[s.bookings[id].details.hotel])
  {
    var d := s.bookings[id].details;
    var g := ReleaseUnits(rev, s, s.bookings[id]).value.hotels[d.hotel];
    ReleaseKeepsHotelConsistency(s.hotels[d.hotel], g, d.roomNumbers, d.roomType, Scope(rev, d.roomType));
  }

  /** Two hotels equal in every counter and in every other field are the same hotel. */
  lemma HotelsEqual(h: H.Hotel, g: H.Hotel)
    requires forall t: H.RoomType :: H.TypeRooms(g, t) == H.TypeRooms(h, t)
    requires g.(standardRooms := h.standardRooms, deluxeRooms := h.deluxeRooms, suiteRooms := h.suiteRooms) == h
    ensures g == h
  {
    assert H.TypeRooms(g, H.Standard) == H.TypeRooms(h, H.Standard);
    assert H.TypeRooms(g, H.Deluxe) == H.TypeRooms(h, H.Deluxe);
    assert H.TypeRooms(g, H.Suite) == H.TypeRooms(h, H.Suite);
  }

  /** Vacating what a marking just held, and adding back to the counter what it
      subtracted, gives back the hotel, provided the rooms the lookup can reach were
      vacant. */
  lemma HotelRoundTrip(h: H.Hotel, g: H.Hotel, k: H.Hotel, nums: seq<string>, t: H.RoomType, scope: Option<H.RoomType>,
                       id: Id, checkIn: int, checkOut: int)
    requires Ho.Consistent(h)
    requires R.UniqueWithin(h.rooms, scope)
    requires forall j | 0 <= j < |h.rooms| && R.InScope(h.rooms[j], scope) && h.rooms[j].roomNumber in nums ::
      !h.rooms[j].isBooked
    requires g.rooms == R.MarkRooms(h.rooms, nums, scope, id, checkIn, checkOut)
    requires H.TypeRooms(g, t) == Counter(H.TypeRooms(h, t).total, H.TypeRooms(h, t).available - |nums|)
    requires forall v: H.RoomType | v != t :: H.TypeRooms(g, v) == H.TypeRooms(h, v)
    requires g.(standardRooms := h.standardRooms, deluxeRooms := h.deluxeRooms, suiteRooms := h.suiteRooms,
                rooms := h.rooms) == h
    requires k.rooms == R.ReleaseRooms(g.rooms, nums, scope)
    requires H.TypeRooms(k, t) == Counter(H.TypeRooms(g, t).total, H.TypeRooms(g, t).available + |nums|)
    requires forall v: H.RoomType | v != t :: H.TypeRooms(k, v) == H.TypeRooms(g, v)
    requires k.(standardRooms := g.standardRooms, deluxeRooms := g.deluxeRooms, suiteRooms := g.suiteRooms,
                rooms := g.rooms) == g
    ensures k == h
  {
    forall j | 0 <= j < |h.rooms| && R.InScope(h.rooms[j], scope) && h.rooms[j].roomNumber in nums
      ensures h.rooms[j] == R.Vacated(h.rooms[j])
    {
      assert Ho.Linked(h.rooms[j]);
    }
    R.ReleaseUndoesMark(h.rooms, nums, scope, id, checkIn, checkOut);
    forall v: H.RoomType ensures H.TypeRooms(k, v) == H.TypeRooms(h, v) {
    }
    HotelsEqual(h, k);
  }

  /** The owner's cancellation of a live hotel booking succeeds, and its hotels are
      those the release step computes. */
  lemma CancelHotelBooking(rev: Revision, s: Store, u: User, id: Id, reason: Option<string>, now: int)
    requires id in s.bookings && s.bookings[id].user == u.id && s.bookings[id].bookingStatus != Cancelled
    requires s.bookings[id].details.HotelDetails?
    ensures Cancel(rev, s, u, id, reason, now).Ok?
    ensures Cancel(rev, s, u, id, reason, now).value.0.hotels == ReleaseUnits(rev, s, s.bookings[id]).value.hotels
  {
  }

  /** The hotels after a hold of the requested rooms: the booked hotel's rooms marked
      and its type counter lowered, nothing else changed. */
  predicate HotelHeld(rev: Revision, s: Store, s1: Store, req: HotelRequest, id: Id)
    requires req.hotel in s.hotels
  {
    && s1.hotels.Keys == s.hotels.Keys
    && (forall x | x in s.hotels && x != req.hotel :: s1.hotels[x] == s.hotels[x])
    && var h, g := s.hotels[req.hotel], s1.hotels[req.hotel];
      && g.rooms == R.MarkRooms(h.rooms, req.roomNumbers, Scope(rev, req.roomType), id, req.checkIn, req.checkOut)
      && H.TypeRooms(g, req.roomType) ==
           Counter(H.TypeRooms(h, req.roomType).total, H.TypeRooms(h, req.roomType).available - |req.roomNumbers|)
      && (forall v: H.RoomType | v != req.roomType :: H.TypeRooms(g, v) == H.TypeRooms(h, v))
      && g.(standardRooms := h.standardRooms, deluxeRooms := h.deluxeRooms, suiteRooms := h.suiteRooms,
            rooms := h.rooms) == h
  }

  /** Vacating the rooms behind a hold gives back the hotels as they were before it. */
  lemma ReleaseUndoesHotelHold(rev: Revision, s: Store, s1: Store, req: HotelRequest, id: Id, b: Booking)
    requires req.hotel in s.hotels && Ho.Consistent(s.hotels[req.hotel])
    requires R.UniqueWithin(s.hotels[req.hotel].rooms, Scope(rev, req.roomType))
    requires var rooms := s.hotels[req.hotel].rooms;
      forall j | 0 <= j < |rooms| && R.InScope(rooms[j], Scope(rev, req.roomType)) && rooms[j].roomNumber in req.roomNumbers ::
        !rooms[j].isBooked
    requires HotelHeld(rev, s, s1, req, id)
    requires b.details == HotelDetails(req.hotel, req.roomNumbers, req.roomType, req.checkIn, req.checkOut, req.guests)
    ensures ReleaseUnits(rev, s1, b).Ok?
    ensures ReleaseUnits(rev, s1, b).value.hotels == s.hotels
  {
    var s2 := ReleaseUnits(rev, s1, b).value;
    assert s2.hotels[req.hotel] == s.hotels[req.hotel] by {
      HotelRoundTrip(s.hotels[req.hotel], s1.hotels[req.hotel], s2.hotels[req.hotel], req.roomNumbers, req.roomType,
                     Scope(rev, req.roomType), id, req.checkIn, req.checkOut);
    }
    assert forall x | x in s.hotels :: s2.hotels[x] == s.hotels[x];
  }

  /** Cancelling the booking behind a hold gives back the hotels as they were before it. */
  lemma CancelUndoesHotelHold(rev: Revision, s: Store, s1: Store, u: User, req: HotelRequest, id: Id,
                              reason: Option<string>, now: int)
    requires req.hotel in s.hotels && Ho.Consistent(s.hotels[req.hotel])
    requires R.UniqueWithin(s.hotels[req.hotel].rooms, Scope(rev, req.roomType))
    requires var rooms := s.hotels[req.hotel].rooms;
      forall j | 0 <= j < |rooms| && R.InScope(rooms[j], Scope(rev, req.roomType)) && rooms[j].roomNumber in req.roomNumbers ::
        !rooms[j].isBooked
    requires HotelHeld(rev, s, s1, req, id)
    requires id in s1.bookings && s1.bookings[id].user == u.id && s1.bookings[id].bookingStatus == Confirmed
    requires s1.bookings[id].details == HotelDetails(req.hotel, req.roomNumbers, req.roomType, req.checkIn, req.checkOut, req.guests)
    ensures Cancel(rev, s1, u, id, reason, now).Ok?
    ensures Cancel(rev, s1, u, id, reason, now).value.0.hotels == s.hotels
  {
    CancelHotelBooking(rev, s1, u, id, reason, now);
    ReleaseUndoesHotelHold(rev, s, s1, req, id, s1.bookings[id]);
  }

  /** Cancelling a revised hotel booking right after making it succeeds and gives back
      every hotel exactly as it was. As written this holds only when room numbers are
      unique across the hotel and every room the marking loop can reach for the requested
      numbers was unflagged: re-holding a flagged room overwrites its earlier stay. */
  lemma BookThenCancelRestoresHotels(rev: Revision, s: Store, u: User, req: HotelRequest, env: Env,
                                     reason: Option<string>, now: int)
    requires env.bookingId !in s.bookings
    requires req.hotel in s.hotels && Ho.Consistent(s.hotels[req.hotel])
    requires rev == Revised || (&& R.UniqueWithin(s.hotels[req.hotel].rooms, None)
                                && var rooms := s.hotels[req.hotel].rooms;
                                   forall j | 0 <= j < |rooms| && rooms[j].roomNumber in req.roomNumbers ::
                                     !rooms[j].isBooked)
    requires BookHotel(rev, s, u, req, env).Ok?
    ensures var s1 := BookHotel(rev, s, u, req, env).value;
      && Cancel(rev, s1, u, env.bookingId, reason, now).Ok?
      && Cancel(rev, s1, u, env.bookingId, reason, now).value.0.hotels == s.hotels
  {
    var s1 := BookHotel(rev, s, u, req, env).value;
    var rooms := s.hotels[req.hotel].rooms;
    if rev == Revised {
      R.StrictCheckFindsVacant(rooms, req.roomType, req.roomNumbers, req.checkIn, req.checkOut);
    }
    assert HotelHeld(rev, s, s1, req, env.bookingId);
    CancelUndoesHotelHold(rev, s, s1, u, req, env.bookingId, reason, now);
  }

  /** A deactivated hotel takes no new booking. */
  lemma DeletedHotelUnbookable(rev: Revision, s: Store, admin: User, u: User, req: HotelRequest, env: Env)
    requires Ho.DeleteHotel(s, admin, req.hotel).Ok?
    requires env.bookingId !in Ho.DeleteHotel(s, admin, req.hotel).value.bookings
    requires HotelRequestValid(req) && (rev == Revised ==> Distinct(req.roomNumbers)) && req.checkIn < req.checkOut
    ensures BookHotel(rev, Ho.DeleteHotel(s, admin, req.hotel).value, u, req, env) == Err(NotFound)
  {
  }

  // ----- cancellation and money -----

  /** A booking is cancelled at most once: after a successful cancellation the same
      caller's second attempt is refused and changes nothing. */
  lemma CancelOnce(rev: Revision, s: Store, u: User, id: Id, reason: Option<string>, now: int,
                   reason2: Option<string>, later: int)
    requires Cancel(rev, s, u, id, reason, now).Ok?
    ensures Cancel(rev, Cancel(rev, s, u, id, reason, now).value.0, u, id, reason2, later)
            == Err(BadRequest(AlreadyCancelled))
  {
  }

  /** The refund never exceeds what was paid, given a non-negative fee. */
  lemma RefundBounded(s: Store, b: Booking)
    requires b.totalAmount >= 0.0
    requires b.details.FlightDetails? && b.details.flight in s.flights ==> s.flights[b.details.flight].cancellationFee >= 0.0
    requires b.details.HotelDetails? && b.details.hotel in s.hotels ==> s.hotels[b.details.hotel].cancellationFee >= 0.0
    ensures 0.0 <= RefundFor(s, b) <= b.totalAmount
  {
  }

  /** Crediting a non-negative amount or debiting any amount keeps every agent within the
      schema bounds. */
  lemma EarningsStayValid(agents: seq<Agent>, who: Option<Id>, credit: real, debit: real)
    requires AllValid(agents)
    requires credit >= 0.0
    ensures AllValid(CreditAgent(agents, who, credit))
    ensures AllValid(DebitAgent(agents, who, debit))
  {
  }

  /** Crediting a non-negative amount keeps every agent within the schema bounds. */
  lemma CreditKeepsValid(agents: seq<Agent>, who: Option<Id>, amount: real)
    requires AllValid(agents) && amount >= 0.0
    ensures AllValid(CreditAgent(agents, who, amount))
  {
    var r := CreditAgent(agents, who, amount);
    forall k | 0 <= k < |r|
      ensures Valid(r[k])
    {
      assert Valid(agents[k]);
    }
  }

  /** The commission attached to a booking lies between zero and the booking's total. */
  lemma AttachBounded(agents: seq<Agent>, agentId: Option<Id>, total: real)
    requires AllValid(agents) && total >= 0.0
    ensures 0.0 <= AttachAgent(agents, agentId, total).1 <= total
  {
    if AttachAgent(agents, agentId, total).0.Some? {
      CommissionBounded(agents[FindById(agents, agentId.value).value], total);
    }
  }

  /** The agent step of a booking (flight or hotel alike: `CommitFlight` and `CommitHotel`
      both record `AttachAgent`'s pair on the booking and apply `CreditAgent` with it).
      Only the verified agent found by id is credited, on its own record and no other, by
      a commission between zero and the total; otherwise no agent is recorded and the
      agent collection is untouched. */
  lemma BookingCreditsAgent(agents: seq<Agent>, agentId: Option<Id>, total: real,
                            who: Option<Id>, commission: real, credited: seq<Agent>)
    requires UniqueUsers(agents) && AllValid(agents)
    requires total >= 0.0
    requires (who, commission) == AttachAgent(agents, agentId, total)
    requires credited == CreditAgent(agents, who, commission)
    ensures 0.0 <= commission <= total
    ensures AllValid(credited)
    ensures who.None? ==> credited == agents && commission == 0.0
    ensures who.Some? ==> agentId.Some? && FindById(agents, agentId.value).Some?
    ensures who.Some? ==>
      var i := FindById(agents, agentId.value).value;
      && agents[i].isVerified && who == Some(agents[i].userId)
      && credited == agents[i := agents[i].(totalEarnings := agents[i].totalEarnings + commission)]
  {
    AttachBounded(agents, agentId, total);
    CreditKeepsValid(agents, who, commission);
    if who.Some? {
      var i := FindById(agents, agentId.value).value;
      FindByUserUnique(agents, i);
      assert credited == agents[i := agents[i].(totalEarnings := agents[i].totalEarnings + commission)];
    } else {
      assert credited == agents;
    }
  }

  /** The agent step of a cancellation (`Cancel` applies `DebitAgent` with the booking's
      agent and commission exactly when the refund is positive). A refunded cancellation
      takes the commission back from the record of the agent the booking was credited
      to, never below zero, and touches no other record; an unrefunded one, or one whose
      agent has no record, leaves every agent as it was. */
  lemma CancelDebitsAgent(agents: seq<Agent>, agent: Option<Id>, commission: real, refund: real,
                          debited: seq<Agent>)
    requires AllValid(agents)
    requires debited == (if refund > 0.0 then DebitAgent(agents, agent, commission) else agents)
    ensures AllValid(debited)
    ensures !(refund > 0.0) || agent.None? || FindByUser(agents, agent.value).None? ==> debited == agents
    ensures refund > 0.0 && agent.Some? && FindByUser(agents, agent.value).Some? ==>
      var i := FindByUser(agents, agent.value).value;
      debited == agents[i := agents[i].(totalEarnings := Max(0.0, agents[i].totalEarnings - commission))]
  {
    if refund > 0.0 && agent.Some? && FindByUser(agents, agent.value).Some? {
      var i := FindByUser(agents, agent.value).value;
      assert debited == agents[i := agents[i].(totalEarnings := Max(0.0, agents[i].totalEarnings - commission))];
    } else if refund > 0.0 {
      assert debited == agents;
    }
  }
}
