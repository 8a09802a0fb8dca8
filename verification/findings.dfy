/** Defects of the booking backend, each shown on the handler as written and set
    against the revised handler that the rest of the model proves correct. */
module Findings {
  import opened Common
  import opened Text
  import F = FlightModel
  import H = HotelModel
  import S = SeatMarking
  import R = RoomMarking
  import Ho = Hotels
  import opened AgentModel
  import opened BookingModel
  import opened Db
  import opened Auth
  import opened Bookings
  import Agents

  // ----- a seat number requested twice -----

  /** The validation loop checks every requested seat against the stored flight, so a
      free seat named twice passes twice; the marking loop then books that one seat twice
      over. Two seats are charged and counted, one is held. */
  lemma DuplicateSeatCountedTwice(seats: seq<F.Seat>, n: string, c: F.SeatClass, booking: Id)
    requires F.UniqueSeatNumbers(seats)
    requires S.SeatFree(seats, n, c)
    ensures S.CheckSeats(seats, c, [n, n]).None?
    ensures F.BookedCount(S.MarkSeats(seats, [n, n], booking), c) == F.BookedCount(seats, c) + 1
  {
    var i := S.FindInClass(seats, n, c).value;
    S.FindByNumberUnique(seats, i);
    var s1 := S.MarkSeat(seats, n, booking);
    assert s1 == seats[i := S.Booked(seats[i], booking)];
    F.BookedCountUpdate(seats, i, S.Booked(seats[i], booking), c);
    S.SameLayoutFind(seats, s1, n, c);
    assert S.MarkSeat(s1, n, booking) == s1;
    assert S.MarkSeats(seats, [n, n], booking) == S.MarkSeats(s1, [n], booking);
    assert S.MarkSeats(s1, [n], booking) == S.MarkSeats(s1, [], booking);
  }

  /** As written, booking one free seat twice in a single request succeeds and leaves the
      class counter one below the seats actually free: the flight's inventory invariant
      is broken. (Economy, say: a flight with seats E1 and E2 free and counter 2 of 2,
      asked for `["E1", "E1"]`, ends with E1 booked, E2 free and 0 of 2 available.) */
  lemma DuplicateSeatsBreakCounter(s: Store, u: User, req: FlightRequest, env: Env, n: string)
    requires env.bookingId !in s.bookings
    requires req.flight in s.flights && F.Consistent(s.flights[req.flight])
    requires req.seatNumbers == [n, n]
    requires BookFlight(AsWritten, s, u, req, env).Ok?
    ensures req.flight in BookFlight(AsWritten, s, u, req, env).value.flights
    ensures !F.CounterMatches(BookFlight(AsWritten, s, u, req, env).value.flights[req.flight], req.flightClass)
  {
    var f := s.flights[req.flight];
    var g := BookFlight(AsWritten, s, u, req, env).value.flights[req.flight];
    var c := req.flightClass;
    assert S.SeatFree(f.seats, n, c) by {
      assert S.SeatFree(f.seats, req.seatNumbers[0], c);
    }
    DuplicateSeatCountedTwice(f.seats, n, c, env.bookingId);
    assert F.CounterMatches(f, c) by {
      match c
      case Economy =>
      case Business =>
      case First =>
    }
  }

  /** The revised handler refuses a request that names a seat twice, before any lookup. */
  lemma DuplicateSeatsRefused(s: Store, u: User, req: FlightRequest, env: Env)
    requires env.bookingId !in s.bookings
    requires FlightRequestValid(req) && !Distinct(req.seatNumbers)
    ensures BookFlight(Revised, s, u, req, env) == Err(BadRequest(DuplicateUnits))
  {
  }

  // ----- a room number shared by two room types -----

  /** A hotel created with one standard room and one suite has two rooms numbered `S1`.
      As written, a suite booking of `S1` passes validation (which looks the number up
      among suites) but the marking loop holds the first room numbered `S1`, the standard
      room: the suite stays free and the standard room is taken. */
  lemma SuiteBookingHoldsStandardRoom(booking: Id, checkIn: int, checkOut: int)
    ensures var rooms := Ho.GenerateRooms(1, 0, 1);
      && R.CheckRooms(rooms, H.Suite, ["S1"], checkIn, checkOut, Strict(AsWritten)).None?
      && var held := R.MarkRooms(rooms, ["S1"], Scope(AsWritten, H.Suite), booking, checkIn, checkOut);
        && held[0].roomType == H.Standard && held[0].isBooked
        && held[1].roomType == H.Suite && !held[1].isBooked
  {
    var rooms := Ho.GenerateRooms(1, 0, 1);
    Ho.RoomNumbersCollide(1, 0, 1);
    assert rooms[1..][0] == rooms[1];
    assert R.FindRoom(rooms[1..], "S1", Some(H.Suite)) == Some(0);
    assert R.FindRoom(rooms, "S1", Some(H.Suite)) == Some(1);
    assert R.FindRoom(rooms, "S1", None) == Some(0);
    var held := R.MarkRooms(rooms, ["S1"], None, booking, checkIn, checkOut);
    assert held == R.MarkRoom(rooms, "S1", None, booking, checkIn, checkOut);
  }

  /** The revised handler marks by number and type, so the same booking holds the suite
      and leaves the standard room alone. */
  lemma SuiteBookingHoldsSuite(booking: Id, checkIn: int, checkOut: int)
    ensures var rooms := Ho.GenerateRooms(1, 0, 1);
      var held := R.MarkRooms(rooms, ["S1"], Scope(Revised, H.Suite), booking, checkIn, checkOut);
      && held[0] == rooms[0]
      && held[1].roomType == H.Suite && held[1].isBooked && held[1].bookedBy == Some(booking)
  {
    var rooms := Ho.GenerateRooms(1, 0, 1);
    Ho.RoomNumbersCollide(1, 0, 1);
    assert rooms[1..][0] == rooms[1];
    assert R.FindRoom(rooms[1..], "S1", Some(H.Suite)) == Some(0);
    assert R.FindRoom(rooms, "S1", Some(H.Suite)) == Some(1);
    var held := R.MarkRooms(rooms, ["S1"], Some(H.Suite), booking, checkIn, checkOut);
    assert held == R.MarkRoom(rooms, "S1", Some(H.Suite), booking, checkIn, checkOut);
  }

  // ----- a held room booked again for another stay -----

  /** The settings in which a booked room is asked for again: the hotel is active and
      consistent, room numbers are unique across it, the request names only room `i`
      of the requested type, which is flagged for a stay that does not overlap the new
      one, the type's counter still shows a free room, prices are within the schema's
      bounds and the payment goes through. */
  predicate RebookingSetting(s: Store, req: HotelRequest, env: Env, i: nat) {
    && env.bookingId !in s.bookings
    && req.hotel in s.hotels && s.hotels[req.hotel].status == H.HotelActive
    && Ho.Consistent(s.hotels[req.hotel]) && R.UniqueWithin(s.hotels[req.hotel].rooms, None)
    && H.SchemaValid(s.hotels[req.hotel])
    && var rooms := s.hotels[req.hotel].rooms;
      && i < |rooms| && rooms[i].roomType == req.roomType && rooms[i].isBooked
      && !H.Overlaps(rooms[i], req.checkIn, req.checkOut)
      && req.roomNumbers == [rooms[i].roomNumber]
      && req.checkIn < req.checkOut
      && H.TypeRooms(s.hotels[req.hotel], req.roomType).available >= 1
      && env.charge.Paid?
  }

  /** As written, a room held for one stay is accepted for another stay that does not
      overlap it: the booking succeeds, the room's earlier stay is overwritten, and the
      type's counter drops although no further room is flagged, so the counter no longer
      agrees with the rooms. (A hotel with standard rooms S1, held for days 0-1, and S2,
      counter 1 of 2, asked for S1 over days 100-102, ends with the counter at 0 of 2
      and S2 still free.) */
  lemma RebookingBreaksCounter(s: Store, u: User, req: HotelRequest, env: Env, i: nat)
    requires RebookingSetting(s, req, env, i)
    ensures BookHotel(AsWritten, s, u, req, env).Ok?
    ensures req.hotel in BookHotel(AsWritten, s, u, req, env).value.hotels
    ensures !H.CounterMatches(BookHotel(AsWritten, s, u, req, env).value.hotels[req.hotel], req.roomType)
  {
    var h := s.hotels[req.hotel];
    var n := h.rooms[i].roomNumber;
    var t := req.roomType;
    R.UniqueNarrows(h.rooms, t);
    R.FindRoomUnique(h.rooms, i, Some(t));
    R.FindRoomUnique(h.rooms, i, None);
    assert R.RoomFree(h.rooms, req.roomNumbers[0], t, req.checkIn, req.checkOut, Strict(AsWritten));
    assert HotelQuote(AsWritten, s, req).Ok?;
    var price := H.TypePrice(h, t);
    var nights := Nights(req.checkOut - req.checkIn) as real;
    assert price >= 0.0 by {
      match t
      case Standard =>
      case Deluxe =>
      case Suite =>
    }
    assert price * nights >= 0.0;
    assert HotelQuote(AsWritten, s, req).value * (|req.roomNumbers| as real) >= 0.0;
    var g := BookHotel(AsWritten, s, u, req, env).value.hotels[req.hotel];
    var x := R.Held(h.rooms[i], env.bookingId, req.checkIn, req.checkOut);
    assert R.MarkRooms(h.rooms, req.roomNumbers, None, env.bookingId, req.checkIn, req.checkOut)
           == R.MarkRooms(h.rooms[i := x], [], None, env.bookingId, req.checkIn, req.checkOut);
    assert g.rooms == h.rooms[i := x];
    H.BookedCountUpdate(h.rooms, i, x, t);
    assert H.CounterMatches(h, t) by {
      match t
      case Standard =>
      case Deluxe =>
      case Suite =>
    }
  }

  /** The revised handler refuses a room that is already held, whatever its stay, so
      the counter keeps agreeing with the rooms. */
  lemma RebookingRefused(s: Store, u: User, req: HotelRequest, env: Env, i: nat)
    requires RebookingSetting(s, req, env, i)
    ensures BookHotel(Revised, s, u, req, env) == Err(BadRequest(UnitBooked(req.roomNumbers[0])))
  {
    var h := s.hotels[req.hotel];
    R.UniqueNarrows(h.rooms, req.roomType);
    R.FindRoomUnique(h.rooms, i, Some(req.roomType));
    assert Distinct(req.roomNumbers);
    assert HotelQuote(Revised, s, req) == Err(BadRequest(UnitBooked(req.roomNumbers[0])));
  }

  // ----- confirming a cancelled booking -----

  /** As written, the agent's confirm action sets a cancelled booking back to confirmed,
      and the booking can then be cancelled a second time: the release runs again and the
      class counter rises by the booking's seats once more, although those seats were
      already given back by the first cancellation. */
  lemma ConfirmReopensCancelled(s: Store, agent: User, caller: User, id: Id, reason: Option<string>, now: int)
    requires id in s.bookings && s.bookings[id].bookingStatus == Cancelled
    requires s.bookings[id].agent == Some(agent.id) && CheckAgent(s.agents, agent).Ok?
    requires caller.role != UserRole || s.bookings[id].user == caller.id
    requires s.bookings[id].details.FlightDetails?
    requires s.bookings[id].details.flight in s.flights
    requires s.bookings[id].details.flightClass != F.First
    ensures Agents.ConfirmBooking(AsWritten, s, agent, id).Ok?
    ensures var s1 := Agents.ConfirmBooking(AsWritten, s, agent, id).value;
      var d := s.bookings[id].details;
      && Cancel(AsWritten, s1, caller, id, reason, now).Ok?
      && F.ClassSeats(Cancel(AsWritten, s1, caller, id, reason, now).value.0.flights[d.flight], d.flightClass).available
         == F.ClassSeats(s.flights[d.flight], d.flightClass).available + |d.seatNumbers|
  {
    var s1 := Agents.ConfirmBooking(AsWritten, s, agent, id).value;
    var b1 := s1.bookings[id];
    assert b1.details == s.bookings[id].details;
    assert s1.flights == s.flights;
    assert F.Resolves(Naming(AsWritten), b1.details.flightClass);
  }

  /** The revised confirm action refuses a cancelled booking and changes nothing, so a
      cancelled booking stays cancelled and a second cancellation is refused. */
  lemma CancelledStaysCancelled(s: Store, agent: User, caller: User, id: Id, reason: Option<string>, now: int)
    requires id in s.bookings && s.bookings[id].bookingStatus == Cancelled
    requires caller.role != UserRole || s.bookings[id].user == caller.id
    ensures Agents.ConfirmBooking(Revised, s, agent, id).Err?
    ensures Cancel(Revised, s, caller, id, reason, now) == Err(BadRequest(AlreadyCancelled))
  {
  }
}
