/** The agent routes: an agent confirming a booking it brought in, and an agent's
    statistics. Both sit behind `protect` and `checkAgent`. */
module Agents {
  import opened Common
  import opened AgentModel
  import opened BookingModel
  import opened Db
  import opened Auth
  import opened Ledger
  import Bookings

  /** `PUT /api/agents/bookings/:id/confirm`. The booking is looked up by id and by
      agent together, so an agent only reaches bookings credited to it. As written the
      status is set to confirmed whatever it was; the revised handler refuses a
      cancelled booking. */
  function ConfirmBooking(rev: Bookings.Revision, s: Store, u: User, id: Id): (r: Result<Store>)
    ensures CheckAgent(s.agents, u).Err? ==> r == Err(Forbidden)
    ensures CheckAgent(s.agents, u).Ok? && (id !in s.bookings || s.bookings[id].agent != Some(u.id)) ==>
      r == Err(NotFound)
    ensures r.Ok? ==> && CheckAgent(s.agents, u).Ok?
                      && id in s.bookings && s.bookings[id].agent == Some(u.id)
                      && r.value == s.(bookings := s.bookings[id := s.bookings[id].(bookingStatus := Confirmed)])
    ensures rev == Bookings.AsWritten ==>
      (r.Ok? <==> CheckAgent(s.agents, u).Ok? && id in s.bookings && s.bookings[id].agent == Some(u.id))
    ensures rev == Bookings.Revised ==>
      (r.Ok? <==> && CheckAgent(s.agents, u).Ok? && id in s.bookings && s.bookings[id].agent == Some(u.id)
                  && s.bookings[id].bookingStatus != Cancelled)
    ensures (&& rev == Bookings.Revised && CheckAgent(s.agents, u).Ok? && id in s.bookings
             && s.bookings[id].agent == Some(u.id) && s.bookings[id].bookingStatus == Cancelled) ==>
      r == Err(BadRequest(BookingCancelled))
  {
    if CheckAgent(s.agents, u).Err? then Err(Forbidden)
    else if id !in s.bookings || s.bookings[id].agent != Some(u.id) then Err(NotFound)
    else
      var b := s.bookings[id];
      if rev == Bookings.Revised && b.bookingStatus == Cancelled then Err(BadRequest(BookingCancelled))
      else Ok(s.(bookings := s.bookings[id := b.(bookingStatus := Confirmed)]))
  }

  /** The figures `GET /api/agents/stats` answers. */
  datatype AgentStatsView = AgentStatsView(
    totalBookings: nat,
    confirmedBookings: nat,
    cancelledBookings: nat,
    totalRevenue: real,
    totalCommission: real,
    earnings: real)

  /** `{agent: req.user._id}`: the bookings credited to this user. */
  function Mine(u: User): Query {
    Query(Some(u.id), None, None, None)
  }

  /** `GET /api/agents/stats` over the bookings collection `rows`: counts, revenue and
      commission of the bookings credited to the caller, and the earnings on its Agent
      record. A caller with no Agent record (an admin passes `checkAgent` without one)
      makes `agent.totalEarnings` throw, which the error handler answers with a 500. */
  method AgentStats(agents: seq<Agent>, u: User, rows: seq<Booking>) returns (r: Result<AgentStatsView>)
    ensures CheckAgent(agents, u).Err? ==> r == Err(Forbidden)
    ensures CheckAgent(agents, u).Ok? && FindByUser(agents, u.id).None? ==> r == Err(Internal)
    ensures r.Ok? <==> CheckAgent(agents, u).Ok? && FindByUser(agents, u.id).Some?
    ensures r.Ok? ==> var v := r.value;
      && v.totalBookings == CountWhere(rows, Mine(u))
      && v.confirmedBookings == CountWhere(rows, Mine(u).(status := Some(Confirmed)))
      && v.cancelledBookings == CountWhere(rows, Mine(u).(status := Some(Cancelled)))
      && v.totalRevenue == SumAmount(rows, Mine(u))
      && v.totalCommission == SumCommission(rows, Mine(u))
      && v.earnings == agents[FindByUser(agents, u.id).value].totalEarnings
    ensures r.Ok? ==> r.value.confirmedBookings + r.value.cancelledBookings <= r.value.totalBookings <= |rows|
  {
    if CheckAgent(agents, u).Err? {
      return Err(Forbidden);
    }
    var q := Mine(u);
    var total, confirmed, cancelled := 0, 0, 0;
    var revenue, commission := 0.0, 0.0;
    var i := 0;
    while i < |rows|
      invariant 0 <= i <= |rows|
      invariant total == CountWhere(rows[..i], q)
      invariant confirmed == CountWhere(rows[..i], q.(status := Some(Confirmed)))
      invariant cancelled == CountWhere(rows[..i], q.(status := Some(Cancelled)))
      invariant revenue == SumAmount(rows[..i], q)
      invariant commission == SumCommission(rows[..i], q)
    {
      var b := rows[i];
      assert rows[..i + 1][..i] == rows[..i];
      if Matches(b, q) {
        total := total + 1;
        revenue := revenue + b.totalAmount;
        commission := commission + b.commission;
        if b.bookingStatus == Confirmed {
          confirmed := confirmed + 1;
        } else if b.bookingStatus == Cancelled {
          cancelled := cancelled + 1;
        }
      }
      i := i + 1;
    }
    assert rows[..|rows|] == rows;
    match FindByUser(agents, u.id)
    case None =>
      r := Err(Internal);
    case Some(k) =>
      StatusesPartition(rows, q, Confirmed, Cancelled);
      CountIsSelected(rows, q);
      r := Ok(AgentStatsView(total, confirmed, cancelled, revenue, commission, agents[k].totalEarnings));
  }
}
