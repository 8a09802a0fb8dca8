/** The admin routes: approving and withdrawing agents, deleting users and the
    dashboard statistics. Every route sits behind `protect` and `authorize('admin')`. */
module Admin {
  import opened Common
  import opened AgentModel
  import opened BookingModel
  import opened Db
  import opened Auth
  import opened Ledger

  /** The router-level gate `authorize('admin')`. */
  function AdminGate(u: User): (r: Result<()>)
    ensures r.Ok? <==> u.role == AdminRole
    ensures r.Err? ==> r.error == Forbidden
  {
    Authorize([AdminRole], u)
  }

  // ----- agent approval -----

  /** The record an approval leaves: verified now, by this admin. */
  function Verified(a: Agent, admin: Id, now: int): Agent {
    a.(isVerified := true, verifiedAt := Some(now), verifiedBy := Some(admin))
  }

  /** The record a withdrawal leaves: unverified, with no approval stamp. */
  function Unverified(a: Agent): Agent {
    a.(isVerified := false, verifiedAt := None, verifiedBy := None)
  }

  /** `PUT /api/admin/agents/:id/verify`. */
  function VerifyAgent(s: Store, u: User, id: Id, now: int): (r: Result<Store>)
    ensures u.role != AdminRole ==> r == Err(Forbidden)
    ensures u.role == AdminRole && FindById(s.agents, id).None? ==> r == Err(NotFound)
    ensures r.Ok? <==> u.role == AdminRole && FindById(s.agents, id).Some?
    ensures r.Ok? ==> var i := FindById(s.agents, id).value;
      && r.value == s.(agents := r.value.agents)
      && |r.value.agents| == |s.agents|
      && r.value.agents[i].isVerified && r.value.agents[i].verifiedBy == Some(u.id)
      && r.value.agents[i].verifiedAt == Some(now)
      && r.value.agents[i].(isVerified := s.agents[i].isVerified, verifiedAt := s.agents[i].verifiedAt,
                            verifiedBy := s.agents[i].verifiedBy) == s.agents[i]
      && (forall k | 0 <= k < |s.agents| && k != i :: r.value.agents[k] == s.agents[k])
  {
    if AdminGate(u).Err? then Err(Forbidden)
    else match FindById(s.agents, id)
      case None => Err(NotFound)
      case Some(i) => Ok(s.(agents := s.agents[i := Verified(s.agents[i], u.id, now)]))
  }

  /** `PUT /api/admin/agents/:id/unverify`. */
  function UnverifyAgent(s: Store, u: User, id: Id): (r: Result<Store>)
    ensures u.role != AdminRole ==> r == Err(Forbidden)
    ensures u.role == AdminRole && FindById(s.agents, id).None? ==> r == Err(NotFound)
    ensures r.Ok? <==> u.role == AdminRole && FindById(s.agents, id).Some?
    ensures r.Ok? ==> var i := FindById(s.agents, id).value;
      && r.value == s.(agents := r.value.agents)
      && |r.value.agents| == |s.agents|
      && !r.value.agents[i].isVerified && r.value.agents[i].verifiedBy.None? && r.value.agents[i].verifiedAt.None?
      && r.value.agents[i].(isVerified := s.agents[i].isVerified, verifiedAt := s.agents[i].verifiedAt,
                            verifiedBy := s.agents[i].verifiedBy) == s.agents[i]
      && (forall k | 0 <= k < |s.agents| && k != i :: r.value.agents[k] == s.agents[k])
  {
    if AdminGate(u).Err? then Err(Forbidden)
    else match FindById(s.agents, id)
      case None => Err(NotFound)
      case Some(i) => Ok(s.(agents := s.agents[i := Unverified(s.agents[i])]))
  }

  /** Approval and withdrawal keep the one-record-per-user index and the schema bounds. */
  lemma ApprovalKeepsAgentsValid(s: Store, u: User, id: Id, now: int)
    requires UniqueUsers(s.agents) && AllValid(s.agents)
    ensures VerifyAgent(s, u, id, now).Ok? ==>
      UniqueUsers(VerifyAgent(s, u, id, now).value.agents) && AllValid(VerifyAgent(s, u, id, now).value.agents)
    ensures UnverifyAgent(s, u, id).Ok? ==>
      UniqueUsers(UnverifyAgent(s, u, id).value.agents) && AllValid(UnverifyAgent(s, u, id).value.agents)
  {
  }

  /** Approving an approved agent again at the same instant changes nothing. */
  lemma VerifyIdempotent(s: Store, u: User, id: Id, now: int)
    requires VerifyAgent(s, u, id, now).Ok?
    ensures var s1 := VerifyAgent(s, u, id, now).value;
      VerifyAgent(s1, u, id, now) == Ok(s1)
  {
    var s1 := VerifyAgent(s, u, id, now).value;
    var i := FindById(s.agents, id).value;
    assert FindById(s1.agents, id) == Some(i) by {
      assert s1.agents[i].id == id;
      assert forall j | 0 <= j < i :: s1.agents[j].id != id;
    }
    assert s1.agents[i := Verified(s1.agents[i], u.id, now)] == s1.agents;
  }

  /** Withdrawing a withdrawn approval again changes nothing. */
  lemma UnverifyIdempotent(s: Store, u: User, id: Id)
    requires UnverifyAgent(s, u, id).Ok?
    ensures var s1 := UnverifyAgent(s, u, id).value;
      UnverifyAgent(s1, u, id) == Ok(s1)
  {
    var s1 := UnverifyAgent(s, u, id).value;
    var i := FindById(s.agents, id).value;
    assert FindById(s1.agents, id) == Some(i) by {
      assert s1.agents[i].id == id;
      assert forall j | 0 <= j < i :: s1.agents[j].id != id;
    }
    assert s1.agents[i := Unverified(s1.agents[i])] == s1.agents;
  }

  /** Withdrawing an approval returns the agent to the state of one never approved: the
      stamp the approval left is gone. */
  lemma UnverifyUndoesVerify(s: Store, u: User, id: Id, now: int)
    requires VerifyAgent(s, u, id, now).Ok?
    ensures UnverifyAgent(VerifyAgent(s, u, id, now).value, u, id) == UnverifyAgent(s, u, id)
  {
    var s1 := VerifyAgent(s, u, id, now).value;
    var i := FindById(s.agents, id).value;
    assert FindById(s1.agents, id) == Some(i) by {
      assert s1.agents[i].id == id;
      assert forall j | 0 <= j < i :: s1.agents[j].id != id;
    }
    assert s1.agents[i := Unverified(s1.agents[i])] == s.agents[i := Unverified(s.agents[i])];
  }

  /** An approved agent gets past `checkAgent`; a withdrawn one is turned away with 403. */
  lemma ApprovalGatesAgentRoutes(s: Store, u: User, id: Id, now: int, caller: User)
    requires UniqueUsers(s.agents)
    requires u.role == AdminRole && FindById(s.agents, id).Some?
    requires caller == User(s.agents[FindById(s.agents, id).value].userId, AgentRole)
    ensures CheckAgent(VerifyAgent(s, u, id, now).value.agents, caller).Ok?
    ensures CheckAgent(UnverifyAgent(s, u, id).value.agents, caller) == Err(Forbidden)
  {
    var i := FindById(s.agents, id).value;
    var a1 := VerifyAgent(s, u, id, now).value.agents;
    var a2 := UnverifyAgent(s, u, id).value.agents;
    assert UniqueUsers(a1) && UniqueUsers(a2);
    FindByUserUnique(a1, i);
    FindByUserUnique(a2, i);
  }

  // ----- user deletion -----

  /** `DELETE /api/admin/users/:id`. Only the user document goes: the user's bookings
      and Agent record stay behind. */
  function DeleteUser(s: Store, u: User, id: Id): (r: Result<Store>)
    ensures u.role != AdminRole ==> r == Err(Forbidden)
    ensures u.role == AdminRole && id !in s.users ==> r == Err(NotFound)
    ensures u.role == AdminRole && id in s.users && s.users[id].role == AdminRole ==>
      r == Err(BadRequest(CannotDeleteAdmin))
    ensures r.Ok? <==> u.role == AdminRole && id in s.users && s.users[id].role != AdminRole
    ensures r.Ok? ==> && r.value.users.Keys == s.users.Keys - {id}
                      && (forall k | k in r.value.users :: r.value.users[k] == s.users[k])
                      && r.value.agents == s.agents && r.value.bookings == s.bookings
                      && r.value.flights == s.flights && r.value.hotels == s.hotels
  {
    if AdminGate(u).Err? then Err(Forbidden)
    else if id !in s.users then Err(NotFound)
    else if s.users[id].role == AdminRole then Err(BadRequest(CannotDeleteAdmin))
    else Ok(s.(users := s.users - {id}))
  }

  /** A deletion never removes an admin, nor changes one. */
  lemma AdminsSurviveDeletion(s: Store, u: User, id: Id, k: Id)
    requires k in s.users && s.users[k].role == AdminRole
    requires DeleteUser(s, u, id).Ok?
    ensures k in DeleteUser(s, u, id).value.users
    ensures DeleteUser(s, u, id).value.users[k] == s.users[k]
  {
  }

  // ----- dashboard statistics -----

  /** `countDocuments({role})` over the users collection. */
  function CountRole(people: seq<User>, role: Role): (n: nat)
    ensures n <= |people|
  {
    if |people| == 0 then 0
    else CountRole(people[..|people| - 1], role) + (if people[|people| - 1].role == role then 1 else 0)
  }

  /** `countDocuments({isVerified})` over the agents collection. */
  function CountVerified(agents: seq<Agent>, verified: bool): (n: nat)
    ensures n <= |agents|
  {
    if |agents| == 0 then 0
    else CountVerified(agents[..|agents| - 1], verified) + (if agents[|agents| - 1].isVerified == verified then 1 else 0)
  }

  /** Every agent record is either verified or pending. */
  lemma {:induction false} VerifiedOrPending(agents: seq<Agent>)
    ensures CountVerified(agents, true) + CountVerified(agents, false) == |agents|
  {
    if |agents| > 0 {
      VerifiedOrPending(agents[..|agents| - 1]);
    }
  }

  /** The figures `GET /api/admin/stats` answers, without the two top-five aggregations. */
  datatype AdminStatsView = AdminStatsView(
    users: nat,
    agents: nat,
    verifiedAgents: nat,
    pendingAgents: nat,
    bookings: nat,
    confirmed: nat,
    cancelled: nat,
    flightBookings: nat,
    hotelBookings: nat,
    revenue: real)

  /** `GET /api/admin/stats` over the users, agents and bookings collections. Revenue is
      the amount of the bookings whose payment is completed: refunded ones no longer count. */
  function AdminStats(u: User, people: seq<User>, agents: seq<Agent>, rows: seq<Booking>): (r: Result<AdminStatsView>)
    ensures r.Err? <==> u.role != AdminRole
    ensures r.Err? ==> r.error == Forbidden
    ensures r.Ok? ==> var v := r.value;
      && v.verifiedAgents + v.pendingAgents == |agents|
      && v.flightBookings + v.hotelBookings == v.bookings == |rows|
      && v.confirmed + v.cancelled <= v.bookings
      && v.users + v.agents <= |people|
      && v.users == CountRole(people, UserRole) && v.agents == CountRole(people, AgentRole)
      && v.verifiedAgents == CountVerified(agents, true)
      && v.confirmed == CountWhere(rows, Everything.(status := Some(Confirmed)))
      && v.cancelled == CountWhere(rows, Everything.(status := Some(Cancelled)))
      && v.revenue == SumAmount(rows, Everything.(payment := Some(PaymentCompleted)))
    ensures r.Ok? && (forall i | 0 <= i < |rows| :: SchemaValid(rows[i])) ==> r.value.revenue >= 0.0
  {
    if AdminGate(u).Err? then Err(Forbidden)
    else
      VerifiedOrPending(agents);
      RolesExclusive(people);
      AllMatchEverything(rows);
      TypesPartition(rows, Everything);
      StatusesPartition(rows, Everything, Confirmed, Cancelled);
      var paid := Everything.(payment := Some(PaymentCompleted));
      AmountsNonNegative(rows, paid);
      Ok(AdminStatsView(
        CountRole(people, UserRole), CountRole(people, AgentRole),
        CountVerified(agents, true), CountVerified(agents, false),
        CountWhere(rows, Everything),
        CountWhere(rows, Everything.(status := Some(Confirmed))),
        CountWhere(rows, Everything.(status := Some(Cancelled))),
        CountWhere(rows, Everything.(kind := Some(FlightType))),
        CountWhere(rows, Everything.(kind := Some(HotelType))),
        SumAmount(rows, paid)))
  }

  /** A user and an agent count are counts of different roles. */
  lemma {:induction false} RolesExclusive(people: seq<User>)
    ensures CountRole(people, UserRole) + CountRole(people, AgentRole) <= |people|
  {
    if |people| > 0 {
      RolesExclusive(people[..|people| - 1]);
    }
  }

  /** The empty filter matches every booking. */
  lemma {:induction false} AllMatchEverything(rows: seq<Booking>)
    ensures CountWhere(rows, Everything) == |rows|
  {
    if |rows| > 0 {
      AllMatchEverything(rows[..|rows| - 1]);
    }
  }
}
