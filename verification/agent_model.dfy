/** The Agent document: verification state, commission rate and running earnings. */
module AgentModel {
  import opened Common

  datatype Agent = Agent(
    id: Id,
    userId: Id,
    companyName: string,
    licenseNumber: string,
    isVerified: bool,
    commissionRate: real,   // percent
    totalEarnings: real,
    verifiedAt: Option<int>,
    verifiedBy: Option<Id>)

  /** A freshly registered agent, with the schema's defaults. */
  function NewAgent(id: Id, userId: Id, companyName: string, licenseNumber: string): (a: Agent)
    ensures a.id == id && a.userId == userId
    ensures !a.isVerified
    ensures a.commissionRate == 10.0
    ensures a.totalEarnings == 0.0
    ensures a.verifiedAt.None? && a.verifiedBy.None?
  {
    Agent(id, userId, companyName, licenseNumber, false, 10.0, 0.0, None, None)
  }

  /** Schema bounds: `0 <= commissionRate <= 100`; earnings never go negative. */
  predicate Valid(a: Agent) {
    0.0 <= a.commissionRate <= 100.0 && a.totalEarnings >= 0.0
  }

  /** Every agent in the collection is within the schema bounds. */
  predicate AllValid(agents: seq<Agent>) {
    forall i | 0 <= i < |agents| :: Valid(agents[i])
  }

  /** The unique index on `userId`: no two Agent records belong to one user. */
  predicate UniqueUsers(agents: seq<Agent>) {
    forall i, j | 0 <= i < j < |agents| :: agents[i].userId != agents[j].userId
  }

  /** The two keys agent records are looked up by. */
  datatype AgentKey = ById | ByUser

  function KeyOf(a: Agent, key: AgentKey): Id {
    match key
    case ById => a.id
    case ByUser => a.userId
  }

  /** The position of the first record whose `key` field equals `v`. */
  function FindFirst(agents: seq<Agent>, key: AgentKey, v: Id): (r: Option<nat>)
    ensures r.Some? ==> r.value < |agents| && KeyOf(agents[r.value], key) == v
    ensures r.Some? ==> forall j | 0 <= j < r.value :: KeyOf(agents[j], key) != v
    ensures r.None? ==> forall j | 0 <= j < |agents| :: KeyOf(agents[j], key) != v
  {
    if |agents| == 0 then None
    else if KeyOf(agents[0], key) == v then Some(0)
    else match FindFirst(agents[1..], key, v)
      case None => None
      case Some(k) => Some(k + 1)
  }

  /** `Agent.findById(id)`: the position of the first record with that id. */
  function FindById(agents: seq<Agent>, id: Id): (r: Option<nat>)
    ensures r.Some? ==> r.value < |agents| && agents[r.value].id == id
    ensures r.Some? ==> forall j | 0 <= j < r.value :: agents[j].id != id
    ensures r.None? ==> forall j | 0 <= j < |agents| :: agents[j].id != id
  {
    FindFirst(agents, ById, id)
  }

  /** `Agent.findOne({userId})`: the position of the first record of that user. */
  function FindByUser(agents: seq<Agent>, userId: Id): (r: Option<nat>)
    ensures r.Some? ==> r.value < |agents| && agents[r.value].userId == userId
    ensures r.Some? ==> forall j | 0 <= j < r.value :: agents[j].userId != userId
    ensures r.None? ==> forall j | 0 <= j < |agents| :: agents[j].userId != userId
  {
    FindFirst(agents, ByUser, userId)
  }

  /** With unique user ids, the lookup by user finds the one record of that user. */
  lemma FindByUserUnique(agents: seq<Agent>, i: nat)
    requires UniqueUsers(agents)
    requires i < |agents|
    ensures FindByUser(agents, agents[i].userId) == Some(i)
  {
  }

  /** `totalAmount * commissionRate / 100`. */
  function Commission(a: Agent, totalAmount: real): real {
    totalAmount * a.commissionRate / 100.0
  }

  /** A rate within the schema bounds yields a commission between 0 and the amount. */
  lemma CommissionBounded(a: Agent, totalAmount: real)
    requires Valid(a)
    requires totalAmount >= 0.0
    ensures 0.0 <= Commission(a, totalAmount) <= totalAmount
  {
    var p := totalAmount * a.commissionRate;
    assert 0.0 <= p <= totalAmount * 100.0;
    assert p / 100.0 <= totalAmount;
  }
}
