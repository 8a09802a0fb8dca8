/** The persistent state, as an in-memory store of documents keyed by id. Agents are
    kept in insertion order because handlers look them up both by id and by `userId`. */
module Db {
  import opened Common
  import opened FlightModel
  import opened HotelModel
  import opened AgentModel
  import opened BookingModel

  datatype Role = UserRole | AgentRole | AdminRole

  /** The authenticated principal (`req.user`): its id and role. */
  datatype User = User(id: Id, role: Role)

  datatype Store = Store(
    users: map<Id, User>,
    agents: seq<Agent>,
    flights: map<Id, Flight>,
    hotels: map<Id, Hotel>,
    bookings: map<Id, Booking>)

}
