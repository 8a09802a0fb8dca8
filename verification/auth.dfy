/** The authentication and authorization middleware: bearer-token extraction
    (`protect`), role membership (`authorize`) and the verified-agent gate
    (`checkAgent`). Token verification is an opaque function of the token. */
module Auth {
  import opened Common
  import opened Text
  import opened AgentModel
  import opened Db

  /** The token `protect` reads from the Authorization header: the second space-separated
      field of a header starting with `Bearer`. A missing or empty field is no token. */
  function BearerToken(header: Option<string>): (token: Option<string>)
    ensures token.Some? ==> header.Some? && StartsWith(header.value, "Bearer")
    ensures token.Some? ==> token.value != "" && ' ' !in token.value
  {
    if header.None? || !StartsWith(header.value, "Bearer") then None
    else
      var parts := Split(header.value, ' ');
      SplitPartsExcludeSep(header.value, ' ');
      if |parts| >= 2 && parts[1] != "" then Some(parts[1]) else None
  }

  /** The header a client builds from a token gives that token back. */
  lemma BearerRoundTrip(token: string)
    requires token != "" && ' ' !in token
    ensures BearerToken(Some("Bearer " + token)) == Some(token)
  {
    var h := "Bearer " + token;
    assert h[..6] == "Bearer";
    assert h == "Bearer" + [' '] + token;
    SplitJoin("Bearer", token, ' ');
    SplitWhole(token, ' ');
  }

  /** `protect`: every refusal is a 401; success yields the user the token names. */
  function Protect(users: map<Id, User>, header: Option<string>, verify: string -> Option<Id>): (r: Result<User>)
    ensures r.Err? ==> r.error == Unauthorized
    ensures BearerToken(header).None? ==> r.Err?
    ensures r.Ok? <==>
      && BearerToken(header).Some?
      && verify(BearerToken(header).value).Some?
      && verify(BearerToken(header).value).value in users
    ensures r.Ok? ==> r.value == users[verify(BearerToken(header).value).value]
  {
    match BearerToken(header)
    case None => Err(Unauthorized)
    case Some(token) =>
      match verify(token)
      case None => Err(Unauthorized)
      case Some(id) => if id in users then Ok(users[id]) else Err(Unauthorized)
  }

  /** `authorize(...roles)`: passes exactly the listed roles, refusing others with 403. */
  function Authorize(roles: seq<Role>, u: User): (r: Result<()>)
    ensures r.Ok? <==> u.role in roles
    ensures r.Err? ==> r.error == Forbidden
  {
    if u.role in roles then Ok(()) else Err(Forbidden)
  }

  /** `checkAgent`: admins pass; agents pass only with a verified Agent record (the first
      found for their user id); everyone else is refused. Every refusal is a 403. */
  function CheckAgent(agents: seq<Agent>, u: User): (r: Result<()>)
    ensures r.Err? ==> r.error == Forbidden
    ensures u.role == UserRole ==> r.Err?
    ensures u.role == AdminRole ==> r.Ok?
  {
    if u.role != AgentRole && u.role != AdminRole then Err(Forbidden)
    else if u.role == AgentRole then
      match FindByUser(agents, u.id)
      case None => Err(Forbidden)
      case Some(i) => if agents[i].isVerified then Ok(()) else Err(Forbidden)
    else Ok(())
  }

  /** With one Agent record per user, an agent passes `checkAgent` exactly when its record
      exists and is verified. */
  lemma CheckAgentVerified(agents: seq<Agent>, u: User)
    requires UniqueUsers(agents)
    requires u.role == AgentRole
    ensures CheckAgent(agents, u).Ok? <==>
      exists i | 0 <= i < |agents| :: agents[i].userId == u.id && agents[i].isVerified
  {
    if CheckAgent(agents, u).Ok? {
      var i := FindByUser(agents, u.id).value;
      assert agents[i].userId == u.id && agents[i].isVerified;
    } else if exists i | 0 <= i < |agents| :: agents[i].userId == u.id && agents[i].isVerified {
      var i :| 0 <= i < |agents| && agents[i].userId == u.id && agents[i].isVerified;
      FindByUserUnique(agents, i);
      assert false;
    }
  }
}
