// The e-voting server's HTTP layer: reading the bearer token, routing the
// `/elections/...` paths, guarding the official actions, and turning each
// service outcome into a status code.
module ServerRoutes {
  import opened Wrappers
  import opened Text
  import opened EvotingTables
  import Ballots
  import ElectionCreation
  import ElectionManagement
  import UserCreation
  import EvotingAuth
  import opened EvotingSession

  const StatusOK := 200
  const StatusCreated := 201
  const StatusNoContent := 204
  const StatusBadRequest := 400
  const StatusUnauthorized := 401
  const StatusForbidden := 403
  const StatusNotFound := 404
  const StatusMethodNotAllowed := 405
  const StatusConflict := 409
  const StatusInternalServerError := 500

  /** Lifetime of a login session: 24 hours, in nanoseconds. */
  const SessionLifetime := 24 * 60 * 60 * NanosPerSecond

  const BearerPrefix := "Bearer "

  /** extractToken: the Authorization header with one leading "Bearer "
      removed; a header without it is used as it is. */
  function ExtractToken(authorization: string): (token: string)
    ensures authorization == "" ==> token == ""
    ensures HasPrefix(authorization, BearerPrefix) ==> BearerPrefix + token == authorization
    ensures !HasPrefix(authorization, BearerPrefix) ==> token == authorization
  {
    if authorization == "" then "" else TrimPrefix(authorization, BearerPrefix)
  }

  /** A client that sends "Bearer <token>" gets its token back. */
  lemma ExtractTokenInverse(token: string)
    ensures ExtractToken(BearerPrefix + token) == token
  {
    TrimPrefixInverse(BearerPrefix, token);
  }

  /** The `/elections/` handler's reading of the rest of the path. */
  datatype ElectionsRoute =
    | BallotDetail(id: string)
    | OfficialAction(id: string, action: string)
    | UnknownRoute

  function RouteElections(httpMethod: string, path: string): (r: ElectionsRoute)
  {
    var parts := Split(TrimPrefix(path, "/elections/"), '/');
    if |parts| == 1 && httpMethod == "GET" then BallotDetail(parts[0])
    else if |parts| < 2 then UnknownRoute
    else OfficialAction(parts[0], parts[1])
  }

  /** `GET /elections/{id}` reaches the ballot detail, and
      `/elections/{id}/{action}` the official action, for any id and action
      free of '/'. */
  lemma RouteElectionsParses(httpMethod: string, id: string, action: string)
    requires forall i :: 0 <= i < |id| ==> id[i] != '/'
    requires forall i :: 0 <= i < |action| ==> action[i] != '/'
    ensures httpMethod == "GET" ==> RouteElections(httpMethod, "/elections/" + id) == BallotDetail(id)
    ensures RouteElections(httpMethod, "/elections/" + id + "/" + action) == OfficialAction(id, action)
  {
    TrimPrefixInverse("/elections/", id);
    SplitJoin([id], '/');
    assert "/elections/" + id + "/" + action == "/elections/" + (id + "/" + action);
    TrimPrefixInverse("/elections/", id + "/" + action);
    SplitJoin([id, action], '/');
    JoinHead(id, [action], '/');
  }

  /** Who may run an official action: a POST (or a GET of `results`)
      bearing a token that validates. The acting official is the session's
      user, never anything in the request. */
  function OfficialGate(httpMethod: string, action: string, authorization: string,
                        session: Result<Session, SessionError>): (r: Result<string, int>)
    ensures r.Ok? <==>
      (httpMethod == "POST" || (httpMethod == "GET" && action == "results"))
      && ExtractToken(authorization) != "" && session.Ok?
    ensures r.Ok? ==> r.value == session.value.userId
    ensures r.Err? ==> r.error in {StatusMethodNotAllowed, StatusUnauthorized}
  {
    if httpMethod != "POST" && !(httpMethod == "GET" && action == "results") then Err(StatusMethodNotAllowed)
    else if ExtractToken(authorization) == "" then Err(StatusUnauthorized)
    else if session.Err? then Err(StatusUnauthorized)
    else Ok(session.value.userId)
  }

  /** handleErr: the status for a lifecycle, tally or results failure. */
  function LifecycleStatus(e: ElectionManagement.LifecycleError): (code: int)
    ensures code == StatusNotFound <==> e.ElectionNotFound?
    ensures code == StatusForbidden <==> e.NotAuthorized?
    ensures code == StatusConflict <==> e.ElectionAlreadyActive? || e.ElectionAlreadyClosed?
    ensures code == StatusBadRequest <==> e.InvalidStatus? || e.ElectionNotClosed?
    ensures code == StatusInternalServerError <==> e.StoreFailure?
  {
    match e
    case ElectionNotFound => StatusNotFound
    case NotAuthorized => StatusForbidden
    case ElectionAlreadyActive | ElectionAlreadyClosed => StatusConflict
    case InvalidStatus(_) | ElectionNotClosed => StatusBadRequest
    case StoreFailure(_) => StatusInternalServerError
  }

  /** The status of an official action past the gate: open and close answer
      204 with no body, tally and results 200 with the sheet, anything else
      404 without calling a service. */
  function ActionStatus(action: string, outcome: Option<ElectionManagement.LifecycleError>): (code: int)
    ensures action !in {"open", "close", "tally", "results"} ==> code == StatusNotFound
    ensures action in {"open", "close"} && outcome.None? ==> code == StatusNoContent
    ensures action in {"tally", "results"} && outcome.None? ==> code == StatusOK
    ensures action in {"open", "close", "tally", "results"} && outcome.Some? ==>
      code == LifecycleStatus(outcome.value)
  {
    if action == "open" || action == "close" then
      (if outcome.Some? then LifecycleStatus(outcome.value) else StatusNoContent)
    else if action == "tally" || action == "results" then
      (if outcome.Some? then LifecycleStatus(outcome.value) else StatusOK)
    else StatusNotFound
  }

  /** `/ballots`: 201 with the count on success, otherwise the status for
      the ballot error. No session is consulted: the voter is whoever the
      body names. */
  function BallotStatus(err: Option<Ballots.BallotError>): (code: int)
    ensures err.None? <==> code == StatusCreated
    ensures code == StatusForbidden <==> err == Some(Ballots.ElectionNotActive)
    ensures code == StatusBadRequest <==>
      err.Some? && err.value in {Ballots.PositionNotInElection, Ballots.CandidateNotInPosition,
                                 Ballots.BallotEmpty, Ballots.DuplicatePositionPick}
    ensures code == StatusConflict <==>
      err == Some(Ballots.DuplicateVote) || err == Some(Ballots.ForeignKeyFailed)
    ensures code == StatusInternalServerError <==>
      err == Some(Ballots.VoterAndElectionRequired) || err == Some(Ballots.ElectionMissing)
  {
    match err
    case None => StatusCreated
    case Some(e) =>
      match e
      case ElectionNotActive => StatusForbidden
      case PositionNotInElection | CandidateNotInPosition | BallotEmpty | DuplicatePositionPick => StatusBadRequest
      case DuplicateVote => StatusConflict
      case ForeignKeyFailed => StatusConflict
      case VoterAndElectionRequired | ElectionMissing => StatusInternalServerError
  }

  /** `POST /elections` (and `/all-elections`): 204 on success; too few
      positions or candidates is 400, an unknown official 409, and the
      blank-name errors, which match neither, 500. */
  function CreationStatus(err: Option<ElectionCreation.CreationError>): (code: int)
    ensures err.None? <==> code == StatusNoContent
    ensures code == StatusBadRequest <==>
      err.Some? && (err.value.TooFewPositions? || err.value.TooFewCandidates?)
    ensures code == StatusConflict <==> err == Some(ElectionCreation.ForeignKeyFailed)
    ensures code == StatusInternalServerError <==>
      err.Some? && (err.value.PositionNameRequired? || err.value.CandidateNameRequired?
                    || err.value.CandidatePartyRequired?)
  {
    match err
    case None => StatusNoContent
    case Some(e) =>
      match e
      case TooFewPositions | TooFewCandidates(_) => StatusBadRequest
      case ForeignKeyFailed => StatusConflict
      case PositionNameRequired | CandidateNameRequired(_) | CandidatePartyRequired(_) => StatusInternalServerError
  }

  /** `POST /users`: 204 on success, 403 for the refusal no path produces,
      409 for an existing user, 400 for every input error. */
  function UserStatus(err: Option<UserCreation.UserError>): (code: int)
    ensures err.None? <==> code == StatusNoContent
    ensures code == StatusForbidden <==> err == Some(UserCreation.Unauthorized)
    ensures code == StatusConflict <==> err.Some? && err.value.UserExists?
    ensures code == StatusBadRequest <==> err.Some? && !err.value.UserExists? && err.value != UserCreation.Unauthorized
  {
    match err
    case None => StatusNoContent
    case Some(e) =>
      if e == UserCreation.Unauthorized then StatusForbidden
      else if e.UserExists? then StatusConflict
      else StatusBadRequest
  }

  /** Since CreateUser never refuses for lack of authority, `/users` never
      answers 403, whoever is logged in. */
  lemma UsersNeverForbidden(users: seq<User>, n: UserCreation.NewUser, now: int)
    ensures UserStatus(UserCreation.CheckNewUser(users, n, now)) != StatusForbidden
  {
  }

  /** `POST /auth/login`: the credentials are checked with the user id as
      sent; on success a 24-hour session is stored for that same
      (untrimmed) user id with the stored role, and its token returned.
      A bad user name or password is 401. */
  method Login(store: SessionStore, creds: seq<Credential>, userId: string, password: string,
               sha: string -> string, now: int, prng: int -> string)
    returns (code: int, token: string)
    requires store.Valid()
    modifies store
    ensures store.Valid()
    ensures var auth := EvotingAuth.AuthenticateUser(creds, userId, password, sha);
      if auth.Ok? then
        code == StatusOK && token == TokenAt(prng, now)
        && store.sessions == Stored(old(store.sessions), Session(token, userId, auth.value, now + SessionLifetime))
      else
        code == StatusUnauthorized && token == "" && store.sessions == old(store.sessions)
  {
    var auth := EvotingAuth.AuthenticateUser(creds, userId, password, sha);
    if auth.Err? {
      return StatusUnauthorized, "";
    }
    token := store.CreateSession(userId, auth.value, SessionLifetime, now, prng);
    code := StatusOK;
  }

  /** `POST /auth/logout`: deletes the session of the bearer token, if one
      was sent, and answers 200 either way. */
  method Logout(store: SessionStore, authorization: string) returns (code: int)
    requires store.Valid()
    modifies store
    ensures store.Valid()
    ensures code == StatusOK
    ensures ExtractToken(authorization) != "" ==> store.sessions == old(store.sessions) - {ExtractToken(authorization)}
    ensures ExtractToken(authorization) == "" ==> store.sessions == old(store.sessions)
  {
    var token := ExtractToken(authorization);
    if token != "" {
      store.DeleteSession(token);
    }
    code := StatusOK;
  }
}
