// The thermostat backend's sign-in endpoints: homeowner, guest and
// technician login, and homeowner sign-up. Hash checking is a parameter:
// `check(hash, plain)` stands for bcrypt's comparison.
module ThermoAuth {
  import opened Wrappers
  import opened ThermoTables
  import opened ThermoSession
  import opened ThermoApi
  import TechnicianAccess

  /** The outcome of a login's checks: the user to open a session for, with
      the homeowner it acts for, or the status and message of the refusal. */
  datatype LoginDecision = Granted(user: User, homeownerId: int) | Refused(code: int, message: string)

  /** handleLoginHomeowner's checks. */
  function HomeownerDecision(users: seq<User>, username: string, password: string,
                             check: (string, string) -> bool): (d: LoginDecision)
    ensures d.Granted? <==>
      var u := ByUsername(users, username);
      u.Some? && u.value.role == RoleHomeowner && u.value.passwordHash.Some?
      && check(u.value.passwordHash.value, password)
    ensures d.Granted? ==> d == Granted(ByUsername(users, username).value, 0)
    ensures d.Refused? ==> d.code == StatusUnauthorized
  {
    match ByUsername(users, username)
    case None => Refused(StatusUnauthorized, "invalid username")
    case Some(u) =>
      if u.role != RoleHomeowner || u.passwordHash.None? || !check(u.passwordHash.value, password) then
        Refused(StatusUnauthorized, "invalid role")
      else Granted(u, 0)
  }

  /** handleLoginGuest's checks. The homeowner named in the request plays
      no part: the session acts for the homeowner the guest is linked to. */
  function GuestDecision(users: seq<User>, username: string, pin: string,
                         check: (string, string) -> bool): (d: LoginDecision)
    ensures d.Granted? <==>
      var u := ByUsername(users, username);
      u.Some? && u.value.role == RoleGuest && u.value.pin.Some? && check(u.value.pin.value, pin)
      && u.value.homeownerId.Some?
    ensures d.Granted? ==>
      d.user == ByUsername(users, username).value && d.homeownerId == d.user.homeownerId.value
    ensures d.Refused? ==> (d.code == StatusForbidden <==>
      var u := ByUsername(users, username);
      u.Some? && u.value.role == RoleGuest && u.value.pin.Some? && check(u.value.pin.value, pin))
    ensures d.Refused? ==> d.code in {StatusUnauthorized, StatusForbidden}
  {
    match ByUsername(users, username)
    case None => Refused(StatusUnauthorized, "invalid username")
    case Some(u) =>
      if u.role != RoleGuest || u.pin.None? then Refused(StatusUnauthorized, "invalid role")
      else if !check(u.pin.value, pin) then Refused(StatusUnauthorized, "invalid pin")
      else if u.homeownerId.None? then Refused(StatusForbidden, "not linked to homeowner")
      else Granted(u, u.homeownerId.value)
  }

  /** The technician's own credentials hold. */
  predicate TechnicianCredentialsHold(users: seq<User>, username: string, password: string,
                                      check: (string, string) -> bool)
  {
    var t := ByUsername(users, username);
    t.Some? && t.value.role == RoleTechnician && t.value.passwordHash.Some?
    && check(t.value.passwordHash.value, password)
  }

  /** handleLoginTechnician's checks up to the access window: the
      technician and the homeowner it asks to act for. Credential failures
      are 401, a missing or non-homeowner target 403. */
  function TechnicianTarget(users: seq<User>, username: string, password: string, homeowner: string,
                            check: (string, string) -> bool): (r: Result<(User, User), (int, string)>)
    ensures r.Ok? <==>
      TechnicianCredentialsHold(users, username, password, check)
      && ByUsername(users, homeowner).Some? && ByUsername(users, homeowner).value.role == RoleHomeowner
    ensures r.Ok? ==> r.value == (ByUsername(users, username).value, ByUsername(users, homeowner).value)
    ensures r.Err? ==> (r.error.0 == StatusUnauthorized <==> !TechnicianCredentialsHold(users, username, password, check))
    ensures r.Err? ==> r.error.0 in {StatusUnauthorized, StatusForbidden}
  {
    match ByUsername(users, username)
    case None => Err((StatusUnauthorized, "invalid username"))
    case Some(t) =>
      if t.role != RoleTechnician then Err((StatusUnauthorized, "invalid role"))
      else if t.passwordHash.None? then Err((StatusUnauthorized, "no password hash found for account"))
      else if !check(t.passwordHash.value, password) then Err((StatusUnauthorized, "password does not match stored hash"))
      else match ByUsername(users, homeowner)
        case None => Err((StatusForbidden, "homeowner not found"))
        case Some(h) =>
          if h.role != RoleHomeowner then Err((StatusForbidden, "invalid homeowner target"))
          else Ok((t, h))
  }

  /** handleLoginTechnician's checks in full, over the access table as it
      stood before the login. */
  function TechnicianDecision(users: seq<User>, access: seq<TechnicianAccess.Access>, username: string,
                              password: string, homeowner: string, check: (string, string) -> bool,
                              now: int): (d: LoginDecision)
    ensures d.Granted? <==>
      var r := TechnicianTarget(users, username, password, homeowner, check);
      r.Ok? && TechnicianAccess.AllowedAt(access, r.value.1.id, r.value.0.id, now)
    ensures d.Granted? ==>
      var r := TechnicianTarget(users, username, password, homeowner, check);
      d == Granted(r.value.0, r.value.1.id)
    ensures d.Refused? ==> (d.code == StatusUnauthorized <==> !TechnicianCredentialsHold(users, username, password, check))
    ensures d.Refused? ==> d.code in {StatusUnauthorized, StatusForbidden}
  {
    match TechnicianTarget(users, username, password, homeowner, check)
    case Err(e) => Refused(e.0, e.1)
    case Ok(pair) =>
      TechnicianAccess.CountAllowingIff(access, pair.1.id, pair.0.id, now);
      if TechnicianAccess.CountAllowing(access, pair.1.id, pair.0.id, now) == 0 then
        Refused(StatusForbidden, "access window not active or expired - please contact homeowner to grant access")
      else Granted(pair.0, pair.1.id)
  }

  /** The last step every login shares: open a session for a granted user
      (a 500 if no token could be made) and log exactly one attempt, which
      succeeded only when a session was opened. */
  method Conclude(store: SessionStore, log: AttemptLog, d: LoginDecision, username: string, role: string,
                  now: int, token: Option<string>)
    returns (code: int, session: Option<Session>)
    requires store.Valid()
    modifies store, log
    ensures store.Valid()
    ensures log.attempts == old(log.attempts) + [LoginAttempt(username, role, d.Granted? && token.Some?)]
    ensures d.Refused? ==> code == d.code && session.None? && store.sessions == old(store.sessions)
    ensures d.Granted? && token.None? ==>
      code == StatusInternalServerError && session.None? && store.sessions == old(store.sessions)
    ensures d.Granted? && token.Some? ==>
      code == StatusOK
      && session == Some(Session(token.value, d.user.id, d.user.username, d.user.role, d.homeownerId, now + store.ttl))
      && store.sessions == old(store.sessions)[token.value := session.value]
  {
    if d.Refused? {
      log.Log(username, role, false);
      return d.code, None;
    }
    var r := store.Create(d.user.id, d.user.username, d.user.role, d.homeownerId, now, token);
    if r.Err? {
      log.Log(username, role, false);
      return StatusInternalServerError, None;
    }
    log.Log(username, role, true);
    code, session := StatusOK, Some(r.value);
  }

  /** handleLoginHomeowner: POST only; the session acts for homeowner 0. */
  method LoginHomeowner(users: UsersRepository, store: SessionStore, log: AttemptLog, httpMethod: string,
                        username: string, password: string, check: (string, string) -> bool, now: int,
                        token: Option<string>)
    returns (code: int, session: Option<Session>)
    requires store.Valid()
    modifies store, log
    ensures store.Valid()
    ensures httpMethod != "POST" ==>
      code == StatusMethodNotAllowed && session.None? && unchanged(store) && unchanged(log)
    ensures httpMethod == "POST" ==>
      var d := HomeownerDecision(users.rows, username, password, check);
      log.attempts == old(log.attempts) + [LoginAttempt(username, RoleHomeowner, code == StatusOK)]
      && (d.Refused? ==> code == d.code && session.None? && store.sessions == old(store.sessions))
      && (d.Granted? && token.None? ==>
            code == StatusInternalServerError && session.None? && store.sessions == old(store.sessions))
      && (d.Granted? && token.Some? ==>
            code == StatusOK
            && session == Some(Session(token.value, d.user.id, d.user.username, RoleHomeowner, 0, now + store.ttl))
            && store.sessions == old(store.sessions)[token.value := session.value])
  {
    if httpMethod != "POST" {
      return StatusMethodNotAllowed, None;
    }
    var d := HomeownerDecision(users.rows, username, password, check);
    code, session := Conclude(store, log, d, username, RoleHomeowner, now, token);
  }

  /** handleLoginGuest: POST only; the session acts for the guest's
      homeowner. */
  method LoginGuest(users: UsersRepository, store: SessionStore, log: AttemptLog, httpMethod: string,
                    username: string, pin: string, homeownerField: string, check: (string, string) -> bool,
                    now: int, token: Option<string>)
    returns (code: int, session: Option<Session>)
    requires store.Valid()
    modifies store, log
    ensures store.Valid()
    ensures httpMethod != "POST" ==>
      code == StatusMethodNotAllowed && session.None? && unchanged(store) && unchanged(log)
    ensures httpMethod == "POST" ==>
      var d := GuestDecision(users.rows, username, pin, check);
      log.attempts == old(log.attempts) + [LoginAttempt(username, RoleGuest, code == StatusOK)]
      && (d.Refused? ==> code == d.code && session.None? && store.sessions == old(store.sessions))
      && (d.Granted? && token.None? ==>
            code == StatusInternalServerError && session.None? && store.sessions == old(store.sessions))
      && (d.Granted? && token.Some? ==>
            code == StatusOK
            && session == Some(Session(token.value, d.user.id, d.user.username, RoleGuest, d.homeownerId, now + store.ttl))
            && store.sessions == old(store.sessions)[token.value := session.value])
  {
    if httpMethod != "POST" {
      return StatusMethodNotAllowed, None;
    }
    var d := GuestDecision(users.rows, username, pin, check);
    code, session := Conclude(store, log, d, username, RoleGuest, now, token);
  }

  /** handleLoginTechnician: POST or GET. The access table is purged of
      expired windows only when the login gets as far as the window
      check; the session acts for the target homeowner. */
  method LoginTechnician(users: UsersRepository, access: TechnicianAccess.TechnicianAccessRepository,
                         store: SessionStore, log: AttemptLog, httpMethod: string, username: string,
                         password: string, homeowner: string, check: (string, string) -> bool, now: int,
                         token: Option<string>)
    returns (code: int, session: Option<Session>)
    requires store.Valid() && access.Valid()
    modifies store, log, access
    ensures store.Valid() && access.Valid()
    ensures httpMethod != "POST" && httpMethod != "GET" ==>
      code == StatusMethodNotAllowed && session.None? && unchanged(store) && unchanged(log) && unchanged(access)
    ensures httpMethod == "POST" || httpMethod == "GET" ==>
      var d := TechnicianDecision(users.rows, old(access.rows), username, password, homeowner, check, now);
      var reached := TechnicianTarget(users.rows, username, password, homeowner, check).Ok?;
      log.attempts == old(log.attempts) + [LoginAttempt(username, RoleTechnician, code == StatusOK)]
      && access.rows == (if reached then TechnicianAccess.Unexpired(old(access.rows), now) else old(access.rows))
      && access.nextId == old(access.nextId)
      && (d.Refused? ==> code == d.code && session.None? && store.sessions == old(store.sessions))
      && (d.Granted? && token.None? ==>
            code == StatusInternalServerError && session.None? && store.sessions == old(store.sessions))
      && (d.Granted? && token.Some? ==>
            code == StatusOK
            && session == Some(Session(token.value, d.user.id, d.user.username, RoleTechnician, d.homeownerId, now + store.ttl))
            && store.sessions == old(store.sessions)[token.value := session.value])
  {
    if httpMethod != "POST" && httpMethod != "GET" {
      return StatusMethodNotAllowed, None;
    }
    var d := DecideTechnician(users.rows, access, username, password, homeowner, check, now);
    code, session := Conclude(store, log, d, username, RoleTechnician, now, token);
  }

  /** The technician's checks against the live access table: once the
      technician and homeowner are found, the expired windows are purged
      before the active ones are counted. */
  method DecideTechnician(users: seq<User>, access: TechnicianAccess.TechnicianAccessRepository,
                          username: string, password: string, homeowner: string,
                          check: (string, string) -> bool, now: int)
    returns (d: LoginDecision)
    requires access.Valid()
    modifies access
    ensures access.Valid() && access.nextId == old(access.nextId)
    ensures d == TechnicianDecision(users, old(access.rows), username, password, homeowner, check, now)
    ensures access.rows == if TechnicianTarget(users, username, password, homeowner, check).Ok?
      then TechnicianAccess.Unexpired(old(access.rows), now) else old(access.rows)
    ensures d.Granted? ==> d.user.role == RoleTechnician
  {
    var target := TechnicianTarget(users, username, password, homeowner, check);
    if target.Err? {
      d := Refused(target.error.0, target.error.1);
    } else {
      var tech, owner := target.value.0, target.value.1;
      var allowed := access.IsAllowedNow(owner.id, tech.id, now);
      d := if allowed then Granted(tech, owner.id)
           else Refused(StatusForbidden, "access window not active or expired - please contact homeowner to grant access");
    }
  }

  /** handleSignupHomeowner: POST only; both fields are required; the new
      homeowner is stored with the bcrypt hash (`hashed`, None when bcrypt
      refused the password); a taken name is 409. */
  method Signup(users: UsersRepository, httpMethod: string, username: string, password: string,
                hashed: Option<string>)
    returns (code: int)
    requires users.Valid()
    modifies users
    ensures users.Valid()
    ensures code == StatusCreated <==>
      httpMethod == "POST" && username != "" && password != "" && hashed.Some?
      && ByUsername(old(users.rows), username).None?
    ensures code == StatusCreated ==>
      users.rows == old(users.rows) + [User(old(users.nextId), username, RoleHomeowner, hashed, None, None)]
    ensures code != StatusCreated ==> users.rows == old(users.rows)
    ensures httpMethod != "POST" ==> code == StatusMethodNotAllowed
    ensures httpMethod == "POST" && (username == "" || password == "") ==> code == StatusBadRequest
    ensures httpMethod == "POST" && username != "" && password != "" && hashed.None? ==> code == StatusInternalServerError
    ensures (httpMethod == "POST" && username != "" && password != "" && hashed.Some?
             && ByUsername(old(users.rows), username).Some?) ==> code == StatusConflict
  {
    if httpMethod != "POST" {
      return StatusMethodNotAllowed;
    }
    if username == "" || password == "" {
      return StatusBadRequest;
    }
    if hashed.None? {
      return StatusInternalServerError;
    }
    var r := users.Create(username, RoleHomeowner, hashed, None, None);
    code := if r.Err? then StatusConflict else StatusCreated;
  }

  /** A homeowner who has just signed up can log in with that password,
      and gets a session for its new user id acting for homeowner 0. */
  lemma SignedUpHomeownerCanLogIn(users: seq<User>, id: int, username: string, password: string,
                                  hash: string, check: (string, string) -> bool)
    requires ByUsername(users, username).None?
    requires check(hash, password)
    ensures var u := User(id, username, RoleHomeowner, Some(hash), None, None);
      HomeownerDecision(users + [u], username, password, check) == Granted(u, 0)
  {
    ByUsernameAppend(users, User(id, username, RoleHomeowner, Some(hash), None, None), username);
  }
}
