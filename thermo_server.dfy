// The thermostat server's middleware and set-up helpers: the CORS origin
// rule, the bearer-token check in front of every protected route, granting a
// technician window, and the quick-start seed data.
module ThermoServer {
  import opened Wrappers
  import opened Text
  import opened ThermoTables
  import opened ThermoSession
  import opened ThermoApi
  import opened TechnicianAccess
  import ThermoAuth

  /** The front end's origin, the one value ever sent back as allowed. */
  const FrontendOrigin: string := "http://localhost:3000"
  const FrontendOriginTls: string := "https://localhost:3000"

  /** What the CORS middleware does with a request: the allowed origin it
      announces (None when it sets no CORS header) and whether it answers
      204 at once instead of passing the request on. */
  datatype CorsOutcome = CorsOutcome(allowOrigin: Option<string>, answeredNoContent: bool)

  /** withCORS and ginCORS: the local front end, over either scheme, and
      requests without an Origin get the headers; OPTIONS stops here. */
  function Cors(origin: string, httpMethod: string): (r: CorsOutcome)
    ensures r.allowOrigin.Some? <==> origin == FrontendOrigin || origin == FrontendOriginTls || origin == ""
    ensures r.allowOrigin.Some? ==> r.allowOrigin.value == FrontendOrigin
    ensures r.answeredNoContent <==> httpMethod == "OPTIONS"
  {
    var allowed := origin == FrontendOrigin || origin == FrontendOriginTls || origin == "";
    CorsOutcome(if allowed then Some(FrontendOrigin) else None, httpMethod == "OPTIONS")
  }

  /** The announced origin matches the request's only for the plain-HTTP
      front end: a page served over HTTPS is told a different origin, and a
      foreign origin is told nothing. */
  lemma CorsEchoesOnlyPlainOrigin(origin: string, httpMethod: string)
    ensures Cors(origin, httpMethod).allowOrigin == Some(origin) <==> origin == FrontendOrigin
  {
  }

  const BearerPrefix: string := "Bearer "

  /** requireAuth's reading of the Authorization header: the token after
      "Bearer ", or None when the header does not start with it. */
  function BearerToken(header: string): (r: Option<string>)
    ensures r.Some? <==> HasPrefix(header, BearerPrefix)
    ensures r.Some? ==> header == BearerPrefix + r.value
  {
    if HasPrefix(header, BearerPrefix) then
      assert header == header[..|BearerPrefix|] + header[|BearerPrefix|..];
      Some(TrimPrefix(header, BearerPrefix))
    else None
  }

  /** requireAuthGin's reading of the same header, spelled with a length
      test and a slice. */
  function BearerTokenGin(header: string): Option<string>
  {
    if header == "" || |header| < 7 || header[..7] != "Bearer " then None else Some(header[7..])
  }

  /** Both middlewares accept the same headers and extract the same token,
      and the token a client puts after "Bearer " is the one they read. */
  lemma BearerVariantsAgree(header: string, token: string)
    ensures BearerTokenGin(header) == BearerToken(header)
    ensures BearerToken(BearerPrefix + token) == Some(token)
  {
    assert |BearerPrefix| == 7;
    TrimPrefixInverse(BearerPrefix, token);
  }

  /** requireAuth: 401 "missing token" without a bearer header, 401
      "invalid token" when the store does not answer with a live session
      (an expired one is deleted on the way), and otherwise the session
      the handler is given. */
  method RequireAuth(store: SessionStore, header: string, now: int) returns (r: Result<Session, (int, string)>)
    requires store.Valid()
    modifies store
    ensures store.Valid()
    ensures BearerToken(header).None? ==>
      r == Err((StatusUnauthorized, "missing token")) && store.sessions == old(store.sessions)
    ensures BearerToken(header).Some? ==>
      var looked := Lookup(old(store.sessions), BearerToken(header).value, now);
      (looked.Ok? ==> r == Ok(looked.value))
      && (looked.Err? ==> r == Err((StatusUnauthorized, "invalid token")))
    ensures r.Ok? ==> BearerToken(header) == Some(r.value.token) && now <= r.value.expiresAt
    ensures store.sessions == old(store.sessions)
            || (BearerToken(header).Some? && store.sessions == old(store.sessions) - {BearerToken(header).value})
  {
    var token := BearerToken(header);
    if token.None? {
      return Err((StatusUnauthorized, "missing token"));
    }
    var sess := store.Get(token.value, now);
    if sess.Err? {
      return Err((StatusUnauthorized, "invalid token"));
    }
    r := Ok(sess.value);
  }

  /** GrantTechnician: a window whose end is not after its start is
      refused; any other is stored. */
  method GrantTechnician(repo: TechnicianAccessRepository, homeownerId: int, technicianId: int,
                         start: int, end: int)
    returns (r: Result<int, string>)
    requires repo.Valid()
    modifies repo
    ensures repo.Valid()
    ensures r.Err? <==> end <= start
    ensures r.Err? ==> repo.rows == old(repo.rows) && repo.nextId == old(repo.nextId)
    ensures r.Ok? ==>
      r.value == old(repo.nextId)
      && repo.rows == old(repo.rows) + [Access(r.value, homeownerId, technicianId, start, end)]
  {
    if end <= start {
      return Err("end must be after start");
    }
    var id := repo.Grant(homeownerId, technicianId, start, end);
    r := Ok(id);
  }

  /** CreateGuest: a guest of `homeownerId` whose PIN is stored hashed;
      `hashed` is the hash, None when hashing failed. */
  method CreateGuest(users: UsersRepository, homeownerId: int, username: string, hashed: Option<string>)
    returns (r: Result<int, string>)
    requires users.Valid()
    modifies users
    ensures users.Valid()
    ensures r.Ok? <==> hashed.Some? && ByUsername(old(users.rows), username).None?
    ensures r.Err? ==> users.rows == old(users.rows) && users.nextId == old(users.nextId)
    ensures r.Ok? ==>
      r.value == old(users.nextId)
      && users.rows == old(users.rows) + [User(r.value, username, RoleGuest, None, hashed, Some(homeownerId))]
  {
    if hashed.None? {
      return Err("hash failed");
    }
    r := users.Create(username, RoleGuest, None, hashed, Some(homeownerId));
  }

  /** CreateTechnician: a technician whose password is stored hashed. */
  method CreateTechnician(users: UsersRepository, username: string, hashed: Option<string>)
    returns (r: Result<int, string>)
    requires users.Valid()
    modifies users
    ensures users.Valid()
    ensures r.Ok? <==> hashed.Some? && ByUsername(old(users.rows), username).None?
    ensures r.Err? ==> users.rows == old(users.rows) && users.nextId == old(users.nextId)
    ensures r.Ok? ==>
      r.value == old(users.nextId)
      && users.rows == old(users.rows) + [User(r.value, username, RoleTechnician, hashed, None, None)]
  {
    if hashed.None? {
      return Err("hash failed");
    }
    r := users.Create(username, RoleTechnician, hashed, None, None);
  }

  /** mustHash: the hash of `s`, or `s` itself when hashing fails, so the
      secret is then stored in the clear. `hash` stands for bcrypt. */
  function MustHash(hash: string -> Option<string>, s: string): (h: string)
    ensures hash(s).Some? ==> h == hash(s).value
    ensures hash(s).None? ==> h == s
  {
    match hash(s)
    case Some(v) => v
    case None => s
  }

  /** The three accounts the quick-start seed creates from id `h` on: the
      homeowner Logan, the technician Matt, and the guest Mike linked to
      Logan. */
  function SeedUsers(h: int, hash: string -> Option<string>): seq<User>
  {
    [SeedLogan(h, hash), SeedMatt(h, hash), SeedMike(h, hash)]
  }

  function SeedLogan(h: int, hash: string -> Option<string>): User
  {
    User(h, "Logan", RoleHomeowner, Some(MustHash(hash, "Kostick2025!")), None, None)
  }

  function SeedMatt(h: int, hash: string -> Option<string>): User
  {
    User(h + 1, "Matt", RoleTechnician, Some(MustHash(hash, "Green2025!")), None, None)
  }

  function SeedMike(h: int, hash: string -> Option<string>): User
  {
    User(h + 2, "Mike", RoleGuest, None, Some(MustHash(hash, "Rushanan2025!")), Some(h))
  }

  /** The seed's window for Matt at Logan's: from an hour before `now` to a
      day after it. */
  function SeedWindow(id: int, h: int, now: int): Access
  {
    Access(id, h, h + 1, now - Hour, now + 24 * Hour)
  }

  /** None of the seed's names is taken. */
  predicate SeedNamesFree(users: seq<User>)
  {
    ByUsername(users, "Logan").None? && ByUsername(users, "Matt").None? && ByUsername(users, "Mike").None?
  }

  /** SeedQuickStart. It does nothing when Logan exists. Otherwise it
      creates the accounts one by one and stops at the first failure,
      keeping what it already created: there is no transaction around the
      steps. */
  method SeedQuickStart(users: UsersRepository, access: TechnicianAccessRepository, now: int,
                        hash: string -> Option<string>)
    returns (r: Result<(), string>)
    requires users.Valid() && access.Valid()
    modifies users, access
    ensures users.Valid() && access.Valid()
    ensures ByUsername(old(users.rows), "Logan").Some? ==>
      r.Ok? && users.rows == old(users.rows) && users.nextId == old(users.nextId) && access.rows == old(access.rows)
    ensures ByUsername(old(users.rows), "Logan").None? && ByUsername(old(users.rows), "Matt").Some? ==>
      r.Err? && users.rows == old(users.rows) + [SeedLogan(old(users.nextId), hash)]
      && access.rows == old(access.rows)
    ensures ByUsername(old(users.rows), "Logan").None? && ByUsername(old(users.rows), "Matt").None?
            && ByUsername(old(users.rows), "Mike").Some? ==>
      r.Err? && users.rows == old(users.rows) + [SeedLogan(old(users.nextId), hash), SeedMatt(old(users.nextId), hash)]
      && access.rows == old(access.rows)
    ensures SeedNamesFree(old(users.rows)) ==>
      r.Ok? && users.rows == old(users.rows) + SeedUsers(old(users.nextId), hash)
      && access.rows == old(access.rows) + [SeedWindow(old(access.nextId), old(users.nextId), now)]
  {
    if ByUsername(users.rows, "Logan").Some? {
      return Ok(());
    }
    ghost var rows0 := users.rows;
    ghost var logan := SeedLogan(users.nextId, hash);
    var h := users.Create("Logan", RoleHomeowner, Some(MustHash(hash, "Kostick2025!")), None, None);
    if h.Err? {
      return Err("UNIQUE constraint failed: users.username");
    }
    ByUsernameAppend(rows0, logan, "Matt");
    ByUsernameAppend(rows0, logan, "Mike");
    SeedRows(rows0, h.value, hash);
    var staff := SeedStaff(users, hash, h.value);
    if staff.Err? {
      return Err(staff.error);
    }
    var _ := access.Grant(h.value, staff.value, now - Hour, now + 24 * Hour);
    r := Ok(());
  }

  /** The seeded rows appended one creation after another. */
  lemma SeedRows(rows: seq<User>, h: int, hash: string -> Option<string>)
    ensures rows + [SeedLogan(h, hash)] + [SeedMatt(h, hash)] == rows + [SeedLogan(h, hash), SeedMatt(h, hash)]
    ensures rows + [SeedLogan(h, hash)] + [SeedMatt(h, hash), SeedMike(h, hash)] == rows + SeedUsers(h, hash)
  {
  }

  /** The technician and guest creations that follow the homeowner `h`'s. */
  method SeedStaff(users: UsersRepository, hash: string -> Option<string>, h: int)
    returns (r: Result<int, string>)
    requires users.Valid() && users.nextId == h + 1
    modifies users
    ensures users.Valid()
    ensures ByUsername(old(users.rows), "Matt").Some? ==> r.Err? && users.rows == old(users.rows)
    ensures ByUsername(old(users.rows), "Matt").None? && ByUsername(old(users.rows), "Mike").Some? ==>
      r.Err? && users.rows == old(users.rows) + [SeedMatt(h, hash)]
    ensures ByUsername(old(users.rows), "Matt").None? && ByUsername(old(users.rows), "Mike").None? ==>
      r == Ok(h + 1) && users.rows == old(users.rows) + [SeedMatt(h, hash), SeedMike(h, hash)]
  {
    ghost var rows0 := users.rows;
    var t := users.Create("Matt", RoleTechnician, Some(MustHash(hash, "Green2025!")), None, None);
    if t.Err? {
      return Err(t.error);
    }
    ByUsernameAppend(rows0, SeedMatt(h, hash), "Mike");
    var g := users.Create("Mike", RoleGuest, None, Some(MustHash(hash, "Rushanan2025!")), Some(h));
    if g.Err? {
      return Err(g.error);
    }
    r := Ok(t.value);
  }

  /** Where the seeded table finds each name: the three new accounts under
      their own names, anyone else where they were. */
  lemma {:induction false} SeedLookup(users: seq<User>, h: int, hash: string -> Option<string>, name: string)
    requires SeedNamesFree(users)
    ensures ByUsername(users + SeedUsers(h, hash), name) ==
      if name == "Logan" then Some(SeedUsers(h, hash)[0])
      else if name == "Matt" then Some(SeedUsers(h, hash)[1])
      else if name == "Mike" then Some(SeedUsers(h, hash)[2])
      else ByUsername(users, name)
  {
    var s := SeedUsers(h, hash);
    assert users + s == users + [s[0]] + [s[1]] + [s[2]];
    ByUsernameAppend(users, s[0], "Matt");
    ByUsernameAppend(users, s[0], "Mike");
    ByUsernameAppend(users, s[0], name);
    ByUsernameAppend(users + [s[0]], s[1], "Mike");
    ByUsernameAppend(users + [s[0]], s[1], name);
    ByUsernameAppend(users + [s[0]] + [s[1]], s[2], name);
  }

  /** After a full seed, Matt can sign in for Logan with his password at
      every instant of the seeded window, when the stored hash matches it. */
  lemma SeededTechnicianCanLogIn(users: seq<User>, rows: seq<Access>, h: int, id: int, now: int, at: int,
                                 hash: string -> Option<string>, check: (string, string) -> bool)
    requires SeedNamesFree(users)
    requires check(MustHash(hash, "Green2025!"), "Green2025!")
    requires now - Hour <= at <= now + 24 * Hour
    ensures ThermoAuth.TechnicianDecision(users + SeedUsers(h, hash), rows + [SeedWindow(id, h, now)],
                                          "Matt", "Green2025!", "Logan", check, at)
            == ThermoAuth.Granted(SeedUsers(h, hash)[1], h)
  {
    SeedLookup(users, h, hash, "Matt");
    SeedLookup(users, h, hash, "Logan");
    var w := SeedWindow(id, h, now);
    assert w in rows + [w] && Allows(w, h, h + 1, at);
  }

  /** After a full seed, Mike can sign in as Logan's guest with his PIN,
      when the stored hash matches it. */
  lemma SeededGuestCanLogIn(users: seq<User>, h: int, hash: string -> Option<string>,
                            check: (string, string) -> bool)
    requires SeedNamesFree(users)
    requires check(MustHash(hash, "Rushanan2025!"), "Rushanan2025!")
    ensures ThermoAuth.GuestDecision(users + SeedUsers(h, hash), "Mike", "Rushanan2025!", check)
            == ThermoAuth.Granted(SeedUsers(h, hash)[2], h)
  {
    SeedLookup(users, h, hash, "Mike");
  }
}
