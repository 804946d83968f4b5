// The thermostat backend's in-memory session store: a session is created
// at each login, looked up by the bearer-token middleware on every request,
// and revoked.
module ThermoSession {
  import opened Wrappers

  /** A login session. `homeownerId` is the homeowner a guest or technician
      acts for (0 for a homeowner's own session); `expiresAt` is a time in
      nanoseconds. */
  datatype Session = Session(token: string, userId: int, username: string, role: string,
                             homeownerId: int, expiresAt: int)

  datatype SessionError = InvalidToken | TokenExpired

  /** The backend's clock counts nanoseconds. */
  const NanosPerSecond: int := 1000000000
  const Hour: int := 60 * 60 * NanosPerSecond

  /** The lifetime the server gives its store: twelve hours. */
  const ServerTtl: int := 12 * Hour

  /** What Get answers for `token` at `now`: an unknown token is invalid, a
      session strictly past its expiry has expired, any other is returned as
      stored. */
  function Lookup(sessions: map<string, Session>, token: string, now: int): (r: Result<Session, SessionError>)
    ensures r == Err(InvalidToken) <==> token !in sessions
    ensures r == Err(TokenExpired) <==> token in sessions && now > sessions[token].expiresAt
    ensures r.Ok? ==> token in sessions && r.value == sessions[token] && now <= r.value.expiresAt
  {
    if token !in sessions then Err(InvalidToken)
    else if now > sessions[token].expiresAt then Err(TokenExpired)
    else Ok(sessions[token])
  }

  /** A session stored at `created` with lifetime `ttl` is returned up to
      and including its expiry instant, and reported expired afterwards. */
  lemma CreatedSessionLives(sessions: map<string, Session>, s: Session, created: int, ttl: int, now: int)
    requires s.expiresAt == created + ttl
    ensures now <= created + ttl ==> Lookup(sessions[s.token := s], s.token, now) == Ok(s)
    ensures now > created + ttl ==> Lookup(sessions[s.token := s], s.token, now) == Err(TokenExpired)
  {
  }

  /** Once Get has reported a token expired and deleted it, every later Get
      of that token reports it invalid. */
  lemma ExpiredThenInvalid(sessions: map<string, Session>, token: string, now: int, later: int)
    requires Lookup(sessions, token, now) == Err(TokenExpired)
    ensures Lookup(sessions - {token}, token, later) == Err(InvalidToken)
  {
  }

  /** Revoking a token ends that session and no other. */
  lemma RevokeOnlyThat(sessions: map<string, Session>, token: string, other: string, now: int)
    ensures Lookup(sessions - {token}, token, now) == Err(InvalidToken)
    ensures other != token ==> Lookup(sessions - {token}, other, now) == Lookup(sessions, other, now)
  {
  }

  class SessionStore {
    var sessions: map<string, Session>
    const ttl: int

    /** Every session is filed under its own token. */
    ghost predicate Valid()
      reads this
    {
      forall t :: t in sessions ==> sessions[t].token == t
    }

    /** NewSessionStore: empty, with the lifetime fixed for good. */
    constructor (ttl: int)
      ensures sessions == map[] && this.ttl == ttl && Valid()
    {
      sessions := map[];
      this.ttl := ttl;
    }

    /** Create. `token` is what the random token source produced, None
        when it failed (then nothing is stored). The session expires `ttl`
        after `now`. */
    method Create(userId: int, username: string, role: string, homeownerId: int, now: int,
                  token: Option<string>)
      returns (r: Result<Session, string>)
      requires Valid()
      modifies this
      ensures Valid()
      ensures token.None? ==> r.Err? && sessions == old(sessions)
      ensures token.Some? ==>
        r == Ok(Session(token.value, userId, username, role, homeownerId, now + ttl))
        && sessions == old(sessions)[token.value := r.value]
    {
      if token.None? {
        return Err("token generation failed");
      }
      var sess := Session(token.value, userId, username, role, homeownerId, now + ttl);
      sessions := sessions[token.value := sess];
      r := Ok(sess);
    }

    /** Get: the answer of Lookup; an expired session is deleted, and in
        every other case the store is left as it was. */
    method Get(token: string, now: int) returns (r: Result<Session, SessionError>)
      requires Valid()
      modifies this
      ensures Valid()
      ensures r == Lookup(old(sessions), token, now)
      ensures r == Err(TokenExpired) ==> sessions == old(sessions) - {token}
      ensures r != Err(TokenExpired) ==> sessions == old(sessions)
      ensures r.Ok? ==> r.value.token == token
    {
      if token !in sessions {
        return Err(InvalidToken);
      }
      var sess := sessions[token];
      if now > sess.expiresAt {
        sessions := sessions - {token};
        return Err(TokenExpired);
      }
      r := Ok(sess);
    }

    /** Revoke removes the given token and nothing else. */
    method Revoke(token: string)
      requires Valid()
      modifies this
      ensures Valid()
      ensures sessions == old(sessions) - {token}
    {
      sessions := sessions - {token};
    }
  }
}
