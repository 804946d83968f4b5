// The e-voting server's in-memory session store: tokens issued at login,
// checked on every official request, refreshed and deleted.
module EvotingSession {
  import opened Wrappers

  const NanosPerSecond: int := 1000000000

  /** A session; `expires` is a time in nanoseconds since the Unix epoch. */
  datatype Session = Session(token: string, userId: string, role: string, expires: int)

  datatype SessionError = SessionNotFound | InvalidToken | TokenInUse

  /** The token generator: a pseudo-random generator seeded with the
      current Unix second, whose 32 bytes are hex-encoded. `prng` stands for
      that seeded generator and encoding, so the token depends on the second
      alone. */
  function TokenAt(prng: int -> string, now: int): (token: string)
  {
    prng(now / NanosPerSecond)
  }

  /** Two clocks in the same second give the same token. */
  lemma SameSecondSameToken(prng: int -> string, now1: int, now2: int)
    requires now1 / NanosPerSecond == now2 / NanosPerSecond
    ensures TokenAt(prng, now1) == TokenAt(prng, now2)
  {
  }

  /** A session is over once the clock is strictly after its expiry; at the
      expiry instant itself it still holds. */
  predicate Expired(s: Session, now: int) { now > s.expires }

  /** What ValidateSession answers for `token` at `now`. */
  function Lookup(sessions: map<string, Session>, token: string, now: int): (r: Result<Session, SessionError>)
    ensures r.Err? <==> token !in sessions || Expired(sessions[token], now)
    ensures r.Err? ==> (r.error == SessionNotFound <==> token !in sessions)
    ensures r.Ok? ==> r.value == sessions[token] && now <= r.value.expires
  {
    if token !in sessions then Err(SessionNotFound)
    else if Expired(sessions[token], now) then Err(InvalidToken)
    else Ok(sessions[token])
  }

  /** The map after CreateSession stored `s` under its token. */
  function Stored(sessions: map<string, Session>, s: Session): (r: map<string, Session>)
    ensures s.token in r && r[s.token] == s
    ensures forall t :: t in r && t != s.token ==> t in sessions && r[t] == sessions[t]
    ensures r.Keys == sessions.Keys + {s.token}
  {
    sessions[s.token := s]
  }

  /** The sessions a cleanup pass keeps: those not expired at `now`. */
  function Unexpired(sessions: map<string, Session>, now: int): (r: map<string, Session>)
  {
    map t | t in sessions && !Expired(sessions[t], now) :: sessions[t]
  }

  /** After a cleanup pass every remaining session validates, and every
      session that validated before is still there. */
  lemma UnexpiredValidates(sessions: map<string, Session>, token: string, now: int)
    ensures Lookup(Unexpired(sessions, now), token, now) == Lookup(sessions, token, now)
            || (Lookup(sessions, token, now) == Err(InvalidToken)
                && Lookup(Unexpired(sessions, now), token, now) == Err(SessionNotFound))
  {
  }

  /** Two logins in the same second: the second overwrites the first under
      the one shared token, so the first user's token now opens the second
      user's session. */
  lemma SameSecondLoginsCollide(sessions: map<string, Session>, prng: int -> string, now1: int, now2: int,
                                userA: string, roleA: string, userB: string, roleB: string, duration: int)
    requires now1 / NanosPerSecond == now2 / NanosPerSecond
    requires now1 <= now2 && duration >= 0
    ensures
      var a := Session(TokenAt(prng, now1), userA, roleA, now1 + duration);
      var b := Session(TokenAt(prng, now2), userB, roleB, now2 + duration);
      Lookup(Stored(Stored(sessions, a), b), a.token, now2) == Ok(b)
  {
    SameSecondSameToken(prng, now1, now2);
  }

  /** Storing a session under a token that is not already taken. */
  function StoredFresh(sessions: map<string, Session>, s: Session): (r: Result<map<string, Session>, SessionError>)
  {
    if s.token in sessions then Err(TokenInUse) else Ok(sessions[s.token := s])
  }

  /** StoredFresh never disturbs a session that is already there: a
      collision is refused instead of overwriting. */
  lemma StoredFreshKeepsOthers(sessions: map<string, Session>, s: Session, t: string)
    requires t in sessions
    ensures StoredFresh(sessions, s).Ok? ==>
      t in StoredFresh(sessions, s).value && StoredFresh(sessions, s).value[t] == sessions[t]
    ensures StoredFresh(sessions, s).Err? <==> s.token in sessions
  {
  }

  class SessionStore {
    var sessions: map<string, Session>

    /** Every session is filed under its own token. */
    ghost predicate Valid()
      reads this
    {
      forall t :: t in sessions ==> sessions[t].token == t
    }

    /** NewSessionStore; the periodic cleanup it starts is CleanupExpired. */
    constructor ()
      ensures sessions == map[] && Valid()
    {
      sessions := map[];
    }

    /** CreateSession: the token of the current second, under which the
        session is stored (replacing any session already there), expiring
        `duration` nanoseconds from now. */
    method CreateSession(userId: string, role: string, duration: int, now: int, prng: int -> string)
      returns (token: string)
      requires Valid()
      modifies this
      ensures Valid()
      ensures token == TokenAt(prng, now)
      ensures sessions == Stored(old(sessions), Session(token, userId, role, now + duration))
    {
      token := TokenAt(prng, now);
      sessions := sessions[token := Session(token, userId, role, now + duration)];
    }

    /** CreateSession with a token from a generator that cannot be predicted
        from the clock; a token already in use is refused. */
    method CreateSessionChecked(userId: string, role: string, duration: int, now: int, token: string)
      returns (err: Option<SessionError>)
      requires Valid()
      modifies this
      ensures Valid()
      ensures var r := StoredFresh(old(sessions), Session(token, userId, role, now + duration));
        if r.Ok? then err == None && sessions == r.value
        else err == Some(r.error) && sessions == old(sessions)
    {
      if token in sessions {
        return Some(TokenInUse);
      }
      sessions := sessions[token := Session(token, userId, role, now + duration)];
      err := None;
    }

    /** ValidateSession: an unknown token is not found; an expired one is
        deleted and reported invalid; otherwise its session. */
    method ValidateSession(token: string, now: int) returns (r: Result<Session, SessionError>)
      requires Valid()
      modifies this
      ensures Valid()
      ensures r == Lookup(old(sessions), token, now)
      ensures r == Err(InvalidToken) ==> sessions == old(sessions) - {token}
      ensures r != Err(InvalidToken) ==> sessions == old(sessions)
      ensures r.Ok? ==> r.value.token == token
    {
      if token !in sessions {
        return Err(SessionNotFound);
      }
      var session := sessions[token];
      if Expired(session, now) {
        DeleteSession(token);
        return Err(InvalidToken);
      }
      r := Ok(session);
    }

    /** DeleteSession removes that token and nothing else. */
    method DeleteSession(token: string)
      requires Valid()
      modifies this
      ensures Valid()
      ensures sessions == old(sessions) - {token}
    {
      sessions := sessions - {token};
    }

    /** RefreshSession: unknown and expired tokens fail as in
        ValidateSession (the expired one is deleted); otherwise only the
        expiry moves, to `duration` after now. */
    method RefreshSession(token: string, duration: int, now: int) returns (err: Option<SessionError>)
      requires Valid()
      modifies this
      ensures Valid()
      ensures Lookup(old(sessions), token, now).Err? ==> err == Some(Lookup(old(sessions), token, now).error)
      ensures err == Some(InvalidToken) ==> sessions == old(sessions) - {token}
      ensures err == Some(SessionNotFound) ==> sessions == old(sessions)
      ensures Lookup(old(sessions), token, now).Ok? ==> err.None?
      ensures err.None? ==>
        Lookup(old(sessions), token, now).Ok?
        && sessions == old(sessions)[token := old(sessions)[token].(expires := now + duration)]
    {
      if token !in sessions {
        return Some(SessionNotFound);
      }
      var session := sessions[token];
      if Expired(session, now) {
        sessions := sessions - {token};
        return Some(InvalidToken);
      }
      sessions := sessions[token := session.(expires := now + duration)];
      err := None;
    }

    /** One pass of the periodic cleanup: every session expired at `now`
        is deleted, one token at a time. */
    method CleanupExpired(now: int)
      requires Valid()
      modifies this
      ensures Valid()
      ensures sessions == Unexpired(old(sessions), now)
    {
      var todo := sessions.Keys;
      ghost var start := sessions;
      while todo != {}
        invariant todo <= start.Keys
        invariant forall t :: t in sessions ==> t in start && sessions[t] == start[t]
        invariant forall t :: t in start && t !in todo ==> (t in sessions <==> !Expired(start[t], now))
        invariant forall t :: t in todo ==> t in sessions
        decreases todo
      {
        var t :| t in todo;
        if Expired(sessions[t], now) {
          sessions := sessions - {t};
        }
        todo := todo - {t};
      }
    }
  }
}
