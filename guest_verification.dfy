// Guest verification: a guest asks to be let in, the homeowner approves or
// denies the request through a link, and the guest polls the request until
// it is decided; an approved request hands out one auth token and is marked
// consumed.
module GuestVerification {
  import opened Wrappers
  import opened ThermoTables
  import opened ThermoApi
  import ThermoSession
  import ThermoAuth

  const Pending: string := "pending"
  const Approved: string := "approved"
  const Denied: string := "denied"
  const Consumed: string := "consumed"

  /** A request lasts ten minutes (times in nanoseconds). */
  const RequestTtl: int := 10 * 60 * ThermoSession.NanosPerSecond

  /** A row of `guest_verifications`. The expiry column may be NULL. */
  datatype Verification = Verification(id: int, token: string, guestUserId: int, homeownerUserId: int,
                                       targetUrl: string, status: string, expiresAt: Option<int>)

  /** `SELECT ... WHERE token = ?` with QueryRow: the first matching row. */
  function FirstByToken(rows: seq<Verification>, token: string): (r: Option<Verification>)
    ensures r.Some? ==> r.value in rows && r.value.token == token
    ensures r.None? <==> forall k :: 0 <= k < |rows| ==> rows[k].token != token
  {
    if |rows| == 0 then None
    else if rows[0].token == token then Some(rows[0])
    else FirstByToken(rows[1..], token)
  }

  /** `UPDATE ... SET status = ? WHERE token = ?`: every row with that
      token gets the new status, and nothing else changes. */
  function WithStatus(rows: seq<Verification>, token: string, status: string): (r: seq<Verification>)
    ensures |r| == |rows|
    ensures forall k :: 0 <= k < |rows| ==>
      r[k] == if rows[k].token == token then rows[k].(status := status) else rows[k]
  {
    if |rows| == 0 then []
    else [if rows[0].token == token then rows[0].(status := status) else rows[0]]
         + WithStatus(rows[1..], token, status)
  }

  /** After the update, the request found under `token` is the one found
      before with its new status, and requests under other tokens are found
      as before. */
  lemma {:induction false} WithStatusFound(rows: seq<Verification>, token: string, status: string, other: string)
    ensures FirstByToken(WithStatus(rows, token, status), token) ==
      match FirstByToken(rows, token) case Some(v) => Some(v.(status := status)) case None => None
    ensures other != token ==> FirstByToken(WithStatus(rows, token, status), other) == FirstByToken(rows, other)
  {
    if |rows| > 0 {
      assert WithStatus(rows, token, status)[1..] == WithStatus(rows[1..], token, status);
      WithStatusFound(rows[1..], token, status, other);
    }
  }

  /** `time.Now().After(expires)` on a non-NULL expiry. */
  predicate Expired(v: Verification, now: int)
  {
    v.expiresAt.Some? && now > v.expiresAt.value
  }

  /** validateGuestPin as written: an empty PIN never passes; otherwise the
      PIN must equal, character for character, the user's `pin` column or
      the `pin` of its row in the `guests` helper table (`guestPins`, keyed
      by user id). */
  predicate PinValidAsWritten(users: seq<User>, guestPins: map<int, string>, userId: int, pin: string)
  {
    pin != ""
    && ((ById(users, userId).Some? && ById(users, userId).value.pin == Some(pin))
        || (userId in guestPins && guestPins[userId] == pin))
  }

  /** validateGuestPin as evidently intended: the `pin` column holds the
      bcrypt hash the guest was created with, so it is checked the way
      guest login checks it; the helper table is compared as before. */
  predicate PinValid(users: seq<User>, guestPins: map<int, string>, userId: int, pin: string,
                     check: (string, string) -> bool)
  {
    pin != ""
    && ((ById(users, userId).Some? && ById(users, userId).value.pin.Some?
         && check(ById(users, userId).value.pin.value, pin))
        || (userId in guestPins && guestPins[userId] == pin))
  }

  /** As written, a guest who signs in with a PIN is refused a verification
      request with that same PIN whenever the column holds a hash of it
      (every guest the backend creates) and the helper table has no row for
      it. */
  lemma HashedPinRejectedAsWritten(users: seq<User>, nextId: int, guestPins: map<int, string>, username: string,
                                   pin: string, check: (string, string) -> bool)
    requires UsersValid(users, nextId)
    requires ThermoAuth.GuestDecision(users, username, pin, check).Granted?
    requires ByUsername(users, username).value.pin != Some(pin)
    requires ByUsername(users, username).value.id !in guestPins
    ensures !PinValidAsWritten(users, guestPins, ByUsername(users, username).value.id, pin)
  {
    var u := ByUsername(users, username).value;
    var k :| 0 <= k < |users| && users[k] == u;
    ByIdOfRow(users, k);
  }

  /** With the intended check, any guest who can sign in with a non-empty
      PIN can also ask for verification with it. */
  lemma GuestWhoCanLogInPassesPin(users: seq<User>, nextId: int, guestPins: map<int, string>, username: string,
                                  pin: string, check: (string, string) -> bool)
    requires UsersValid(users, nextId)
    requires ThermoAuth.GuestDecision(users, username, pin, check).Granted?
    requires pin != ""
    ensures PinValid(users, guestPins, ByUsername(users, username).value.id, pin, check)
  {
    var u := ByUsername(users, username).value;
    var k :| 0 <= k < |users| && users[k] == u;
    ByIdOfRow(users, k);
  }

  /** What a verify link does to the table: the status code and the new
      rows. */
  function VerifyStep(rows: seq<Verification>, token: string, action: string, now: int): (r: (int, seq<Verification>))
    ensures r.0 == StatusBadRequest <==> token == "" || (action != "approve" && action != "deny")
    ensures r.0 == StatusNotFound <==>
      token != "" && (action == "approve" || action == "deny") && FirstByToken(rows, token).None?
    ensures r.0 == StatusGone <==>
      token != "" && (action == "approve" || action == "deny") && FirstByToken(rows, token).Some?
      && Expired(FirstByToken(rows, token).value, now)
    ensures r.0 in {StatusBadRequest, StatusNotFound, StatusGone, StatusOK}
    ensures r.0 in {StatusBadRequest, StatusNotFound} ==> r.1 == rows
    ensures r.0 == StatusGone ==> r.1 == WithStatus(rows, token, Denied)
    ensures r.0 == StatusOK ==> r.1 == WithStatus(rows, token, if action == "approve" then Approved else Denied)
    ensures r.0 in {StatusGone, StatusOK} ==>
      FirstByToken(r.1, token) == Some(FirstByToken(rows, token).value.(status :=
        if r.0 == StatusOK && action == "approve" then Approved else Denied))
  {
    if token == "" || (action != "approve" && action != "deny") then (StatusBadRequest, rows)
    else match FirstByToken(rows, token)
      case None => (StatusNotFound, rows)
      case Some(v) =>
        var status := if Expired(v, now) then Denied else if action == "approve" then Approved else Denied;
        WithStatusFound(rows, token, status, token);
        (if Expired(v, now) then StatusGone else StatusOK, WithStatus(rows, token, status))
  }

  /** The status poll's answer: the status shown, and the one-time auth
      token when one is handed out. */
  datatype StatusReply = StatusReply(code: int, status: string, authToken: Option<string>)

  /** What a status poll does. `drawn` is the newly drawn auth token, None
      when drawing it failed (the request then stays approved). */
  function StatusStep(rows: seq<Verification>, token: string, now: int, drawn: Option<string>)
    : (r: (StatusReply, seq<Verification>))
    ensures r.0.code == StatusBadRequest <==> token == ""
    ensures r.0.code == StatusNotFound <==> token != "" && FirstByToken(rows, token).None?
    ensures r.0.code in {StatusBadRequest, StatusNotFound, StatusOK}
    ensures r.0.code != StatusOK ==> r.1 == rows && r.0.authToken.None?
    ensures r.0.authToken.Some? <==>
      token != "" && FirstByToken(rows, token).Some? && FirstByToken(rows, token).value.status == Approved
      && drawn.Some?
    ensures r.0.authToken.Some? ==>
      r.0.authToken == drawn && r.0.status == Consumed && r.1 == WithStatus(rows, token, Consumed)
      && FirstByToken(r.1, token) == Some(FirstByToken(rows, token).value.(status := Consumed))
    ensures r.0.code == StatusOK && r.0.authToken.None? ==>
      var v := FirstByToken(rows, token).value;
      if v.status == Pending && Expired(v, now) then
        r.0.status == Denied && r.1 == WithStatus(rows, token, Denied)
        && FirstByToken(r.1, token) == Some(v.(status := Denied))
      else r.0.status == v.status && r.1 == rows
  {
    if token == "" then (StatusReply(StatusBadRequest, "", None), rows)
    else match FirstByToken(rows, token)
      case None => (StatusReply(StatusNotFound, "", None), rows)
      case Some(v) =>
        if v.status == Pending && Expired(v, now) then
          WithStatusFound(rows, token, Denied, token);
          (StatusReply(StatusOK, Denied, None), WithStatus(rows, token, Denied))
        else if v.status == Approved && drawn.Some? then
          WithStatusFound(rows, token, Consumed, token);
          (StatusReply(StatusOK, Consumed, drawn), WithStatus(rows, token, Consumed))
        else (StatusReply(StatusOK, v.status, None), rows)
  }

  /** An auth token is handed out once: the next poll of the same request
      reports it consumed, hands out nothing and changes nothing. */
  lemma TokenHandedOutOnce(rows: seq<Verification>, token: string, now: int, drawn: Option<string>,
                           later: int, drawn2: Option<string>)
    requires StatusStep(rows, token, now, drawn).0.authToken.Some?
    ensures var rows1 := StatusStep(rows, token, now, drawn).1;
      StatusStep(rows1, token, later, drawn2) == (StatusReply(StatusOK, Consumed, None), rows1)
  {
  }

  /** The approve link works on a request in any state that has not
      expired: approving a consumed request again makes the next poll hand
      out a second auth token. */
  lemma ReapprovalHandsOutAgain(rows: seq<Verification>, token: string, now: int, drawn: string)
    requires FirstByToken(rows, token).Some? && FirstByToken(rows, token).value.status == Consumed
    requires !Expired(FirstByToken(rows, token).value, now)
    requires token != ""
    ensures var rows1 := VerifyStep(rows, token, "approve", now).1;
      VerifyStep(rows, token, "approve", now).0 == StatusOK
      && StatusStep(rows1, token, now, Some(drawn)).0 == StatusReply(StatusOK, Consumed, Some(drawn))
  {
  }

  /** The life of a new request stored at `created` under an unused token:
      approved within its ten minutes, the next poll hands out the auth
      token; a link opened after the ten minutes is answered 410 and every
      later poll shows it denied without a token. */
  lemma {:induction false} RequestLifecycle(rows: seq<Verification>, v: Verification, created: int, at: int,
                                            later: int, drawn: string)
    requires FirstByToken(rows, v.token).None? && v.token != ""
    requires v.status == Pending && v.expiresAt == Some(created + RequestTtl)
    requires at <= later
    ensures at <= created + RequestTtl ==>
      var rows1 := VerifyStep(rows + [v], v.token, "approve", at).1;
      VerifyStep(rows + [v], v.token, "approve", at).0 == StatusOK
      && StatusStep(rows1, v.token, later, Some(drawn)).0 == StatusReply(StatusOK, Consumed, Some(drawn))
    ensures at > created + RequestTtl ==>
      var rows1 := VerifyStep(rows + [v], v.token, "approve", at).1;
      VerifyStep(rows + [v], v.token, "approve", at).0 == StatusGone
      && StatusStep(rows1, v.token, later, Some(drawn)).0 == StatusReply(StatusOK, Denied, None)
  {
    FirstOfAppended(rows, v);
  }

  /** A row appended under an unused token is the one found by it. */
  lemma {:induction false} FirstOfAppended(rows: seq<Verification>, v: Verification)
    requires FirstByToken(rows, v.token).None?
    ensures FirstByToken(rows + [v], v.token) == Some(v)
  {
    if |rows| > 0 {
      assert (rows + [v])[1..] == rows[1..] + [v];
      FirstOfAppended(rows[1..], v);
    }
  }

  /** The `guest_verifications` table. */
  class VerificationStore {
    var rows: seq<Verification>
    var nextId: int

    constructor ()
      ensures rows == [] && nextId == 1
    {
      rows := [];
      nextId := 1;
    }

    /** CreateGuestVerification: a pending request with the given expiry. */
    method Create(token: string, guestUserId: int, homeownerUserId: int, targetUrl: string, expiresAt: int)
      modifies this
      ensures rows == old(rows) + [Verification(old(nextId), token, guestUserId, homeownerUserId, targetUrl,
                                                Pending, Some(expiresAt))]
      ensures nextId == old(nextId) + 1
    {
      rows := rows + [Verification(nextId, token, guestUserId, homeownerUserId, targetUrl, Pending, Some(expiresAt))];
      nextId := nextId + 1;
    }

    /** GetGuestVerificationByToken: None stands for the not-found error. */
    method Get(token: string) returns (r: Option<Verification>)
      ensures r == FirstByToken(rows, token)
    {
      r := FirstByToken(rows, token);
    }

    /** SetGuestVerificationStatus. */
    method SetStatus(token: string, status: string)
      modifies this
      ensures rows == WithStatus(old(rows), token, status) && nextId == old(nextId)
    {
      rows := WithStatus(rows, token, status);
    }
  }

  /** RequestGuestVerificationHandler. Both users are looked up by name
      alone, whatever their role. `token` is the random request token,
      None when drawing it failed. The PIN is checked as validateGuestPin
      is written (PinValidAsWritten), so a guest whose `pin` column holds a
      hash is refused (HashedPinRejectedAsWritten). The approval mail is
      not part of this model; its failure never changes the answer. */
  method RequestVerification(users: UsersRepository, guestPins: map<int, string>, store: VerificationStore,
                             guestUsername: string, guestPin: string, homeownerUsername: string,
                             targetUrl: string, now: int, token: Option<string>)
    returns (code: int, reply: string)
    modifies store
    ensures code == StatusOK <==>
      guestUsername != "" && homeownerUsername != "" && ByUsername(users.rows, guestUsername).Some?
      && PinValidAsWritten(users.rows, guestPins, ByUsername(users.rows, guestUsername).value.id, guestPin)
      && ByUsername(users.rows, homeownerUsername).Some? && token.Some?
    ensures code == StatusOK ==>
      reply == Pending
      && store.rows == old(store.rows) + [Verification(old(store.nextId), token.value,
                                                       ByUsername(users.rows, guestUsername).value.id,
                                                       ByUsername(users.rows, homeownerUsername).value.id,
                                                       targetUrl, Pending, Some(now + RequestTtl))]
    ensures code != StatusOK ==> unchanged(store)
    ensures guestUsername == "" || homeownerUsername == "" ==> code == StatusBadRequest
    ensures guestUsername != "" && homeownerUsername != "" && ByUsername(users.rows, guestUsername).None? ==>
      code == StatusBadRequest
    ensures code == StatusUnauthorized <==>
      guestUsername != "" && homeownerUsername != "" && ByUsername(users.rows, guestUsername).Some?
      && !PinValidAsWritten(users.rows, guestPins, ByUsername(users.rows, guestUsername).value.id, guestPin)
    ensures code == StatusInternalServerError <==>
      guestUsername != "" && homeownerUsername != "" && ByUsername(users.rows, guestUsername).Some?
      && PinValidAsWritten(users.rows, guestPins, ByUsername(users.rows, guestUsername).value.id, guestPin)
      && ByUsername(users.rows, homeownerUsername).Some? && token.None?
  {
    reply := "";
    if guestUsername == "" || homeownerUsername == "" {
      return StatusBadRequest, "missing fields";
    }
    var guest := ByUsername(users.rows, guestUsername);
    if guest.None? {
      return StatusBadRequest, "guest not found";
    }
    if !PinValidAsWritten(users.rows, guestPins, guest.value.id, guestPin) {
      return StatusUnauthorized, "invalid pin";
    }
    var homeowner := ByUsername(users.rows, homeownerUsername);
    if homeowner.None? {
      return StatusBadRequest, "homeowner not found";
    }
    if token.None? {
      return StatusInternalServerError, "failed to generate token";
    }
    store.Create(token.value, guest.value.id, homeowner.value.id, targetUrl, now + RequestTtl);
    code, reply := StatusOK, Pending;
  }

  /** VerifyGuestByHomeownerHandler. */
  method Verify(store: VerificationStore, token: string, action: string, now: int) returns (code: int)
    modifies store
    ensures (code, store.rows) == VerifyStep(old(store.rows), token, action, now)
    ensures store.nextId == old(store.nextId)
  {
    if token == "" || (action != "approve" && action != "deny") {
      return StatusBadRequest;
    }
    var v := store.Get(token);
    if v.None? {
      return StatusNotFound;
    }
    if v.value.expiresAt.Some? && now > v.value.expiresAt.value {
      store.SetStatus(token, Denied);
      return StatusGone;
    }
    if action == "approve" {
      store.SetStatus(token, Approved);
      return StatusOK;
    }
    store.SetStatus(token, Denied);
    code := StatusOK;
  }

  /** GuestVerificationStatusHandler. */
  method Status(store: VerificationStore, token: string, now: int, drawn: Option<string>) returns (reply: StatusReply)
    modifies store
    ensures (reply, store.rows) == StatusStep(old(store.rows), token, now, drawn)
    ensures store.nextId == old(store.nextId)
  {
    if token == "" {
      return StatusReply(StatusBadRequest, "", None);
    }
    var v := store.Get(token);
    if v.None? {
      return StatusReply(StatusNotFound, "", None);
    }
    var status := v.value.status;
    if status == Pending && v.value.expiresAt.Some? && now > v.value.expiresAt.value {
      store.SetStatus(token, Denied);
      status := Denied;
    }
    reply := StatusReply(StatusOK, status, None);
    if status == Approved && drawn.Some? {
      store.SetStatus(token, Consumed);
      reply := StatusReply(StatusOK, Consumed, drawn);
    }
  }
}
