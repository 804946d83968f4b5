// The ATM's sign-on: username and PIN against the account store with a
// lockout after three wrong PINs, then the role on the inserted card must
// match the stored role before the role's menu opens.
module AtmLogin {
  import opened Wrappers
  import opened Text
  import opened AtmAccounts

  datatype CardError = CannotOpen | FileEmpty

  /** ParseIDCard: the first line of the card file (without a trailing
      carriage return); an empty file is an error. `file` is None when the
      file cannot be opened. */
  function ParseIDCard(file: Option<string>): (r: Result<string, CardError>)
    ensures file.None? ==> r == Err(CannotOpen)
    ensures file == Some("") ==> r == Err(FileEmpty)
    ensures r.Ok? ==> forall i :: 0 <= i < |r.value| ==> r.value[i] != '\n'
  {
    match file
    case None => Err(CannotOpen)
    case Some(contents) =>
      if contents == "" then Err(FileEmpty)
      else
        var line := Split(contents, '\n')[0];
        if |line| > 0 && line[|line| - 1] == '\r' then Ok(line[..|line| - 1]) else Ok(line)
  }

  /** A card whose first line is `role` reads as `role`, whatever follows. */
  lemma {:induction false} CardFirstLine(role: string, rest: string)
    requires forall i :: 0 <= i < |role| ==> role[i] != '\n'
    requires |role| > 0 ==> role[|role| - 1] != '\r'
    ensures ParseIDCard(Some(role + "\n" + rest)) == Ok(role)
    ensures role != "" ==> ParseIDCard(Some(role)) == Ok(role)
  {
    SplitFirst(role, '\n', rest);
  }

  /** How a sign-on attempt ends. */
  datatype LoginOutcome =
    | EmptyUsername
    | EmptyPin
    | InvalidLogin
    | AccountLocked
    | WrongPin(attempts: int)
    | LockedOut
    | LoggedIn(username: string)

  /** Login as a decision on the store. The prompts trim what is typed;
      `pinMatches` stands for bcrypt's comparison of a hash and a PIN. */
  function LoginStep(b: Bank, typedUsername: string, typedPin: string,
                     pinMatches: (string, string) -> bool): (LoginOutcome, Bank)
  {
    var username := TrimSpace(typedUsername);
    var pin := TrimSpace(typedPin);
    if username == "" then (EmptyUsername, b)
    else if pin == "" then (EmptyPin, b)
    else
      match GetUserAuth(b, username)
      case Err(_) => (InvalidLogin, b)
      case Ok(info) =>
        if info.locked then (AccountLocked, b)
        else if !pinMatches(info.pinHash, pin) then
          var (r, after) := IncrementStep(b, username);
          if r.Err? then (InvalidLogin, after)
          else if r.value.1 then (LockedOut, after)
          else (WrongPin(r.value.0), after)
        else (LoggedIn(username), ResetStep(b, username))
  }

  /** Login: each check in turn, touching the store only for a wrong PIN
      (one more failure) or a right one (failures cleared). */
  method Login(db: AtmDatabase, typedUsername: string, typedPin: string, pinMatches: (string, string) -> bool)
    returns (ok: bool, username: string, outcome: LoginOutcome)
    modifies db
    ensures (outcome, db.State()) == LoginStep(old(db.State()), typedUsername, typedPin, pinMatches)
    ensures ok <==> outcome.LoggedIn?
    ensures username == if ok then TrimSpace(typedUsername) else ""
  {
    var name := TrimSpace(typedUsername);
    if name == "" {
      return false, "", EmptyUsername;
    }
    var pin := TrimSpace(typedPin);
    if pin == "" {
      return false, "", EmptyPin;
    }
    var info := GetUserAuth(db.State(), name);
    if info.Err? {
      return false, "", InvalidLogin;
    }
    if info.value.locked {
      return false, "", AccountLocked;
    }
    if !pinMatches(info.value.pinHash, pin) {
      var r := db.IncrementFailedAttempts(name);
      if r.Err? {
        return false, "", InvalidLogin;
      }
      if r.value.1 {
        return false, "", LockedOut;
      }
      return false, "", WrongPin(r.value.0);
    }
    db.ResetFailedAttempts(name);
    return true, name, LoggedIn(name);
  }

  /** An empty username or PIN is refused before the store is read: the
      outcome is the same whatever the store holds, and nothing changes. */
  lemma EmptyInputRefusedEarly(b1: Bank, b2: Bank, typedUsername: string, typedPin: string,
                               pinMatches: (string, string) -> bool)
    requires TrimSpace(typedUsername) == "" || TrimSpace(typedPin) == ""
    ensures LoginStep(b1, typedUsername, typedPin, pinMatches).0 == LoginStep(b2, typedUsername, typedPin, pinMatches).0
    ensures LoginStep(b1, typedUsername, typedPin, pinMatches).1 == b1
    ensures !LoginStep(b1, typedUsername, typedPin, pinMatches).0.LoggedIn?
  {
  }

  /** A locked account is refused whatever PIN is typed, and the refusal
      does not count as a failure. */
  lemma {:induction false} LockedAccountRefused(b: Bank, typedUsername: string, typedPin: string,
                                                pinMatches: (string, string) -> bool)
    requires TrimSpace(typedUsername) != "" && TrimSpace(typedPin) != ""
    requires GetUserAuth(b, TrimSpace(typedUsername)).Ok? && GetUserAuth(b, TrimSpace(typedUsername)).value.locked
    ensures LoginStep(b, typedUsername, typedPin, pinMatches) == (AccountLocked, b)
  {
  }

  /** On an unlocked account a wrong PIN adds one failure, and the
      lockout is reported and stored exactly when that failure is the third
      or later. */
  lemma {:induction false} WrongPinCounted(b: Bank, typedUsername: string, typedPin: string,
                                           pinMatches: (string, string) -> bool)
    requires TrimSpace(typedUsername) != "" && TrimSpace(typedPin) != ""
    requires GetUserAuth(b, TrimSpace(typedUsername)).Ok? && !GetUserAuth(b, TrimSpace(typedUsername)).value.locked
    requires !pinMatches(GetUserAuth(b, TrimSpace(typedUsername)).value.pinHash, TrimSpace(typedPin))
    ensures var name := TrimSpace(typedUsername);
      var before := GetUserAuth(b, name).value;
      var (outcome, after) := LoginStep(b, typedUsername, typedPin, pinMatches);
      GetUserAuth(after, name).Ok? && GetUserAuth(after, name).value.pinHash == before.pinHash
      && GetUserAuth(after, name).value.failedAttempts == before.failedAttempts + 1
      && (GetUserAuth(after, name).value.locked <==> before.failedAttempts + 1 >= LockThreshold)
      && outcome == if before.failedAttempts + 1 >= LockThreshold then LockedOut else WrongPin(before.failedAttempts + 1)
  {
    AttemptBookkeeping(b, TrimSpace(typedUsername));
  }

  /** On an unlocked account the right PIN signs on and clears the
      failures. */
  lemma {:induction false} RightPinResets(b: Bank, typedUsername: string, typedPin: string,
                                          pinMatches: (string, string) -> bool)
    requires TrimSpace(typedUsername) != "" && TrimSpace(typedPin) != ""
    requires GetUserAuth(b, TrimSpace(typedUsername)).Ok? && !GetUserAuth(b, TrimSpace(typedUsername)).value.locked
    requires pinMatches(GetUserAuth(b, TrimSpace(typedUsername)).value.pinHash, TrimSpace(typedPin))
    ensures var name := TrimSpace(typedUsername);
      var (outcome, after) := LoginStep(b, typedUsername, typedPin, pinMatches);
      outcome == LoggedIn(name) && GetUserAuth(after, name).Ok?
      && GetUserAuth(after, name).value.failedAttempts == 0 && !GetUserAuth(after, name).value.locked
  {
    AttemptBookkeeping(b, TrimSpace(typedUsername));
  }

  /** Three wrong PINs in a row on a fresh account lock it, and after that
      even the right PIN is refused. */
  lemma {:induction false} ThreeStrikes(b: Bank, typedUsername: string, wrong: string, right: string,
                                        pinMatches: (string, string) -> bool)
    requires TrimSpace(typedUsername) != "" && TrimSpace(wrong) != "" && TrimSpace(right) != ""
    requires GetUserAuth(b, TrimSpace(typedUsername)).Ok?
    requires GetUserAuth(b, TrimSpace(typedUsername)).value.failedAttempts == 0
    requires !GetUserAuth(b, TrimSpace(typedUsername)).value.locked
    requires !pinMatches(GetUserAuth(b, TrimSpace(typedUsername)).value.pinHash, TrimSpace(wrong))
    ensures var (o1, b1) := LoginStep(b, typedUsername, wrong, pinMatches);
      var (o2, b2) := LoginStep(b1, typedUsername, wrong, pinMatches);
      var (o3, b3) := LoginStep(b2, typedUsername, wrong, pinMatches);
      o1 == WrongPin(1) && o2 == WrongPin(2) && o3 == LockedOut
      && LoginStep(b3, typedUsername, right, pinMatches) == (AccountLocked, b3)
  {
    var name := TrimSpace(typedUsername);
    var hash := GetUserAuth(b, name).value.pinHash;
    WrongPinCounted(b, typedUsername, wrong, pinMatches);
    var b1 := LoginStep(b, typedUsername, wrong, pinMatches).1;
    assert GetUserAuth(b1, name).value == GetUserAuth(b1, name).value.(failedAttempts := 1, locked := false, pinHash := hash);
    WrongPinCounted(b1, typedUsername, wrong, pinMatches);
    var b2 := LoginStep(b1, typedUsername, wrong, pinMatches).1;
    assert GetUserAuth(b2, name).value.failedAttempts == 2 && !GetUserAuth(b2, name).value.locked;
    WrongPinCounted(b2, typedUsername, wrong, pinMatches);
    var b3 := LoginStep(b2, typedUsername, wrong, pinMatches).1;
    assert GetUserAuth(b3, name).Ok? && GetUserAuth(b3, name).value.locked;
  }

  const RoleAdmin: string := "admin"
  const RoleCustomer: string := "customer"
  const RoleCashHandler: string := "cash handler"

  /** Where a signed-on user ends up. */
  datatype Route = RoleLookupFailed | CardRejected | AdminMenu | CustomerMenu | HandlerMenu | UnknownUserType

  /** RouteUser: the card's role must equal the stored role lower-cased;
      then the stored role picks the menu. */
  function RouteUser(b: Bank, username: string, card: Option<string>): (r: Route)
    ensures r.AdminMenu? || r.CustomerMenu? || r.HandlerMenu? ==>
      FetchUserRole(b, username).Ok? && ParseIDCard(card) == Ok(FetchUserRole(b, username).value)
    ensures r == AdminMenu <==> FetchUserRole(b, username) == Ok(RoleAdmin) && ParseIDCard(card) == Ok(RoleAdmin)
    ensures r == CustomerMenu <==> FetchUserRole(b, username) == Ok(RoleCustomer) && ParseIDCard(card) == Ok(RoleCustomer)
    ensures r == HandlerMenu <==>
      FetchUserRole(b, username) == Ok(RoleCashHandler) && ParseIDCard(card) == Ok(RoleCashHandler)
  {
    match FetchUserRole(b, username)
    case Err(_) => RoleLookupFailed
    case Ok(dbRole) =>
      var cardRole := ParseIDCard(card);
      if cardRole.Err? || cardRole.value != dbRole then CardRejected
      else if dbRole == RoleAdmin then AdminMenu
      else if dbRole == RoleCustomer then CustomerMenu
      else if dbRole == RoleCashHandler then HandlerMenu
      else UnknownUserType
  }

  /** The stored role is lower-cased but the card's is not, so a card
      written with a capital letter never opens a menu. */
  lemma {:induction false} CapitalisedCardRejected(b: Bank, username: string, card: Option<string>, k: nat)
    requires ParseIDCard(card).Ok? && k < |ParseIDCard(card).value|
    requires 'A' <= ParseIDCard(card).value[k] <= 'Z'
    ensures RouteUser(b, username, card) == RoleLookupFailed || RouteUser(b, username, card) == CardRejected
  {
    if FetchUserRole(b, username).Ok? {
      var u :| u in b.users && u.username == username && FetchUserRole(b, username).value == ToLower(u.role);
      var lowered := ToLower(u.role);
      if k < |lowered| {
        assert lowered[k] == LowerChar(u.role[k]);
      }
    }
  }
}
