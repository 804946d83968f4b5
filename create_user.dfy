// Creating a user account on the e-voting server: trimming and checking
// the form fields, refusing an existing account or person, and inserting
// the user row together with its credentials row.
module UserCreation {
  import opened Wrappers
  import opened Text
  import opened EvotingTables

  /** Why CreateUser refused. `Unauthorized` exists in the server's error
      set but no path returns it. */
  datatype UserError =
    | Unauthorized
    | FieldsRequired
    | RoleInvalid
    | UserIdInvalid
    | FirstNameInvalid
    | LastNameInvalid
    | InvalidDateFormat
    | DobInFuture
    | DobBefore1900
    | PinInvalid
    | UserExists(samePerson: bool)

  // The three patterns the input must match.

  /** `[a-zA-Z0-9_-]` */
  predicate UserIdChar(c: char) { IsAsciiLetter(c) || IsAsciiDigit(c) || c == '_' || c == '-' }

  /** `^[a-zA-Z0-9_-]{3,50}$` */
  predicate ValidUserId(s: string)
  {
    3 <= |s| <= 50 && forall k :: 0 <= k < |s| ==> UserIdChar(s[k])
  }

  /** `\s` of the regular-expression engine: tab, newline, form feed,
      carriage return and space (not the full Unicode set of `IsSpace`). */
  predicate PatternSpace(c: char) { c == ' ' || c == '\t' || c == '\n' || c == '\U{C}' || c == '\r' }

  /** `[a-zA-Z\s'-]` */
  predicate NameChar(c: char) { IsAsciiLetter(c) || PatternSpace(c) || c == '\'' || c == '-' }

  /** `^[a-zA-Z\s'-]{1,100}$` */
  predicate ValidName(s: string)
  {
    1 <= |s| <= 100 && forall k :: 0 <= k < |s| ==> NameChar(s[k])
  }

  /** `^\d{4}-\d{2}-\d{2}$` */
  predicate DateShaped(s: string)
  {
    |s| == 10 && s[4] == '-' && s[7] == '-'
    && forall k :: 0 <= k < 10 && k != 4 && k != 7 ==> IsAsciiDigit(s[k])
  }

  /** `^\d{5}$`: the PIN that serves as password. */
  predicate FiveDigitPin(s: string) { |s| == 5 && AllDigits(s) }

  /** The date the checks are applied to, whatever date of birth was sent,
      and its midnight UTC in Unix seconds. */
  const PinnedDob: string := "2003-01-02"
  const PinnedDobUnix: int := 1041465600
  /** 1900-01-01T00:00:00Z in Unix seconds. */
  const Year1900Unix: int := -2208988800

  lemma PinnedDobShaped()
    ensures DateShaped(PinnedDob) && Year1900Unix <= PinnedDobUnix
  {
  }

  /** validateUserInput: the first failing check, in the server's order.
      `now` stands for the clock, in Unix seconds. The date checks look at
      PinnedDob, so `dob` plays no part. */
  function ValidateUserInput(userId: string, firstName: string, lastName: string, dob: string,
                             password: string, now: int): (r: Option<UserError>)
    ensures r.None? <==>
      ValidUserId(userId) && ValidName(firstName) && ValidName(lastName)
      && PinnedDobUnix <= now && FiveDigitPin(password)
    ensures r.Some? ==> r.value in {UserIdInvalid, FirstNameInvalid, LastNameInvalid, DobInFuture, PinInvalid}
  {
    PinnedDobShaped();
    if !ValidUserId(userId) then Some(UserIdInvalid)
    else if !ValidName(firstName) then Some(FirstNameInvalid)
    else if !ValidName(lastName) then Some(LastNameInvalid)
    else if !DateShaped(PinnedDob) then Some(InvalidDateFormat)
    else if PinnedDobUnix > now then Some(DobInFuture)
    else if PinnedDobUnix < Year1900Unix then Some(DobBefore1900)
    else if !FiveDigitPin(password) then Some(PinInvalid)
    else None
  }

  /** Any date of birth at all is accepted by the input checks: two requests
      that differ only in it get the same answer. */
  lemma AnyDobPasses(userId: string, firstName: string, lastName: string, dob1: string, dob2: string,
                     password: string, now: int)
    ensures ValidateUserInput(userId, firstName, lastName, dob1, password, now)
            == ValidateUserInput(userId, firstName, lastName, dob2, password, now)
  {
  }

  /** The form after sanitising: every field trimmed, the role lower-cased
      first; the password is taken as sent. */
  datatype NewUser = NewUser(id: string, firstName: string, lastName: string, dob: string,
                             password: string, role: string)

  function Sanitize(userId: string, firstName: string, lastName: string, dob: string,
                    password: string, role: string): (n: NewUser)
    ensures n.password == password
    ensures Trimmed(n.id) && Trimmed(n.firstName) && Trimmed(n.lastName) && Trimmed(n.dob) && Trimmed(n.role)
    ensures NoUpper(n.role)
  {
    TrimSpaceTrimmed(userId);
    TrimSpaceTrimmed(firstName);
    TrimSpaceTrimmed(lastName);
    TrimSpaceTrimmed(dob);
    TrimSpaceTrimmed(ToLower(role));
    ToLowerNoUpper(role);
    TrimSpaceNoUpper(ToLower(role));
    NewUser(TrimSpace(userId), TrimSpace(firstName), TrimSpace(lastName), TrimSpace(dob),
            password, TrimSpace(ToLower(role)))
  }

  /** A form whose fields have no spaces at their ends and whose role has
      no capital letter is taken as it is. */
  lemma SanitizeKeepsClean(userId: string, firstName: string, lastName: string, dob: string,
                           password: string, role: string)
    requires Trimmed(userId) && Trimmed(firstName) && Trimmed(lastName) && Trimmed(dob)
    requires Trimmed(role) && NoUpper(role)
    ensures Sanitize(userId, firstName, lastName, dob, password, role)
            == NewUser(userId, firstName, lastName, dob, password, role)
  {
    TrimSpaceTrimmed(userId);
    TrimSpaceTrimmed(firstName);
    TrimSpaceTrimmed(lastName);
    TrimSpaceTrimmed(dob);
    ToLowerNoUpper(role);
    TrimSpaceTrimmed(role);
  }

  /** Sanitising a sanitised form changes nothing. */
  lemma SanitizeIdempotent(userId: string, firstName: string, lastName: string, dob: string,
                           password: string, role: string)
    ensures var n := Sanitize(userId, firstName, lastName, dob, password, role);
      Sanitize(n.id, n.firstName, n.lastName, n.dob, n.password, n.role) == n
  {
    var n := Sanitize(userId, firstName, lastName, dob, password, role);
    SanitizeKeepsClean(n.id, n.firstName, n.lastName, n.dob, n.password, n.role);
  }

  predicate KnownRole(role: string) { role == "admin" || role == "official" || role == "voter" }

  /** A user with this first name, last name and date of birth exists. */
  predicate SamePersonExists(users: seq<User>, n: NewUser)
  {
    exists k :: 0 <= k < |users| && users[k].firstName == n.firstName
      && users[k].lastName == n.lastName && users[k].dob == n.dob
  }

  /** Every check CreateUser makes before its transaction, in order: the
      required fields, the role, the input patterns, then the two lookups.
      The caller's role is not among them, so `Unauthorized` never comes. */
  function CheckNewUser(users: seq<User>, n: NewUser, now: int): (r: Option<UserError>)
    ensures r != Some(Unauthorized)
    ensures r.None? <==>
      n.dob != "" && KnownRole(n.role)
      && ValidUserId(n.id) && ValidName(n.firstName) && ValidName(n.lastName)
      && PinnedDobUnix <= now && FiveDigitPin(n.password)
      && !IsUser(users, n.id) && !SamePersonExists(users, n)
    ensures r == Some(UserExists(false)) <==>
      CheckInputs(n, now).None? && IsUser(users, n.id)
  {
    var invalid := CheckInputs(n, now);
    if invalid.Some? then invalid
    else if IsUser(users, n.id) then Some(UserExists(false))
    else if SamePersonExists(users, n) then Some(UserExists(true))
    else None
  }

  /** The checks that need no lookup. */
  function CheckInputs(n: NewUser, now: int): (r: Option<UserError>)
    ensures r.Some? ==> !r.value.UserExists? && r.value != Unauthorized
  {
    if n.id == "" || n.firstName == "" || n.lastName == "" || n.dob == "" || n.password == "" || n.role == "" then
      Some(FieldsRequired)
    else if !KnownRole(n.role) then Some(RoleInvalid)
    else ValidateUserInput(n.id, n.firstName, n.lastName, n.dob, n.password, now)
  }

  /** No two users share an id, and no two share name and date of birth. */
  predicate UsersUnique(users: seq<User>)
  {
    forall i, j :: 0 <= i < j < |users| ==>
      users[i].id != users[j].id
      && !(users[i].firstName == users[j].firstName && users[i].lastName == users[j].lastName
           && users[i].dob == users[j].dob)
  }

  /** Adding a user that passed the lookups keeps both kinds of uniqueness. */
  lemma {:induction false} AddedUserUnique(users: seq<User>, n: NewUser, now: int)
    requires UsersUnique(users)
    requires CheckNewUser(users, n, now).None?
    ensures UsersUnique(users + [User(n.id, n.firstName, n.lastName, n.dob)])
  {
    var all := users + [User(n.id, n.firstName, n.lastName, n.dob)];
    forall i, j | 0 <= i < j < |all|
      ensures all[i].id != all[j].id
      ensures !(all[i].firstName == all[j].firstName && all[i].lastName == all[j].lastName
                && all[i].dob == all[j].dob)
    {
      if j == |users| {
        assert all[i] == users[i];
      }
    }
  }

  /** CreateUser. `now` stands for the clock and `sha` for the SHA-256
      hex digest. Nothing is written unless every check passes; then the
      user row and its credentials row (hashed password, role) are added
      together. */
  method CreateUser(db: Database, userId: string, firstName: string, lastName: string, dob: string,
                    password: string, role: string, adminRole: string, now: int, sha: string -> string)
    returns (err: Option<UserError>)
    requires db.Valid()
    modifies db
    ensures db.Valid()
    ensures err == CheckNewUser(old(db.users), Sanitize(userId, firstName, lastName, dob, password, role), now)
    ensures err.Some? ==> unchanged(db)
    ensures err.None? ==>
      var n := Sanitize(userId, firstName, lastName, dob, password, role);
      && db.users == old(db.users) + [User(n.id, n.firstName, n.lastName, n.dob)]
      && db.credentials == old(db.credentials) + [Credential(n.id, sha(password), n.role)]
      && db.elections == old(db.elections) && db.positions == old(db.positions)
      && db.candidates == old(db.candidates) && db.votes == old(db.votes)
      && db.nextElectionId == old(db.nextElectionId) && db.nextPositionId == old(db.nextPositionId)
      && db.nextCandidateId == old(db.nextCandidateId) && db.nextVoteId == old(db.nextVoteId)
  {
    var n := Sanitize(userId, firstName, lastName, dob, password, role);
    err := CheckNewUser(db.users, n, now);
    if err.Some? {
      return;
    }
    var hash := sha(n.password);
    var users := db.users + [User(n.id, n.firstName, n.lastName, n.dob)];
    var credentials := db.credentials + [Credential(n.id, hash, n.role)];
    NewUserKeepsInvariants(db.elections, db.positions, db.candidates, db.votes, db.users, db.credentials,
                           db.nextElectionId, db.nextPositionId, db.nextCandidateId, db.nextVoteId,
                           User(n.id, n.firstName, n.lastName, n.dob), hash, n.role);
    CommitUser(db, users, credentials);
  }

  /** The insert's commit: the user and credentials tables take their new
      contents together. */
  method CommitUser(db: Database, users: seq<User>, credentials: seq<Credential>)
    requires TablesValid(db.elections, db.positions, db.candidates, db.votes, users, credentials,
                         db.nextElectionId, db.nextPositionId, db.nextCandidateId, db.nextVoteId)
    modifies db
    ensures db.Valid()
    ensures db.users == users && db.credentials == credentials
    ensures db.elections == old(db.elections) && db.positions == old(db.positions)
    ensures db.candidates == old(db.candidates) && db.votes == old(db.votes)
    ensures db.nextElectionId == old(db.nextElectionId) && db.nextPositionId == old(db.nextPositionId)
    ensures db.nextCandidateId == old(db.nextCandidateId) && db.nextVoteId == old(db.nextVoteId)
  {
    db.users, db.credentials := users, credentials;
  }

  /** Adding a user with a credentials row of its own keeps the database
      invariant: earlier votes and credentials still name users. */
  lemma {:induction false} NewUserKeepsInvariants(es: seq<Election>, ps: seq<Position>, cs: seq<Candidate>,
                                                  vs: seq<Vote>, users: seq<User>, creds: seq<Credential>,
                                                  nextE: int, nextP: int, nextC: int, nextV: int,
                                                  u: User, hash: string, role: string)
    requires TablesValid(es, ps, cs, vs, users, creds, nextE, nextP, nextC, nextV)
    ensures TablesValid(es, ps, cs, vs, users + [u], creds + [Credential(u.id, hash, role)],
                        nextE, nextP, nextC, nextV)
    ensures IsUser(users + [u], u.id)
  {
    var all := users + [u];
    assert all[|users|] == u;
    forall id | IsUser(users, id) ensures IsUser(all, id) {
      var k :| 0 <= k < |users| && users[k].id == id;
      assert all[k] == users[k];
    }
    var allCreds := creds + [Credential(u.id, hash, role)];
    forall k | 0 <= k < |allCreds| ensures IsUser(all, allCreds[k].userId) {
      if k < |creds| {
        assert allCreds[k] == creds[k];
      }
    }
  }
}
