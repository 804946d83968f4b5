// Logging in to the e-voting server against the credentials table, and
// hashing a PIN.
module EvotingAuth {
  import opened Wrappers
  import opened Text
  import opened EvotingTables
  import UserCreation

  /** A wrong password and an unknown user give the same error. */
  datatype AuthError = InvalidCredentials

  /** `SELECT password_hash, role FROM credentials WHERE user_id = ?`:
      the first matching row, if any. */
  function FindCredential(creds: seq<Credential>, userId: string): (r: Option<Credential>)
    ensures r.Some? <==> exists k :: 0 <= k < |creds| && creds[k].userId == userId
    ensures r.Some? ==> r.value in creds && r.value.userId == userId
  {
    if |creds| == 0 then None
    else if creds[0].userId == userId then Some(creds[0])
    else FindCredential(creds[1..], userId)
  }

  /** AuthenticateUser. Login succeeds exactly when the user name, trimmed,
      and the password are non-empty and the user's (first) credentials row
      holds `sha` of the password as sent; the answer is that row's role. */
  function AuthenticateUser(creds: seq<Credential>, username: string, password: string,
                            sha: string -> string): (r: Result<string, AuthError>)
    ensures r.Ok? <==>
      TrimSpace(username) != "" && password != ""
      && FindCredential(creds, TrimSpace(username)).Some?
      && FindCredential(creds, TrimSpace(username)).value.passwordHash == sha(password)
    ensures r.Ok? ==> r.value == FindCredential(creds, TrimSpace(username)).value.role
  {
    var name := TrimSpace(username);
    if name == "" || password == "" then Err(InvalidCredentials)
    else
      match FindCredential(creds, name)
      case None => Err(InvalidCredentials)
      case Some(c) => if sha(password) != c.passwordHash then Err(InvalidCredentials) else Ok(c.role)
  }

  /** HashPassword: the digest of a five-digit PIN, an error otherwise. */
  function HashPassword(password: string, sha: string -> string): (r: Result<string, string>)
    ensures r.Ok? <==> UserCreation.FiveDigitPin(password)
    ensures r.Ok? ==> r.value == sha(password)
  {
    if !UserCreation.FiveDigitPin(password) then Err("password must be a 5 digit pin")
    else Ok(sha(password))
  }

  /** A user that CreateUser has just added can log in with the user id
      and PIN they registered, and gets the role they registered with;
      the stored hash is what HashPassword gives for that PIN. */
  lemma {:induction false} CreatedUserCanLogIn(es: seq<Election>, ps: seq<Position>, cs: seq<Candidate>,
                                               vs: seq<Vote>, users: seq<User>, creds: seq<Credential>,
                                               nextE: int, nextP: int, nextC: int, nextV: int,
                                               userId: string, firstName: string, lastName: string, dob: string,
                                               password: string, role: string, now: int, sha: string -> string)
    requires TablesValid(es, ps, cs, vs, users, creds, nextE, nextP, nextC, nextV)
    requires UserCreation.CheckNewUser(users, UserCreation.Sanitize(userId, firstName, lastName, dob, password, role), now).None?
    ensures
      var n := UserCreation.Sanitize(userId, firstName, lastName, dob, password, role);
      AuthenticateUser(creds + [Credential(n.id, sha(password), n.role)], userId, password, sha) == Ok(n.role)
      && HashPassword(password, sha) == Ok(sha(password))
  {
    var n := UserCreation.Sanitize(userId, firstName, lastName, dob, password, role);
    var c := Credential(n.id, sha(password), n.role);
    assert !IsUser(users, n.id) && UserCreation.FiveDigitPin(password);
    CredentialsOfOthers(users, creds, n.id);
    FindAfterAbsent(creds, c);
    assert FindCredential(creds + [c], TrimSpace(userId)) == Some(c);
  }

  /** An id that is no user's has no credentials row, since every row
      belongs to a user. */
  lemma CredentialsOfOthers(users: seq<User>, creds: seq<Credential>, id: string)
    requires forall k :: 0 <= k < |creds| ==> IsUser(users, creds[k].userId)
    requires !IsUser(users, id)
    ensures forall k :: 0 <= k < |creds| ==> creds[k].userId != id
  {
  }

  /** A row appended for a user id no earlier row has is the one found. */
  lemma {:induction false} FindAfterAbsent(creds: seq<Credential>, c: Credential)
    requires forall k :: 0 <= k < |creds| ==> creds[k].userId != c.userId
    ensures FindCredential(creds + [c], c.userId) == Some(c)
  {
    if |creds| > 0 {
      assert (creds + [c])[1..] == creds[1..] + [c];
      FindAfterAbsent(creds[1..], c);
    }
  }
}
