// The sign-in page: the role picker, the required fields per role, and the
// failure counter that shows the lockout overlay from the sixth failure on.
module SignIn {
  import opened Wrappers
  import opened Text

  datatype Role = Homeowner | Technician | Guest

  function RoleName(r: Role): string
  {
    match r
    case Homeowner => "homeowner"
    case Technician => "technician"
    case Guest => "guest"
  }

  /** Failures from which the overlay replaces the alert. */
  const LockoutThreshold: nat := 6

  /** What the login call does: resolves, or throws; a thrown `Error`
      carries its message, anything else thrown carries none. */
  datatype Attempt = Accepted | Rejected(message: Option<string>)

  /** The fields a role must fill in before anything is sent. */
  predicate Ready(role: Role, username: string, secret: string, homeowner: string)
  {
    username != "" && secret != "" && (role == Homeowner || homeowner != "")
  }

  /** How a failure is reported. */
  datatype Problem =
    | Unknown
    | InvalidCredentials
    | HomeownerNotFound
    | AccessWindow
    | AccessDenied(message: string)
    | InvalidRequest
    | OtherError(message: string)

  /** The message tests, in order: "401", then "403" refined by its text,
      then "400", and anything else. */
  function Classify(e: Option<string>): (p: Problem)
    ensures e.None? <==> p == Unknown
    ensures e.Some? ==>
      (p == InvalidCredentials <==> Contains(e.value, "401"))
      && (p == HomeownerNotFound <==>
            !Contains(e.value, "401") && Contains(e.value, "403") && Contains(e.value, "homeowner not found"))
      && (p == AccessWindow <==>
            !Contains(e.value, "401") && Contains(e.value, "403") && !Contains(e.value, "homeowner not found")
            && Contains(e.value, "access window"))
      && (p.AccessDenied? <==>
            !Contains(e.value, "401") && Contains(e.value, "403") && !Contains(e.value, "homeowner not found")
            && !Contains(e.value, "access window"))
      && (p == InvalidRequest <==> !Contains(e.value, "401") && !Contains(e.value, "403") && Contains(e.value, "400"))
      && (p.OtherError? <==> !Contains(e.value, "401") && !Contains(e.value, "403") && !Contains(e.value, "400"))
      && (p.AccessDenied? || p.OtherError? ==> p.message == e.value)
  {
    match e
    case None => Unknown
    case Some(m) =>
      if Contains(m, "401") then InvalidCredentials
      else if Contains(m, "403") then
        if Contains(m, "homeowner not found") then HomeownerNotFound
        else if Contains(m, "access window") then AccessWindow
        else AccessDenied(m)
      else if Contains(m, "400") then InvalidRequest
      else OtherError(m)
  }

  /** The alert text for a problem. */
  function ProblemText(p: Problem): string
  {
    match p
    case Unknown => "Sign in failed. Check credentials and try again."
    case InvalidCredentials => "\U{274C} Invalid credentials: Username or password is incorrect."
    case HomeownerNotFound => "\U{274C} Homeowner not found: Please check the homeowner username."
    case AccessWindow =>
      "\U{274C} Access window issue: The access period has expired or hasn't started yet. Please contact the homeowner."
    case AccessDenied(m) => "\U{274C} Access denied: " + m
    case InvalidRequest => "\U{274C} Invalid request: Please check all fields are filled correctly."
    case OtherError(m) => "\U{274C} Error: " + m
  }

  /** The counter and overlay after one attempt that was sent. */
  function AfterAttempt(failureCount: nat, lockout: bool, a: Attempt): (nat, bool)
  {
    match a
    case Accepted => (0, lockout)
    case Rejected(_) => (failureCount + 1, lockout || failureCount + 1 >= LockoutThreshold)
  }

  /** The counter and overlay after a run of attempts. */
  function AfterAttempts(failureCount: nat, lockout: bool, attempts: seq<Attempt>): (nat, bool)
    decreases |attempts|
  {
    if |attempts| == 0 then (failureCount, lockout)
    else
      var (c, l) := AfterAttempt(failureCount, lockout, attempts[0]);
      AfterAttempts(c, l, attempts[1..])
  }

  /** `n` failures in a row on a fresh page count `n`, and the overlay is up
      exactly from the sixth. */
  lemma {:induction false} FailuresCount(failureCount: nat, lockout: bool, attempts: seq<Attempt>)
    requires forall k :: 0 <= k < |attempts| ==> attempts[k].Rejected?
    ensures AfterAttempts(failureCount, lockout, attempts).0 == failureCount + |attempts|
    ensures AfterAttempts(failureCount, lockout, attempts).1 <==>
      lockout || (|attempts| > 0 && failureCount + |attempts| >= LockoutThreshold)
    decreases |attempts|
  {
    if |attempts| > 0 {
      var (c, l) := AfterAttempt(failureCount, lockout, attempts[0]);
      FailuresCount(c, l, attempts[1..]);
    }
  }

  /** A success clears the counter whatever came before, but the overlay,
      once up, stays up. */
  lemma {:induction false} SuccessResets(failureCount: nat, lockout: bool, attempts: seq<Attempt>)
    requires |attempts| > 0 && attempts[|attempts| - 1] == Accepted
    ensures AfterAttempts(failureCount, lockout, attempts).0 == 0
    ensures lockout ==> AfterAttempts(failureCount, lockout, attempts).1
    decreases |attempts|
  {
    var (c, l) := AfterAttempt(failureCount, lockout, attempts[0]);
    if |attempts| > 1 {
      SuccessResets(c, l, attempts[1..]);
    }
  }

  class SignInPage {
    var selectedRole: Option<Role>
    var username: string
    var secret: string
    var homeowner: string
    var failureCount: nat
    var showLockout: bool
    /** Where the router was sent, if anywhere. */
    var destination: Option<string>

    constructor ()
      ensures selectedRole.None? && username == "" && secret == "" && homeowner == ""
      ensures failureCount == 0 && !showLockout && destination.None?
    {
      selectedRole := None;
      username, secret, homeowner := "", "", "";
      failureCount := 0;
      showLockout := false;
      destination := None;
    }

    /** Picking a role; the effect on the selected role clears the fields
        whenever the role actually changes. */
    method SelectRole(r: Role)
      modifies this
      ensures selectedRole == Some(r)
      ensures old(selectedRole) != Some(r) ==> username == "" && secret == "" && homeowner == ""
      ensures old(selectedRole) == Some(r) ==>
        username == old(username) && secret == old(secret) && homeowner == old(homeowner)
      ensures failureCount == old(failureCount) && showLockout == old(showLockout) && destination == old(destination)
    {
      if selectedRole != Some(r) {
        username, secret, homeowner := "", "", "";
      }
      selectedRole := Some(r);
    }

    /** Typing into the fields. */
    method Fill(u: string, s: string, h: string)
      modifies this
      ensures username == u && secret == s && homeowner == h
      ensures selectedRole == old(selectedRole) && failureCount == old(failureCount)
      ensures showLockout == old(showLockout) && destination == old(destination)
    {
      username, secret, homeowner := u, s, h;
    }

    /** handleSignIn. `login` stands for the API call of the selected role;
        `alertText` is the alert shown, if any. */
    method HandleSignIn(login: (Role, string, string, string) -> Attempt) returns (alertText: Option<string>)
      modifies this
      ensures selectedRole == old(selectedRole) && username == old(username)
      ensures secret == old(secret) && homeowner == old(homeowner)
      ensures (old(selectedRole).None? || !Ready(old(selectedRole).value, old(username), old(secret), old(homeowner))) ==>
        failureCount == old(failureCount) && showLockout == old(showLockout) && destination == old(destination)
        && alertText.None?
      ensures old(selectedRole).Some? && Ready(old(selectedRole).value, old(username), old(secret), old(homeowner)) ==>
        var a := login(old(selectedRole).value, old(username), old(secret), old(homeowner));
        (failureCount, showLockout) == AfterAttempt(old(failureCount), old(showLockout), a)
        && (a == Accepted ==> destination == Some("/dashboard/" + RoleName(old(selectedRole).value)) && alertText.None?)
        && (a.Rejected? ==>
              destination == old(destination)
              && alertText == if failureCount >= LockoutThreshold then None else Some(ProblemText(Classify(a.message))))
    {
      alertText := None;
      if selectedRole.None? {
        return;
      }
      var role := selectedRole.value;
      if !Ready(role, username, secret, homeowner) {
        return;
      }
      var a := login(role, username, secret, homeowner);
      if a == Accepted {
        failureCount := 0;
        destination := Some("/dashboard/" + RoleName(role));
      } else {
        var errorText := ProblemText(Classify(a.message));
        var next := failureCount + 1;
        failureCount := next;
        if next >= LockoutThreshold {
          showLockout := true;
        } else {
          alertText := Some(errorText);
        }
      }
    }
  }
}
