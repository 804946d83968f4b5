// The ATM's account store: users with their balance and failed-PIN count,
// the machine's own cash balance, and the transaction log. Deposits and
// withdrawals move the user's balance and the machine's together and log
// the signed amount.
module AtmAccounts {
  import opened Wrappers
  import opened Text

  /** Failed PIN entries at which an account locks. */
  const LockThreshold: int := 3

  /** A row of `users`; `balance` is the `starting_bal` column, which holds
      the current balance, and `locked` is stored as 0 or 1. */
  datatype AtmUser = AtmUser(id: int, fullName: string, dob: string, pinHash: string, balance: real,
                             username: string, role: string, failedAttempts: int, locked: int)

  /** A row of `transactions`: a signed amount; the date column is not
      modelled. */
  datatype Transaction = Transaction(userId: int, amount: real)

  /** The database: the users, the cash in machine 1, and the log. */
  datatype Bank = Bank(users: seq<AtmUser>, atmBalance: real, transactions: seq<Transaction>)

  datatype AtmError = UserNotFound | UsernameTaken | InsufficientFunds

  /** What GetUserAuth reads. */
  datatype UserAuthInfo = UserAuthInfo(pinHash: string, failedAttempts: int, locked: bool, role: string)

  /** `WHERE username = ?` read with QueryRow: the first matching row. */
  function IndexOf(users: seq<AtmUser>, username: string): (r: Option<nat>)
    ensures r.Some? ==> r.value < |users| && users[r.value].username == username
                        && forall j :: 0 <= j < r.value ==> users[j].username != username
    ensures r.None? <==> forall j :: 0 <= j < |users| ==> users[j].username != username
  {
    if |users| == 0 then None
    else if users[0].username == username then Some(0)
    else
      var rest := IndexOf(users[1..], username);
      if rest.Some? then Some(rest.value + 1) else None
  }

  /** Usernames are unique and ids count up from 1 in insertion order, as
      CreateUser keeps them. */
  ghost predicate Valid(b: Bank)
  {
    (forall i, j :: 0 <= i < j < |b.users| ==> b.users[i].username != b.users[j].username)
    && forall i :: 0 <= i < |b.users| ==> b.users[i].id == i + 1
  }

  /** FetchUserRole: the stored role in lower case. */
  function FetchUserRole(b: Bank, username: string): (r: Result<string, AtmError>)
    ensures r.Err? <==> forall u :: u in b.users ==> u.username != username
    ensures r.Ok? ==> exists u :: u in b.users && u.username == username && r.value == ToLower(u.role)
  {
    match IndexOf(b.users, username)
    case None => Err(UserNotFound)
    case Some(i) => assert b.users[i] in b.users; Ok(ToLower(b.users[i].role))
  }

  /** GetUserAuth: locked exactly when the stored flag is 1. */
  function GetUserAuth(b: Bank, username: string): (r: Result<UserAuthInfo, AtmError>)
    ensures r.Err? <==> forall u :: u in b.users ==> u.username != username
    ensures r.Ok? ==> exists u :: (u in b.users && u.username == username
                                   && r.value == UserAuthInfo(u.pinHash, u.failedAttempts, u.locked == 1, u.role))
  {
    match IndexOf(b.users, username)
    case None => Err(UserNotFound)
    case Some(i) =>
      var u := b.users[i];
      assert u in b.users;
      Ok(UserAuthInfo(u.pinHash, u.failedAttempts, u.locked == 1, u.role))
  }

  /** The row after one more failed PIN: the count goes up by one and the
      lock is set from the third failure on, never cleared. */
  function Bumped(u: AtmUser): AtmUser
  {
    var attempts := u.failedAttempts + 1;
    if attempts >= LockThreshold then u.(failedAttempts := attempts, locked := 1)
    else u.(failedAttempts := attempts)
  }

  /** What IncrementFailedAttempts does to the store: the new count and whether it locked. */
  function IncrementStep(b: Bank, username: string): (Result<(int, bool), AtmError>, Bank)
  {
    match IndexOf(b.users, username)
    case None => (Err(UserNotFound), b)
    case Some(i) =>
      var u := Bumped(b.users[i]);
      (Ok((u.failedAttempts, u.failedAttempts >= LockThreshold)), b.(users := b.users[i := u]))
  }

  /** What ResetFailedAttempts does to the store: the count goes to 0 and the lock stays as it is;
      an unknown user is not an error. */
  function ResetStep(b: Bank, username: string): Bank
  {
    match IndexOf(b.users, username)
    case None => b
    case Some(i) => b.(users := b.users[i := b.users[i].(failedAttempts := 0)])
  }

  /** What UnlockAccount does to the store: count and lock both cleared; an unknown user fails. */
  function UnlockStep(b: Bank, username: string): (Result<(), AtmError>, Bank)
  {
    match IndexOf(b.users, username)
    case None => (Err(UserNotFound), b)
    case Some(i) => (Ok(()), b.(users := b.users[i := b.users[i].(failedAttempts := 0, locked := 0)]))
  }

  /** Increment reports the stored count plus one, locks exactly from the
      third failure, and never clears a lock; Reset clears the count and
      keeps the lock; Unlock clears both. */
  lemma {:induction false} AttemptBookkeeping(b: Bank, username: string)
    requires exists u :: u in b.users && u.username == username
    ensures var (r, after) := IncrementStep(b, username);
      var before := GetUserAuth(b, username).value;
      r.Ok? && GetUserAuth(after, username).Ok?
      && r.value.0 == before.failedAttempts + 1
      && GetUserAuth(after, username).value.failedAttempts == before.failedAttempts + 1
      && r.value.1 == (before.failedAttempts + 1 >= LockThreshold)
      && GetUserAuth(after, username).value.locked == (before.locked || r.value.1)
      && GetUserAuth(after, username).value.pinHash == before.pinHash
    ensures var after := ResetStep(b, username);
      GetUserAuth(after, username).Ok? && GetUserAuth(after, username).value.failedAttempts == 0
      && GetUserAuth(after, username).value.locked == GetUserAuth(b, username).value.locked
    ensures var (r, after) := UnlockStep(b, username);
      r.Ok? && GetUserAuth(after, username).Ok?
      && GetUserAuth(after, username).value.failedAttempts == 0 && !GetUserAuth(after, username).value.locked
  {
    var i := IndexOf(b.users, username).value;
    UpdateKeepsIndex(b.users, i, Bumped(b.users[i]));
    UpdateKeepsIndex(b.users, i, b.users[i].(failedAttempts := 0));
    UpdateKeepsIndex(b.users, i, b.users[i].(failedAttempts := 0, locked := 0));
  }

  /** Rewriting the row found for a username, keeping the username, keeps
      where the lookup finds it. */
  lemma UpdateKeepsIndex(users: seq<AtmUser>, i: nat, u: AtmUser)
    requires IndexOf(users, u.username) == Some(i)
    ensures IndexOf(users[i := u], u.username) == Some(i)
  {
    var after := users[i := u];
    var r := IndexOf(after, u.username);
    assert after[i].username == u.username;
    assert forall j :: 0 <= j < i ==> after[j] == users[j];
  }

  /** What CreateUser does to the store: an existing username is refused; otherwise the row gets
      id (number of users) + 1, the hashed PIN, and a zero count and lock.
      `hash` stands for bcrypt. */
  function CreateUserStep(b: Bank, fullName: string, dob: string, pin: string, startingBal: real,
                      username: string, role: string, hash: string -> string): (Result<(), AtmError>, Bank)
  {
    if IndexOf(b.users, username).Some? then (Err(UsernameTaken), b)
    else
      var row := AtmUser(|b.users| + 1, fullName, dob, hash(pin), startingBal, username, role, 0, 0);
      (Ok(()), b.(users := b.users + [row]))
  }

  /** A created user keeps the store valid, has a fresh id, and is found
      under its username with its role. */
  lemma {:induction false} CreateUserCorrect(b: Bank, fullName: string, dob: string, pin: string, startingBal: real,
                                             username: string, role: string, hash: string -> string)
    requires Valid(b)
    ensures var (r, after) := CreateUserStep(b, fullName, dob, pin, startingBal, username, role, hash);
      Valid(after)
      && (r.Err? <==> exists u :: u in b.users && u.username == username)
      && (r.Ok? ==> (forall u :: u in b.users ==> u.id != |b.users| + 1)
                    && FetchUserRole(after, username) == Ok(ToLower(role))
                    && GetUserAuth(after, username) == Ok(UserAuthInfo(hash(pin), 0, false, role)))
  {
    var (r, after) := CreateUserStep(b, fullName, dob, pin, startingBal, username, role, hash);
    if r.Ok? {
      assert IndexOf(after.users, username) == Some(|b.users|) by {
        assert forall j :: 0 <= j < |b.users| ==> after.users[j] == b.users[j];
      }
    } else {
      var i := IndexOf(b.users, username).value;
      assert b.users[i] in b.users;
    }
  }

  /** What DepositBalance does to the store: the user's balance and the machine's both grow by the
      amount, and +amount is logged under the user's id. */
  function DepositStep(b: Bank, username: string, amount: real): (Result<real, AtmError>, Bank)
  {
    match IndexOf(b.users, username)
    case None => (Err(UserNotFound), b)
    case Some(i) =>
      var u := b.users[i];
      var newBalance := u.balance + amount;
      (Ok(newBalance), Bank(b.users[i := u.(balance := newBalance)], b.atmBalance + amount,
                            b.transactions + [Transaction(u.id, amount)]))
  }

  /** What WithdrawBalance does to the store: refused with nothing changed when the balance would
      go below zero; otherwise the mirror image of a deposit. The machine's
      own cash is not checked. */
  function WithdrawStep(b: Bank, username: string, amount: real): (Result<real, AtmError>, Bank)
  {
    match IndexOf(b.users, username)
    case None => (Err(UserNotFound), b)
    case Some(i) =>
      var u := b.users[i];
      var newBalance := u.balance - amount;
      if newBalance < 0.0 then (Err(InsufficientFunds), b)
      else
        (Ok(newBalance), Bank(b.users[i := u.(balance := newBalance)], b.atmBalance - amount,
                              b.transactions + [Transaction(u.id, -amount)]))
  }

  /** The sum of every user's balance. */
  function TotalBalance(users: seq<AtmUser>): real
  {
    if |users| == 0 then 0.0 else TotalBalance(users[..|users| - 1]) + users[|users| - 1].balance
  }

  /** The sum of the amounts logged. */
  function Logged(transactions: seq<Transaction>): real
  {
    if |transactions| == 0 then 0.0 else Logged(transactions[..|transactions| - 1]) + transactions[|transactions| - 1].amount
  }

  /** Changing one balance changes the total by the same amount. */
  lemma {:induction false} TotalBalanceUpdate(users: seq<AtmUser>, i: nat, u: AtmUser)
    requires i < |users|
    ensures TotalBalance(users[i := u]) == TotalBalance(users) - users[i].balance + u.balance
    decreases |users|
  {
    var last := |users| - 1;
    if i < last {
      assert users[i := u][..last] == users[..last][i := u];
      TotalBalanceUpdate(users[..last], i, u);
    } else {
      assert users[i := u][..last] == users[..last];
    }
  }

  lemma LoggedAppend(transactions: seq<Transaction>, t: Transaction)
    ensures Logged(transactions + [t]) == Logged(transactions) + t.amount
  {
    assert (transactions + [t])[..|transactions|] == transactions;
  }

  /** Deposits and withdrawals keep the books: the machine's cash and the
      users' total move by the same amount, and the log records exactly
      that amount; a refused call changes nothing. */
  lemma {:induction false} LedgerBalances(b: Bank, username: string, amount: real)
    ensures var (r, after) := DepositStep(b, username, amount);
      (r.Err? ==> after == b)
      && (r.Ok? ==> after.atmBalance - b.atmBalance == amount
                    && TotalBalance(after.users) - TotalBalance(b.users) == amount
                    && Logged(after.transactions) - Logged(b.transactions) == amount)
    ensures var (r, after) := WithdrawStep(b, username, amount);
      (r.Err? ==> after == b)
      && (r.Ok? ==> after.atmBalance - b.atmBalance == -amount
                    && TotalBalance(after.users) - TotalBalance(b.users) == -amount
                    && Logged(after.transactions) - Logged(b.transactions) == -amount)
  {
    DepositBooks(b, username, amount);
    WithdrawBooks(b, username, amount);
  }

  lemma DepositBooks(b: Bank, username: string, amount: real)
    ensures var (r, after) := DepositStep(b, username, amount);
      (r.Err? ==> after == b)
      && (r.Ok? ==> after.atmBalance - b.atmBalance == amount
                    && TotalBalance(after.users) - TotalBalance(b.users) == amount
                    && Logged(after.transactions) - Logged(b.transactions) == amount)
  {
    if IndexOf(b.users, username).Some? {
      var i := IndexOf(b.users, username).value;
      var u := b.users[i];
      TotalBalanceUpdate(b.users, i, u.(balance := u.balance + amount));
      LoggedAppend(b.transactions, Transaction(u.id, amount));
    }
  }

  lemma WithdrawBooks(b: Bank, username: string, amount: real)
    ensures var (r, after) := WithdrawStep(b, username, amount);
      (r.Err? ==> after == b)
      && (r.Ok? ==> after.atmBalance - b.atmBalance == -amount
                    && TotalBalance(after.users) - TotalBalance(b.users) == -amount
                    && Logged(after.transactions) - Logged(b.transactions) == -amount)
  {
    if IndexOf(b.users, username).Some? {
      var i := IndexOf(b.users, username).value;
      var u := b.users[i];
      TotalBalanceUpdate(b.users, i, u.(balance := u.balance - amount));
      LoggedAppend(b.transactions, Transaction(u.id, -amount));
    }
  }

  /** With unique usernames the lookup finds the one row of that name. */
  lemma FoundIsUnique(b: Bank, u: AtmUser)
    requires Valid(b) && u in b.users
    ensures IndexOf(b.users, u.username).Some? && b.users[IndexOf(b.users, u.username).value] == u
  {
    var k :| 0 <= k < |b.users| && b.users[k] == u;
    var i := IndexOf(b.users, u.username).value;
    assert i == k;
  }

  /** A withdrawal succeeds exactly when the user exists and has at least
      the amount, and never leaves a negative balance. */
  lemma {:induction false} WithdrawNeverOverdraws(b: Bank, username: string, amount: real)
    requires Valid(b)
    ensures var (r, after) := WithdrawStep(b, username, amount);
      (r.Ok? <==> exists u :: u in b.users && u.username == username && u.balance >= amount)
      && (r.Ok? ==> r.value >= 0.0 && GetUserAuth(after, username).Ok?)
      && (r.Err? ==> after == b)
  {
    match IndexOf(b.users, username)
    case None =>
    case Some(i) =>
      var u := b.users[i];
      assert u in b.users;
      forall v | v in b.users && v.username == username ensures v == u {
        FoundIsUnique(b, v);
      }
      if u.balance >= amount {
        UpdateKeepsIndex(b.users, i, u.(balance := u.balance - amount));
        var after := WithdrawStep(b, username, amount).1;
        assert after.users[i] in after.users;
      }
  }

  /** A deposit followed by a withdrawal of the same amount puts every
      balance back and leaves both entries in the log. */
  lemma {:induction false} DepositThenWithdraw(b: Bank, username: string, amount: real)
    requires Valid(b)
    requires exists u :: u in b.users && u.username == username && u.balance >= 0.0
    ensures var (r1, mid) := DepositStep(b, username, amount);
      var (r2, after) := WithdrawStep(mid, username, amount);
      r1.Ok? && r2.Ok? && after.users == b.users && after.atmBalance == b.atmBalance
      && after.transactions == b.transactions + [Transaction(AtmUserId(b, username), amount),
                                                 Transaction(AtmUserId(b, username), -amount)]
  {
    var v :| v in b.users && v.username == username && v.balance >= 0.0;
    FoundIsUnique(b, v);
    var i := IndexOf(b.users, username).value;
    var u := b.users[i];
    var raised := u.(balance := u.balance + amount);
    UpdateKeepsIndex(b.users, i, raised);
    var mid := Bank(b.users[i := raised], b.atmBalance + amount, b.transactions + [Transaction(u.id, amount)]);
    assert DepositStep(b, username, amount) == (Ok(u.balance + amount), mid);
    assert mid.users[i] == raised;
    assert WithdrawStep(mid, username, amount)
           == (Ok(u.balance), Bank(mid.users[i := u], b.atmBalance, mid.transactions + [Transaction(u.id, -amount)]));
    assert mid.users[i := u] == b.users;
  }

  /** Rewriting one row without touching its username or id keeps the
      store valid. */
  lemma RewriteKeepsValid(b: Bank, after: Bank, i: nat, u: AtmUser)
    requires Valid(b) && i < |b.users|
    requires u.username == b.users[i].username && u.id == b.users[i].id
    requires after.users == b.users[i := u]
    ensures Valid(after)
  {
  }

  /** Every change to the store other than creating a user rewrites at most
      the one row found, keeping its username and id, so the store stays
      valid; CreateUserCorrect covers creation. */
  lemma {:induction false} StepsKeepValid(b: Bank, username: string, amount: real)
    requires Valid(b)
    ensures Valid(IncrementStep(b, username).1)
    ensures Valid(ResetStep(b, username))
    ensures Valid(UnlockStep(b, username).1)
    ensures Valid(DepositStep(b, username, amount).1)
    ensures Valid(WithdrawStep(b, username, amount).1)
  {
    if IndexOf(b.users, username).Some? {
      var i := IndexOf(b.users, username).value;
      var u := b.users[i];
      RewriteKeepsValid(b, IncrementStep(b, username).1, i, Bumped(u));
      RewriteKeepsValid(b, ResetStep(b, username), i, u.(failedAttempts := 0));
      RewriteKeepsValid(b, UnlockStep(b, username).1, i, u.(failedAttempts := 0, locked := 0));
      RewriteKeepsValid(b, DepositStep(b, username, amount).1, i, u.(balance := u.balance + amount));
      if u.balance - amount >= 0.0 {
        RewriteKeepsValid(b, WithdrawStep(b, username, amount).1, i, u.(balance := u.balance - amount));
      }
    }
  }

  /** The id of the row found for a username. */
  function AtmUserId(b: Bank, username: string): int
    requires IndexOf(b.users, username).Some?
  {
    b.users[IndexOf(b.users, username).value].id
  }

  /** The SQLite database the ATM works on. */
  class AtmDatabase {
    var users: seq<AtmUser>
    var atmBalance: real
    var transactions: seq<Transaction>

    function State(): Bank
      reads this
    {
      Bank(users, atmBalance, transactions)
    }

    constructor (initial: Bank)
      ensures State() == initial
    {
      users, atmBalance, transactions := initial.users, initial.atmBalance, initial.transactions;
    }

    /** Read the count, add one, and write it back with the lock when it
        reaches the threshold. */
    method IncrementFailedAttempts(username: string) returns (r: Result<(int, bool), AtmError>)
      modifies this
      ensures (r, State()) == IncrementStep(old(State()), username)
    {
      var found := IndexOf(users, username);
      if found.None? {
        return Err(UserNotFound);
      }
      var i := found.value;
      var attempts := users[i].failedAttempts + 1;
      var locked := false;
      if attempts >= LockThreshold {
        locked := true;
        users := users[i := users[i].(failedAttempts := attempts, locked := 1)];
      } else {
        users := users[i := users[i].(failedAttempts := attempts)];
      }
      r := Ok((attempts, locked));
    }

    method ResetFailedAttempts(username: string)
      modifies this
      ensures State() == ResetStep(old(State()), username)
    {
      var found := IndexOf(users, username);
      if found.Some? {
        users := users[found.value := users[found.value].(failedAttempts := 0)];
      }
    }

    method UnlockAccount(username: string) returns (r: Result<(), AtmError>)
      modifies this
      ensures (r, State()) == UnlockStep(old(State()), username)
    {
      var found := IndexOf(users, username);
      if found.None? {
        return Err(UserNotFound);
      }
      users := users[found.value := users[found.value].(failedAttempts := 0, locked := 0)];
      r := Ok(());
    }

    /** GetNextUserID counts the rows before the insert. */
    method CreateUser(fullName: string, dob: string, pin: string, startingBal: real, username: string,
                      role: string, hash: string -> string) returns (r: Result<(), AtmError>)
      modifies this
      ensures (r, State()) == CreateUserStep(old(State()), fullName, dob, pin, startingBal, username, role, hash)
    {
      if IndexOf(users, username).Some? {
        return Err(UsernameTaken);
      }
      var hashedPin := hash(pin);
      var nextId := |users| + 1;
      users := users + [AtmUser(nextId, fullName, dob, hashedPin, startingBal, username, role, 0, 0)];
      r := Ok(());
    }

    /** Update the user's balance, then the machine's, then look up the
        user's id and log the amount. */
    method DepositBalance(username: string, amount: real) returns (r: Result<real, AtmError>)
      modifies this
      ensures (r, State()) == DepositStep(old(State()), username, amount)
    {
      var found := IndexOf(users, username);
      if found.None? {
        return Err(UserNotFound);
      }
      var i := found.value;
      var newBalance := users[i].balance + amount;
      users := users[i := users[i].(balance := newBalance)];
      atmBalance := atmBalance + amount;
      UpdateKeepsIndex(old(users), i, users[i]);
      var userId := users[IndexOf(users, username).value].id;
      transactions := transactions + [Transaction(userId, amount)];
      r := Ok(newBalance);
    }

    /** The balance check comes first; then the same three writes as a
        deposit, with the amount subtracted and logged negated. */
    method WithdrawBalance(username: string, amount: real) returns (r: Result<real, AtmError>)
      modifies this
      ensures (r, State()) == WithdrawStep(old(State()), username, amount)
    {
      var found := IndexOf(users, username);
      if found.None? {
        return Err(UserNotFound);
      }
      var i := found.value;
      var newBalance := users[i].balance - amount;
      if newBalance < 0.0 {
        return Err(InsufficientFunds);
      }
      users := users[i := users[i].(balance := newBalance)];
      atmBalance := atmBalance - amount;
      UpdateKeepsIndex(old(users), i, users[i]);
      var userId := users[IndexOf(users, username).value].id;
      transactions := transactions + [Transaction(userId, -amount)];
      r := Ok(newBalance);
    }
  }
}
