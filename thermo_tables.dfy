// The thermostat backend's users table and login-attempt log, held in
// memory. Rows are kept in insertion order and ids come from a counter, as
// SQLite's autoincrement gives them.
module ThermoTables {
  import opened Wrappers

  const RoleHomeowner: string := "homeowner"
  const RoleGuest: string := "guest"
  const RoleTechnician: string := "technician"

  /** A row of `users`. The nullable columns are options: a homeowner or
      technician has a password hash, a guest a PIN hash and the homeowner
      it belongs to. */
  datatype User = User(id: int, username: string, role: string, passwordHash: Option<string>,
                       pin: Option<string>, homeownerId: Option<int>)

  /** `SELECT ... FROM users WHERE username = ?`. */
  function ByUsername(users: seq<User>, username: string): (r: Option<User>)
    ensures r.Some? ==> r.value in users && r.value.username == username
    ensures r.None? <==> forall k :: 0 <= k < |users| ==> users[k].username != username
  {
    if |users| == 0 then None
    else if users[0].username == username then Some(users[0])
    else ByUsername(users[1..], username)
  }

  /** A row appended under a name no earlier row has is the one found by
      that name, and other names find what they found before. */
  lemma {:induction false} ByUsernameAppend(users: seq<User>, u: User, name: string)
    requires ByUsername(users, u.username).None?
    ensures ByUsername(users + [u], name) == if name == u.username then Some(u) else ByUsername(users, name)
  {
    if |users| > 0 {
      assert (users + [u])[1..] == users[1..] + [u];
      ByUsernameAppend(users[1..], u, name);
    }
  }

  /** `SELECT ... FROM users WHERE id = ?`. */
  function ById(users: seq<User>, id: int): (r: Option<User>)
    ensures r.Some? ==> r.value in users && r.value.id == id
    ensures r.None? <==> forall k :: 0 <= k < |users| ==> users[k].id != id
  {
    if |users| == 0 then None
    else if users[0].id == id then Some(users[0])
    else ById(users[1..], id)
  }

  /** Looking a row's id up finds that row when no earlier row has the same
      id. */
  lemma {:induction false} ByIdOfRow(users: seq<User>, k: int)
    requires 0 <= k < |users|
    requires forall j :: 0 <= j < k ==> users[j].id != users[k].id
    ensures ById(users, users[k].id) == Some(users[k])
  {
    if k > 0 {
      ByIdOfRow(users[1..], k - 1);
    }
  }

  /** User names are unique and ids are below the counter and distinct. */
  ghost predicate UsersValid(users: seq<User>, nextId: int)
  {
    (forall i, j :: 0 <= i < j < |users| ==> users[i].username != users[j].username && users[i].id != users[j].id)
    && (forall k :: 0 <= k < |users| ==> 0 < users[k].id < nextId)
    && nextId >= 1
  }

  /** One call of logLoginAttempt: who tried, as what, and whether it
      worked. */
  datatype LoginAttempt = LoginAttempt(username: string, role: string, success: bool)

  /** The users table. */
  class UsersRepository {
    var rows: seq<User>
    var nextId: int

    ghost predicate Valid()
      reads this
    {
      UsersValid(rows, nextId)
    }

    constructor ()
      ensures rows == [] && nextId == 1 && Valid()
    {
      rows := [];
      nextId := 1;
    }

    /** Create: the username column is unique, so a taken name is refused
        and nothing changes; otherwise the row is stored under the next id,
        which is returned. */
    method Create(username: string, role: string, passwordHash: Option<string>, pin: Option<string>,
                  homeownerId: Option<int>)
      returns (r: Result<int, string>)
      requires Valid()
      modifies this
      ensures Valid()
      ensures ByUsername(old(rows), username).Some? <==> r.Err?
      ensures r.Err? ==> rows == old(rows) && nextId == old(nextId)
      ensures r.Ok? ==>
        r.value == old(nextId) && nextId == old(nextId) + 1
        && rows == old(rows) + [User(r.value, username, role, passwordHash, pin, homeownerId)]
    {
      if ByUsername(rows, username).Some? {
        return Err("UNIQUE constraint failed: users.username");
      }
      var u := User(nextId, username, role, passwordHash, pin, homeownerId);
      rows := rows + [u];
      r := Ok(nextId);
      nextId := nextId + 1;
    }

    /** Delete removes the row with that id, if any. */
    method Delete(id: int)
      requires Valid()
      modifies this
      ensures Valid()
      ensures rows == WithoutUser(old(rows), id) && nextId == old(nextId)
    {
      WithoutUserValid(rows, id, nextId);
      rows := WithoutUser(rows, id);
    }
  }

  /** The rows other than the one with id `id`. */
  function WithoutUser(users: seq<User>, id: int): (r: seq<User>)
    ensures forall u :: u in r <==> u in users && u.id != id
  {
    if |users| == 0 then []
    else if users[0].id == id then WithoutUser(users[1..], id)
    else [users[0]] + WithoutUser(users[1..], id)
  }

  /** Deleting rows keeps the table's uniqueness and id bounds. */
  lemma {:induction false} WithoutUserValid(users: seq<User>, id: int, nextId: int)
    requires UsersValid(users, nextId)
    ensures UsersValid(WithoutUser(users, id), nextId)
  {
    if |users| > 0 {
      WithoutUserValid(users[1..], id, nextId);
      var rest := WithoutUser(users[1..], id);
      forall k | 0 <= k < |rest|
        ensures rest[k].username != users[0].username && rest[k].id != users[0].id
      {
        assert rest[k] in users[1..];
        var j :| 0 <= j < |users[1..]| && users[1..][j] == rest[k];
        assert users[j + 1] == rest[k];
      }
    }
  }

  /** The login-attempt log: one entry per call of logLoginAttempt. */
  class AttemptLog {
    var attempts: seq<LoginAttempt>

    constructor ()
      ensures attempts == []
    {
      attempts := [];
    }

    /** logLoginAttempt records the attempt; a failure to store it is
        swallowed. */
    method Log(username: string, role: string, success: bool)
      modifies this
      ensures attempts == old(attempts) + [LoginAttempt(username, role, success)]
    {
      attempts := attempts + [LoginAttempt(username, role, success)];
    }
  }
}
