// The guest-management endpoints: a homeowner (or a technician acting for
// one) lists, creates and deletes the guests of that homeowner. Guest
// sessions are refused.
module GuestHandlers {
  import opened Wrappers
  import opened Seqs
  import opened ThermoTables
  import opened ThermoSession
  import opened ThermoApi
  import ThermoAuth

  /** A guest as the listing shows it: no PIN and no hash. */
  datatype GuestView = GuestView(id: int, username: string, role: string)

  /** `SELECT ... FROM users WHERE role='guest' AND homeowner_id = ?`. */
  function GuestsOf(users: seq<User>, homeownerId: int): (r: seq<User>)
    ensures forall u :: u in r <==> u in users && u.role == RoleGuest && u.homeownerId == Some(homeownerId)
  {
    Filter(users, (u: User) => u.role == RoleGuest && u.homeownerId == Some(homeownerId))
  }

  function GuestViews(gs: seq<User>): (vs: seq<GuestView>)
    ensures |vs| == |gs|
    ensures forall k :: 0 <= k < |gs| ==> vs[k] == GuestView(gs[k].id, gs[k].username, gs[k].role)
  {
    if |gs| == 0 then [] else GuestViews(gs[..|gs| - 1]) + [GuestView(gs[|gs| - 1].id, gs[|gs| - 1].username, gs[|gs| - 1].role)]
  }

  /** handleGetGuests: the guests of the caller's homeowner. */
  method ListGuests(ctx: ContextValue, users: UsersRepository) returns (code: int, result: seq<GuestView>)
    ensures SessionFromContext(ctx).Err? ==> code == StatusUnauthorized && result == []
    ensures SessionFromContext(ctx).Ok? && ctx.session.role == RoleGuest ==> code == StatusForbidden && result == []
    ensures SessionFromContext(ctx).Ok? && ctx.session.role != RoleGuest ==>
      code == StatusOK && result == GuestViews(GuestsOf(users.rows, EffectiveHomeowner(ctx.session)))
  {
    result := [];
    var sess := SessionFromContext(ctx);
    if sess.Err? {
      return StatusUnauthorized, [];
    }
    if sess.value.role == RoleGuest {
      return StatusForbidden, [];
    }
    var homeownerId := sess.value.userId;
    if sess.value.role != RoleHomeowner {
      homeownerId := sess.value.homeownerId;
    }
    var guests := GuestsOf(users.rows, homeownerId);
    var i := 0;
    while i < |guests|
      invariant 0 <= i <= |guests|
      invariant result == GuestViews(guests[..i])
    {
      assert guests[..i + 1][..i] == guests[..i];
      result := result + [GuestView(guests[i].id, guests[i].username, guests[i].role)];
      i := i + 1;
    }
    assert guests[..i] == guests;
    code := StatusOK;
  }

  /** handleCreateGuest. `hashed` is the bcrypt hash of the PIN, None when
      hashing failed. The new guest belongs to the caller's homeowner. */
  method CreateGuest(ctx: ContextValue, users: UsersRepository, username: string, pin: string,
                     hashed: Option<string>)
    returns (code: int, id: Option<int>)
    requires users.Valid()
    modifies users
    ensures users.Valid()
    ensures code == StatusCreated <==>
      SessionFromContext(ctx).Ok? && ctx.session.role != RoleGuest && username != "" && pin != ""
      && hashed.Some? && ByUsername(old(users.rows), username).None?
    ensures code == StatusCreated ==>
      id == Some(old(users.nextId))
      && users.rows == old(users.rows) + [User(id.value, username, RoleGuest, None, hashed,
                                               Some(EffectiveHomeowner(ctx.session)))]
    ensures code != StatusCreated ==> id.None? && users.rows == old(users.rows) && users.nextId == old(users.nextId)
    ensures SessionFromContext(ctx).Err? ==> code == StatusUnauthorized
    ensures SessionFromContext(ctx).Ok? && ctx.session.role == RoleGuest ==> code == StatusForbidden
    ensures SessionFromContext(ctx).Ok? && ctx.session.role != RoleGuest && (username == "" || pin == "") ==>
      code == StatusBadRequest
    ensures code == StatusInternalServerError <==>
      SessionFromContext(ctx).Ok? && ctx.session.role != RoleGuest && username != "" && pin != "" && hashed.None?
    ensures code == StatusConflict <==>
      SessionFromContext(ctx).Ok? && ctx.session.role != RoleGuest && username != "" && pin != ""
      && hashed.Some? && ByUsername(old(users.rows), username).Some?
  {
    id := None;
    var sess := SessionFromContext(ctx);
    if sess.Err? {
      return StatusUnauthorized, None;
    }
    if sess.value.role == RoleGuest {
      return StatusForbidden, None;
    }
    var homeownerId := sess.value.userId;
    if sess.value.role != RoleHomeowner {
      homeownerId := sess.value.homeownerId;
    }
    if username == "" || pin == "" {
      return StatusBadRequest, None;
    }
    if hashed.None? {
      return StatusInternalServerError, None;
    }
    var r := users.Create(username, RoleGuest, None, hashed, Some(homeownerId));
    if r.Err? {
      return StatusConflict, None;
    }
    code, id := StatusCreated, Some(r.value);
  }

  /** A guest created this way signs in with its PIN and acts for the
      homeowner it was created for. */
  lemma CreatedGuestCanLogIn(users: seq<User>, id: int, username: string, pin: string, hash: string,
                             homeownerId: int, check: (string, string) -> bool)
    requires ByUsername(users, username).None?
    requires check(hash, pin)
    ensures var g := User(id, username, RoleGuest, None, Some(hash), Some(homeownerId));
      ThermoAuth.GuestDecision(users + [g], username, pin, check) == ThermoAuth.Granted(g, homeownerId)
  {
    ByUsernameAppend(users, User(id, username, RoleGuest, None, Some(hash), Some(homeownerId)), username);
  }

  /** The delete may go ahead: the target is a guest of the caller's
      homeowner. */
  predicate OwnsGuest(users: seq<User>, homeownerId: int, id: int)
  {
    ById(users, id).Some? && ById(users, id).value.role == RoleGuest
    && ById(users, id).value.homeownerId == Some(homeownerId)
  }

  /** handleDeleteGuest. `id` is the path's id, None when it is not an
      integer. */
  method DeleteGuest(ctx: ContextValue, users: UsersRepository, id: Option<int>) returns (code: int)
    requires users.Valid()
    modifies users
    ensures users.Valid()
    ensures code == StatusOK <==>
      SessionFromContext(ctx).Ok? && ctx.session.role != RoleGuest && id.Some? && id.value > 0
      && OwnsGuest(old(users.rows), EffectiveHomeowner(ctx.session), id.value)
    ensures code == StatusOK ==> users.rows == WithoutUser(old(users.rows), id.value) && users.nextId == old(users.nextId)
    ensures code != StatusOK ==> users.rows == old(users.rows) && users.nextId == old(users.nextId)
    ensures SessionFromContext(ctx).Err? ==> code == StatusUnauthorized
    ensures SessionFromContext(ctx).Ok? && ctx.session.role != RoleGuest && (id.None? || id.value <= 0) ==>
      code == StatusBadRequest
    ensures code == StatusNotFound <==>
      SessionFromContext(ctx).Ok? && ctx.session.role != RoleGuest && id.Some? && id.value > 0
      && ById(old(users.rows), id.value).None?
    ensures code == StatusForbidden <==>
      SessionFromContext(ctx).Ok?
      && (ctx.session.role == RoleGuest
          || (id.Some? && id.value > 0 && ById(old(users.rows), id.value).Some?
              && !OwnsGuest(old(users.rows), EffectiveHomeowner(ctx.session), id.value)))
  {
    var sess := SessionFromContext(ctx);
    if sess.Err? {
      return StatusUnauthorized;
    }
    if sess.value.role == RoleGuest {
      return StatusForbidden;
    }
    var homeownerId := sess.value.userId;
    if sess.value.role != RoleHomeowner {
      homeownerId := sess.value.homeownerId;
    }
    if id.None? || id.value <= 0 {
      return StatusBadRequest;
    }
    var guest := ById(users.rows, id.value);
    if guest.None? {
      return StatusNotFound;
    }
    if guest.value.role != RoleGuest || guest.value.homeownerId.None? || guest.value.homeownerId.value != homeownerId {
      return StatusForbidden;
    }
    users.Delete(id.value);
    code := StatusOK;
  }

  /** A deleted guest can no longer sign in: with unique names, nobody else
      answers to its name. */
  lemma DeletedGuestLockedOut(users: seq<User>, nextId: int, id: int, pin: string,
                              check: (string, string) -> bool)
    requires UsersValid(users, nextId)
    requires ById(users, id).Some?
    ensures ThermoAuth.GuestDecision(WithoutUser(users, id), ById(users, id).value.username, pin, check).Refused?
  {
    var u := ById(users, id).value;
    var rest := WithoutUser(users, id);
    forall k | 0 <= k < |rest| ensures rest[k].username != u.username {
      assert rest[k] in users;
      var i :| 0 <= i < |users| && users[i] == rest[k];
      var j :| 0 <= j < |users| && users[j] == u;
      assert i != j;
    }
  }
}
