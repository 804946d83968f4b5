// The homeowner's endpoints for technician access: list the windows it
// has granted, grant one, revoke one, and list the technicians it may grant
// to. Only a homeowner session may use them.
module TechnicianHandlers {
  import opened Wrappers
  import opened Seqs
  import opened ThermoTables
  import opened ThermoSession
  import opened ThermoApi
  import opened TechnicianAccess

  /** A window as the listing shows it. */
  datatype AccessView = AccessView(id: int, technicianId: int, technicianName: string, start: int,
                                   end: int, isActive: bool)

  /** The listing's `is_active`: strictly inside the window. */
  predicate IsActive(a: Access, now: int)
  {
    now > a.start && now < a.end
  }

  /** A window shown active does let its technician sign in, but the two
      checks differ at the ends: at its very first instant a window already
      admits the technician while the listing shows it inactive. */
  lemma ActiveIsAllowed(a: Access, now: int)
    ensures IsActive(a, now) ==> Allows(a, a.homeownerId, a.technicianId, now)
    ensures a.start < a.end ==> Allows(a, a.homeownerId, a.technicianId, a.start) && !IsActive(a, a.start)
    ensures Allows(a, a.homeownerId, a.technicianId, now) && now != a.start && now != a.end ==> IsActive(a, now)
  {
  }

  /** One listed window: the technician's name is empty when that user is
      gone. */
  function ViewOf(a: Access, users: seq<User>, now: int): (v: AccessView)
  {
    var name := match ById(users, a.technicianId) case Some(u) => u.username case None => "";
    AccessView(a.id, a.technicianId, name, a.start, a.end, IsActive(a, now))
  }

  function Views(list: seq<Access>, users: seq<User>, now: int): (vs: seq<AccessView>)
    ensures |vs| == |list|
    ensures forall k :: 0 <= k < |list| ==> vs[k] == ViewOf(list[k], users, now)
  {
    if |list| == 0 then [] else Views(list[..|list| - 1], users, now) + [ViewOf(list[|list| - 1], users, now)]
  }

  /** The caller's windows that the listing shows, after the purge. */
  function Shown(rows: seq<Access>, homeownerId: int, now: int): seq<Access>
  {
    Listing(Unexpired(rows, now), homeownerId)
  }

  /** Every listed window is one of the caller's that has not ended before
      now, none is missed, and the latest start comes first. */
  lemma ShownIsCallersLive(rows: seq<Access>, homeownerId: int, now: int)
    ensures forall a :: a in Shown(rows, homeownerId, now) <==>
      a in rows && a.homeownerId == homeownerId && a.end >= now
    ensures forall i, j :: 0 <= i < j < |Shown(rows, homeownerId, now)| ==>
      Shown(rows, homeownerId, now)[i].start >= Shown(rows, homeownerId, now)[j].start
  {
    ListingCorrect(Unexpired(rows, now), homeownerId);
  }

  /** handleGetTechnicianAccess. */
  method ListAccess(ctx: ContextValue, users: UsersRepository, access: TechnicianAccessRepository, now: int)
    returns (code: int, result: seq<AccessView>)
    requires access.Valid()
    modifies access
    ensures access.Valid()
    ensures SessionFromContext(ctx).Err? ==> code == StatusUnauthorized && result == [] && unchanged(access)
    ensures SessionFromContext(ctx).Ok? && ctx.session.role != RoleHomeowner ==>
      code == StatusForbidden && result == [] && unchanged(access)
    ensures SessionFromContext(ctx).Ok? && ctx.session.role == RoleHomeowner ==>
      code == StatusOK
      && access.rows == Unexpired(old(access.rows), now) && access.nextId == old(access.nextId)
      && result == Views(Shown(old(access.rows), ctx.session.userId, now), users.rows, now)
  {
    result := [];
    var sess := SessionFromContext(ctx);
    if sess.Err? {
      return StatusUnauthorized, [];
    }
    if sess.value.role != RoleHomeowner {
      return StatusForbidden, [];
    }
    access.DeleteExpired(now);
    var list := access.ListForHomeowner(sess.value.userId);
    var i := 0;
    while i < |list|
      invariant 0 <= i <= |list|
      invariant result == Views(list[..i], users.rows, now)
    {
      assert list[..i + 1][..i] == list[..i];
      result := result + [ViewOf(list[i], users.rows, now)];
      i := i + 1;
    }
    assert list[..i] == list;
    code := StatusOK;
  }

  /** handleGrantTechnicianAccess. `start` and `end` are the RFC 3339
      times of the request, None when they do not parse. */
  method GrantAccess(ctx: ContextValue, users: UsersRepository, access: TechnicianAccessRepository,
                     technicianUsername: string, start: Option<int>, end: Option<int>)
    returns (code: int, id: Option<int>)
    requires access.Valid()
    modifies access
    ensures access.Valid()
    ensures code == StatusCreated <==>
      SessionFromContext(ctx).Ok? && ctx.session.role == RoleHomeowner
      && ByUsername(users.rows, technicianUsername).Some?
      && ByUsername(users.rows, technicianUsername).value.role == RoleTechnician
      && start.Some? && end.Some? && end.value > start.value
    ensures code == StatusCreated ==>
      id == Some(old(access.nextId))
      && access.rows == old(access.rows) + [Access(id.value, ctx.session.userId,
                                                   ByUsername(users.rows, technicianUsername).value.id,
                                                   start.value, end.value)]
    ensures code != StatusCreated ==> id.None? && unchanged(access)
    ensures SessionFromContext(ctx).Err? ==> code == StatusUnauthorized
    ensures SessionFromContext(ctx).Ok? && ctx.session.role != RoleHomeowner ==> code == StatusForbidden
    ensures SessionFromContext(ctx).Ok? && ctx.session.role == RoleHomeowner
            && (ByUsername(users.rows, technicianUsername).None?
                || ByUsername(users.rows, technicianUsername).value.role != RoleTechnician) ==>
      code == StatusNotFound
    ensures code == StatusBadRequest <==>
      SessionFromContext(ctx).Ok? && ctx.session.role == RoleHomeowner
      && ByUsername(users.rows, technicianUsername).Some?
      && ByUsername(users.rows, technicianUsername).value.role == RoleTechnician
      && (start.None? || end.None? || end.value <= start.value)
  {
    id := None;
    var sess := SessionFromContext(ctx);
    if sess.Err? {
      return StatusUnauthorized, None;
    }
    if sess.value.role != RoleHomeowner {
      return StatusForbidden, None;
    }
    var tech := ByUsername(users.rows, technicianUsername);
    if tech.None? || tech.value.role != RoleTechnician {
      return StatusNotFound, None;
    }
    if start.None? || end.None? {
      return StatusBadRequest, None;
    }
    if end.value <= start.value {
      return StatusBadRequest, None;
    }
    var newId := access.Grant(sess.value.userId, tech.value.id, start.value, end.value);
    code, id := StatusCreated, Some(newId);
  }

  /** handleRevokeTechnicianAccess. `id` is the path's id, None when it is
      not an integer. Only the owning homeowner may revoke a window. */
  method RevokeAccess(ctx: ContextValue, access: TechnicianAccessRepository, id: Option<int>)
    returns (code: int)
    requires access.Valid()
    modifies access
    ensures access.Valid()
    ensures code == StatusOK <==>
      SessionFromContext(ctx).Ok? && ctx.session.role == RoleHomeowner && id.Some? && id.value > 0
      && AccessById(old(access.rows), id.value).Some?
      && AccessById(old(access.rows), id.value).value.homeownerId == ctx.session.userId
    ensures code == StatusOK ==> access.rows == WithoutAccess(old(access.rows), id.value) && access.nextId == old(access.nextId)
    ensures code != StatusOK ==> unchanged(access)
    ensures SessionFromContext(ctx).Err? ==> code == StatusUnauthorized
    ensures SessionFromContext(ctx).Ok? && ctx.session.role != RoleHomeowner ==> code == StatusForbidden
    ensures SessionFromContext(ctx).Ok? && ctx.session.role == RoleHomeowner && (id.None? || id.value <= 0) ==>
      code == StatusBadRequest
    ensures code == StatusNotFound <==>
      SessionFromContext(ctx).Ok? && ctx.session.role == RoleHomeowner && id.Some? && id.value > 0
      && AccessById(old(access.rows), id.value).None?
  {
    var sess := SessionFromContext(ctx);
    if sess.Err? {
      return StatusUnauthorized;
    }
    if sess.value.role != RoleHomeowner {
      return StatusForbidden;
    }
    if id.None? || id.value <= 0 {
      return StatusBadRequest;
    }
    var a := access.GetById(id.value);
    if a.None? {
      return StatusNotFound;
    }
    if a.value.homeownerId != sess.value.userId {
      return StatusForbidden;
    }
    access.Revoke(id.value);
    code := StatusOK;
  }

  /** A technician as the technician list shows it. */
  datatype TechnicianView = TechnicianView(id: int, username: string, role: string)

  function TechnicianViews(ts: seq<User>): (vs: seq<TechnicianView>)
    ensures |vs| == |ts|
    ensures forall k :: 0 <= k < |ts| ==> vs[k] == TechnicianView(ts[k].id, ts[k].username, ts[k].role)
  {
    if |ts| == 0 then [] else TechnicianViews(ts[..|ts| - 1]) + [TechnicianView(ts[|ts| - 1].id, ts[|ts| - 1].username, ts[|ts| - 1].role)]
  }

  /** `SELECT ... FROM users WHERE role='technician'`. */
  function Technicians(users: seq<User>): (r: seq<User>)
    ensures forall u :: u in r <==> u in users && u.role == RoleTechnician
  {
    Filter(users, (u: User) => u.role == RoleTechnician)
  }

  /** handleListTechnicians: every technician, to a homeowner only. */
  method ListTechnicians(ctx: ContextValue, users: UsersRepository) returns (code: int, result: seq<TechnicianView>)
    ensures SessionFromContext(ctx).Err? ==> code == StatusUnauthorized && result == []
    ensures SessionFromContext(ctx).Ok? && ctx.session.role != RoleHomeowner ==> code == StatusForbidden && result == []
    ensures SessionFromContext(ctx).Ok? && ctx.session.role == RoleHomeowner ==>
      code == StatusOK && result == TechnicianViews(Technicians(users.rows))
  {
    result := [];
    var sess := SessionFromContext(ctx);
    if sess.Err? {
      return StatusUnauthorized, [];
    }
    if sess.value.role != RoleHomeowner {
      return StatusForbidden, [];
    }
    var ts := Technicians(users.rows);
    var i := 0;
    while i < |ts|
      invariant 0 <= i <= |ts|
      invariant result == TechnicianViews(ts[..i])
    {
      assert ts[..i + 1][..i] == ts[..i];
      result := result + [TechnicianView(ts[i].id, ts[i].username, ts[i].role)];
      i := i + 1;
    }
    assert ts[..i] == ts;
    code := StatusOK;
  }
}
