// Comfort profiles: named target temperatures of a homeowner. Anyone acting
// for a homeowner lists them; homeowners and technicians create and delete
// them.
module ProfileHandlers {
  import opened Wrappers
  import opened Seqs
  import opened Text
  import opened TextOrder
  import opened ThermoTables
  import opened ThermoSession
  import opened ThermoApi

  /** A row of `profiles`. */
  datatype Profile = Profile(id: int, homeownerId: int, name: string, targetTemp: real)

  /** The accepted range of a profile's target, both ends included. */
  const MinProfileTemp: real := 40.0
  const MaxProfileTemp: real := 95.0

  function ProfileName(p: Profile): string { p.name }

  /** The filter of `WHERE homeowner_id = ?`. */
  function OwnedBy(homeownerId: int): Profile -> bool
  {
    (p: Profile) => p.homeownerId == homeownerId
  }

  /** ListByHomeowner: that homeowner's profiles, `ORDER BY name`. */
  function ProfilesOf(rows: seq<Profile>, homeownerId: int): seq<Profile>
  {
    SortByText(Filter(rows, OwnedBy(homeownerId)), ProfileName)
  }

  /** The listing holds exactly that homeowner's profiles, each as often as
      stored, in order of name. */
  lemma ProfilesOfCorrect(rows: seq<Profile>, homeownerId: int)
    ensures forall p :: p in ProfilesOf(rows, homeownerId) <==> p in rows && p.homeownerId == homeownerId
    ensures multiset(ProfilesOf(rows, homeownerId)) == multiset(Filter(rows, OwnedBy(homeownerId)))
    ensures SortedByText(ProfilesOf(rows, homeownerId), ProfileName)
  {
    var mine := Filter(rows, OwnedBy(homeownerId));
    SortByTextCorrect(mine, ProfileName);
    forall p ensures p in ProfilesOf(rows, homeownerId) <==> p in mine {
      assert p in ProfilesOf(rows, homeownerId) <==> p in multiset(ProfilesOf(rows, homeownerId));
    }
  }

  /** A new profile shows in its homeowner's listing, and every other
      homeowner's listing stays as it was. */
  lemma {:induction false} CreatedProfileListed(rows: seq<Profile>, p: Profile, other: int)
    ensures p in ProfilesOf(rows + [p], p.homeownerId)
    ensures other != p.homeownerId ==> ProfilesOf(rows + [p], other) == ProfilesOf(rows, other)
  {
    ProfilesOfCorrect(rows + [p], p.homeownerId);
    FilterAppend(rows, p, OwnedBy(other));
    if other != p.homeownerId {
      assert !OwnedBy(other)(p);
      var before := Filter(rows, OwnedBy(other));
      assert before + [] == before;
      assert Filter(rows + [p], OwnedBy(other)) == before;
    }
  }

  /** The rows other than the one with id `id`. */
  function WithoutProfile(rows: seq<Profile>, id: int): (r: seq<Profile>)
    ensures forall p :: p in r <==> p in rows && p.id != id
  {
    Filter(rows, (p: Profile) => p.id != id)
  }

  class ProfilesRepository {
    var rows: seq<Profile>
    var nextId: int

    ghost predicate Valid()
      reads this
    {
      nextId >= 1 && forall p :: p in rows ==> 0 < p.id < nextId
    }

    constructor ()
      ensures rows == [] && nextId == 1 && Valid()
    {
      rows := [];
      nextId := 1;
    }

    method Create(homeownerId: int, name: string, targetTemp: real) returns (id: int)
      requires Valid()
      modifies this
      ensures Valid()
      ensures id == old(nextId) && nextId == old(nextId) + 1
      ensures rows == old(rows) + [Profile(id, homeownerId, name, targetTemp)]
    {
      id := nextId;
      rows := rows + [Profile(id, homeownerId, name, targetTemp)];
      nextId := nextId + 1;
    }

    method Delete(id: int)
      requires Valid()
      modifies this
      ensures Valid()
      ensures rows == WithoutProfile(old(rows), id) && nextId == old(nextId)
    {
      rows := WithoutProfile(rows, id);
    }
  }

  /** handleListProfiles: the profiles of the caller's homeowner; a session
      acting for homeowner 0 has none to see. */
  method ListProfiles(ctx: ContextValue, repo: ProfilesRepository) returns (code: int, result: seq<Profile>)
    ensures SessionFromContext(ctx).Err? ==> code == StatusUnauthorized && result == []
    ensures SessionFromContext(ctx).Ok? && EffectiveHomeowner(ctx.session) == 0 ==> code == StatusForbidden && result == []
    ensures SessionFromContext(ctx).Ok? && EffectiveHomeowner(ctx.session) != 0 ==>
      code == StatusOK && result == ProfilesOf(repo.rows, EffectiveHomeowner(ctx.session))
  {
    var sess := SessionFromContext(ctx);
    if sess.Err? {
      return StatusUnauthorized, [];
    }
    var homeownerId := sess.value.userId;
    if sess.value.role != RoleHomeowner {
      homeownerId := sess.value.homeownerId;
    }
    if homeownerId == 0 {
      return StatusForbidden, [];
    }
    code, result := StatusOK, ProfilesOf(repo.rows, homeownerId);
  }

  /** handleCreateProfile: the name is stored trimmed, and the target must
      lie in [40, 95]. */
  method CreateProfile(ctx: ContextValue, repo: ProfilesRepository, name: string, targetTemp: real)
    returns (code: int, id: Option<int>)
    requires repo.Valid()
    modifies repo
    ensures repo.Valid()
    ensures code == StatusCreated <==>
      SessionFromContext(ctx).Ok? && ctx.session.role != RoleGuest && EffectiveHomeowner(ctx.session) != 0
      && TrimSpace(name) != "" && MinProfileTemp <= targetTemp <= MaxProfileTemp
    ensures code == StatusCreated ==>
      id == Some(old(repo.nextId))
      && repo.rows == old(repo.rows) + [Profile(id.value, EffectiveHomeowner(ctx.session), TrimSpace(name), targetTemp)]
    ensures code != StatusCreated ==> id.None? && repo.rows == old(repo.rows) && repo.nextId == old(repo.nextId)
    ensures SessionFromContext(ctx).Err? ==> code == StatusUnauthorized
    ensures code == StatusForbidden <==>
      SessionFromContext(ctx).Ok? && (ctx.session.role == RoleGuest || EffectiveHomeowner(ctx.session) == 0)
    ensures code == StatusBadRequest <==>
      SessionFromContext(ctx).Ok? && ctx.session.role != RoleGuest && EffectiveHomeowner(ctx.session) != 0
      && (TrimSpace(name) == "" || targetTemp < MinProfileTemp || targetTemp > MaxProfileTemp)
  {
    id := None;
    var sess := SessionFromContext(ctx);
    if sess.Err? {
      return StatusUnauthorized, None;
    }
    if sess.value.role == RoleGuest {
      return StatusForbidden, None;
    }
    var homeownerId := sess.value.userId;
    if sess.value.role != RoleHomeowner {
      homeownerId := sess.value.homeownerId;
    }
    if homeownerId == 0 {
      return StatusForbidden, None;
    }
    var trimmed := TrimSpace(name);
    if trimmed == "" {
      return StatusBadRequest, None;
    }
    if targetTemp < MinProfileTemp || targetTemp > MaxProfileTemp {
      return StatusBadRequest, None;
    }
    var newId := repo.Create(homeownerId, trimmed, targetTemp);
    code, id := StatusCreated, Some(newId);
  }

  /** handleDeleteProfile. There is no ownership check: any session that is
      not a guest deletes the profile with that id, whoever it belongs to. */
  method DeleteProfile(ctx: ContextValue, repo: ProfilesRepository, id: Option<int>) returns (code: int)
    requires repo.Valid()
    modifies repo
    ensures repo.Valid()
    ensures code == StatusOK <==>
      SessionFromContext(ctx).Ok? && ctx.session.role != RoleGuest && id.Some? && id.value > 0
    ensures code == StatusOK ==> repo.rows == WithoutProfile(old(repo.rows), id.value) && repo.nextId == old(repo.nextId)
    ensures code != StatusOK ==> repo.rows == old(repo.rows) && repo.nextId == old(repo.nextId)
    ensures SessionFromContext(ctx).Err? ==> code == StatusUnauthorized
    ensures SessionFromContext(ctx).Ok? && ctx.session.role == RoleGuest ==> code == StatusForbidden
    ensures SessionFromContext(ctx).Ok? && ctx.session.role != RoleGuest && (id.None? || id.value <= 0) ==>
      code == StatusBadRequest
  {
    var sess := SessionFromContext(ctx);
    if sess.Err? {
      return StatusUnauthorized;
    }
    if sess.value.role == RoleGuest {
      return StatusForbidden;
    }
    if id.None? || id.value <= 0 {
      return StatusBadRequest;
    }
    repo.Delete(id.value);
    code := StatusOK;
  }

  /** So a homeowner (or a technician) can delete another homeowner's
      profile: after the delete it is gone from its owner's listing. */
  lemma ForeignProfileDeleted(rows: seq<Profile>, p: Profile)
    requires p in rows
    ensures p !in ProfilesOf(WithoutProfile(rows, p.id), p.homeownerId)
  {
    ProfilesOfCorrect(WithoutProfile(rows, p.id), p.homeownerId);
  }
}
