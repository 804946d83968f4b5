// Helpers shared by the thermostat backend's handlers: the session a
// handler finds in its request context, the homeowner a session acts for,
// and the ownership and access-window checks.
module ThermoApi {
  import opened Wrappers
  import opened ThermoTables
  import opened ThermoSession
  import TechnicianAccess

  const StatusOK := 200
  const StatusCreated := 201
  const StatusNoContent := 204
  const StatusBadRequest := 400
  const StatusUnauthorized := 401
  const StatusForbidden := 403
  const StatusNotFound := 404
  const StatusMethodNotAllowed := 405
  const StatusConflict := 409
  const StatusGone := 410
  const StatusInternalServerError := 500

  /** What a handler finds under "session" in its gin context: nothing, the
      session the middleware stored, or a value of some other type. */
  datatype ContextValue = Absent | SessionValue(session: Session) | OtherValue

  /** getSessionFromGin: the stored session, or an error when there is none
      or it is not a session. Every handler answers 401 on the error. */
  function SessionFromContext(v: ContextValue): (r: Result<Session, string>)
    ensures r.Ok? <==> v.SessionValue?
    ensures r.Ok? ==> r.value == v.session
    ensures r.Err? ==> (r.error == "no session" <==> v.Absent?)
  {
    match v
    case Absent => Err("no session")
    case SessionValue(s) => Ok(s)
    case OtherValue => Err("bad session")
  }

  /** The homeowner whose data a request touches: the user itself for a
      homeowner, the linked homeowner for a guest or technician. */
  function EffectiveHomeowner(s: Session): (h: int)
    ensures s.role == RoleHomeowner ==> h == s.userId
    ensures s.role != RoleHomeowner ==> h == s.homeownerId
  {
    if s.role == RoleHomeowner then s.userId else s.homeownerId
  }

  /** homeownerIDForSession: a homeowner stands for itself; any other
      session has a homeowner only when its link is not 0. */
  function HomeownerForSession(s: Session): (r: (int, bool))
    ensures r.1 <==> s.role == RoleHomeowner || s.homeownerId != 0
    ensures r.1 ==> r.0 == EffectiveHomeowner(s)
    ensures !r.1 ==> r.0 == 0
  {
    match s.role
    case "homeowner" => (s.userId, true)
    case "technician" => if s.homeownerId == 0 then (0, false) else (s.homeownerId, true)
    case _ => if s.homeownerId == 0 then (0, false) else (s.homeownerId, true)
  }

  /** OwnershipForGuest: a guest's homeowner, when it is a guest and has
      one. */
  function OwnershipForGuest(u: User): (r: (int, bool))
    ensures r.1 <==> u.role == RoleGuest && u.homeownerId.Some?
    ensures r.1 ==> r.0 == u.homeownerId.value
    ensures !r.1 ==> r.0 == 0
  {
    if u.role != RoleGuest || u.homeownerId.None? then (0, false) else (u.homeownerId.value, true)
  }

  /** TechnicianAllowed: IsAllowedNow at the current time. */
  method TechnicianAllowed(repo: TechnicianAccess.TechnicianAccessRepository, homeownerId: int,
                           technicianId: int, now: int)
    returns (allowed: bool)
    requires repo.Valid()
    modifies repo
    ensures repo.Valid()
    ensures repo.rows == TechnicianAccess.Unexpired(old(repo.rows), now) && repo.nextId == old(repo.nextId)
    ensures allowed <==> TechnicianAccess.AllowedAt(old(repo.rows), homeownerId, technicianId, now)
  {
    allowed := repo.IsAllowedNow(homeownerId, technicianId, now);
  }
}
