// The diagnostics endpoints: technicians read a homeowner's recent log
// (seeded with one entry when it is empty) and add entries to it.
module DiagnosticsHandlers {
  import opened Wrappers
  import opened Seqs
  import opened ThermoTables
  import opened ThermoSession
  import opened ThermoApi
  import NewestFirst

  /** A row of `diagnostics_logs`. */
  datatype DiagnosticLog = DiagnosticLog(id: int, homeownerId: int, loggedAt: int, level: string, message: string)

  /** The body of a create request. */
  datatype DiagnosticBody = DiagnosticBody(level: string, message: string)

  const RecentLogLimit: nat := 50
  const SeedLevel: string := "INFO"
  const SeedMessage: string := "System created successfully."

  /** The accepted levels. */
  predicate KnownLevel(level: string)
  {
    level == "INFO" || level == "WARN" || level == "ERROR"
  }

  function LoggedAt(d: DiagnosticLog): int { d.loggedAt }
  function LogId(d: DiagnosticLog): int { d.id }

  function LogOf(homeownerId: int): DiagnosticLog -> bool
  {
    (d: DiagnosticLog) => d.homeownerId == homeownerId
  }

  /** ListRecent for one homeowner: its 50 newest entries. */
  function RecentLogs(rows: seq<DiagnosticLog>, homeownerId: int): seq<DiagnosticLog>
  {
    NewestFirst.Recent(Filter(rows, LogOf(homeownerId)), LoggedAt, LogId, RecentLogLimit)
  }

  /** The listing is empty exactly when the homeowner has no entries, and
      holds only that homeowner's entries. */
  lemma RecentLogsOfHomeowner(rows: seq<DiagnosticLog>, homeownerId: int)
    ensures |RecentLogs(rows, homeownerId)| == 0 <==> forall d :: d in rows ==> d.homeownerId != homeownerId
    ensures forall d :: d in RecentLogs(rows, homeownerId) ==> d in rows && d.homeownerId == homeownerId
  {
    var mine := Filter(rows, LogOf(homeownerId));
    NewestFirst.RecentOrdered(mine, LoggedAt, LogId, RecentLogLimit);
    if |mine| > 0 {
      assert mine[0] in mine;
    }
  }

  class DiagnosticsRepository {
    var rows: seq<DiagnosticLog>
    var nextId: int

    ghost predicate Valid()
      reads this
    {
      nextId >= 1 && forall d :: d in rows ==> 0 < d.id < nextId
    }

    constructor ()
      ensures rows == [] && nextId == 1 && Valid()
    {
      rows := [];
      nextId := 1;
    }

    /** Insert: the entry is stamped with the database's current time. */
    method Insert(homeownerId: int, level: string, message: string, now: int) returns (id: int)
      requires Valid()
      modifies this
      ensures Valid()
      ensures id == old(nextId) && nextId == old(nextId) + 1
      ensures rows == old(rows) + [DiagnosticLog(id, homeownerId, now, level, message)]
    {
      id := nextId;
      rows := rows + [DiagnosticLog(id, homeownerId, now, level, message)];
      nextId := nextId + 1;
    }
  }

  /** handleGetDiagnostics: guest and homeowner sessions are refused; any
      other session reads the log of its HomeownerID, which first gets the
      seed entry when it is empty. */
  method GetDiagnostics(ctx: ContextValue, repo: DiagnosticsRepository, now: int)
    returns (code: int, logs: seq<DiagnosticLog>)
    requires repo.Valid()
    modifies repo
    ensures repo.Valid()
    ensures SessionFromContext(ctx).Err? ==> code == StatusUnauthorized
    ensures code == StatusForbidden <==>
      SessionFromContext(ctx).Ok? && (ctx.session.role == RoleGuest || ctx.session.role == RoleHomeowner)
    ensures code != StatusOK ==> logs == [] && repo.rows == old(repo.rows) && repo.nextId == old(repo.nextId)
    ensures code == StatusOK <==>
      SessionFromContext(ctx).Ok? && ctx.session.role != RoleGuest && ctx.session.role != RoleHomeowner
    ensures code == StatusOK ==> logs == RecentLogs(repo.rows, ctx.session.homeownerId)
    ensures code == StatusOK && (exists d :: d in old(repo.rows) && d.homeownerId == ctx.session.homeownerId) ==>
      repo.rows == old(repo.rows) && repo.nextId == old(repo.nextId)
    ensures code == StatusOK && (forall d :: d in old(repo.rows) ==> d.homeownerId != ctx.session.homeownerId) ==>
      repo.rows == old(repo.rows) + [DiagnosticLog(old(repo.nextId), ctx.session.homeownerId, now, SeedLevel, SeedMessage)]
  {
    var sess := SessionFromContext(ctx);
    if sess.Err? {
      return StatusUnauthorized, [];
    }
    if sess.value.role == RoleGuest || sess.value.role == RoleHomeowner {
      return StatusForbidden, [];
    }
    var homeownerId := sess.value.homeownerId;
    RecentLogsOfHomeowner(repo.rows, homeownerId);
    if |RecentLogs(repo.rows, homeownerId)| == 0 {
      var _ := repo.Insert(homeownerId, SeedLevel, SeedMessage, now);
    }
    code, logs := StatusOK, RecentLogs(repo.rows, homeownerId);
  }

  /** A homeowner whose log was empty reads back exactly the seed entry. */
  lemma {:induction false} SeededLogShown(rows: seq<DiagnosticLog>, seed: DiagnosticLog)
    requires forall d :: d in rows ==> d.homeownerId != seed.homeownerId
    ensures RecentLogs(rows + [seed], seed.homeownerId) == [seed]
  {
    FilterAppend(rows, seed, LogOf(seed.homeownerId));
    FilterNone(rows, LogOf(seed.homeownerId));
    var one := Filter(rows + [seed], LogOf(seed.homeownerId));
    assert one == [seed];
    NewestFirst.RecentOrdered(one, LoggedAt, LogId, RecentLogLimit);
    var l := RecentLogs(rows + [seed], seed.homeownerId);
    assert |l| == 1 && l[0] in l;
  }

  /** handleCreateDiagnostic: technicians acting for a homeowner only; the
      level and message must be present and the level known. `body` is None
      when the JSON does not decode. */
  method CreateDiagnostic(ctx: ContextValue, repo: DiagnosticsRepository, body: Option<DiagnosticBody>, now: int)
    returns (code: int, id: Option<int>)
    requires repo.Valid()
    modifies repo
    ensures repo.Valid()
    ensures SessionFromContext(ctx).Err? ==> code == StatusUnauthorized
    ensures code == StatusForbidden <==>
      SessionFromContext(ctx).Ok? && (ctx.session.role != RoleTechnician || ctx.session.homeownerId == 0)
    ensures code == StatusBadRequest <==>
      SessionFromContext(ctx).Ok? && ctx.session.role == RoleTechnician && ctx.session.homeownerId != 0
      && (body.None? || body.value.level == "" || body.value.message == "" || !KnownLevel(body.value.level))
    ensures code == StatusCreated <==>
      SessionFromContext(ctx).Ok? && ctx.session.role == RoleTechnician && ctx.session.homeownerId != 0
      && body.Some? && body.value.message != "" && KnownLevel(body.value.level)
    ensures code == StatusCreated ==>
      id == Some(old(repo.nextId))
      && repo.rows == old(repo.rows) + [DiagnosticLog(id.value, ctx.session.homeownerId, now, body.value.level, body.value.message)]
    ensures code != StatusCreated ==> id.None? && repo.rows == old(repo.rows) && repo.nextId == old(repo.nextId)
  {
    var sess := SessionFromContext(ctx);
    if sess.Err? {
      return StatusUnauthorized, None;
    }
    if sess.value.role != RoleTechnician {
      return StatusForbidden, None;
    }
    var homeownerId := sess.value.homeownerId;
    if homeownerId == 0 {
      return StatusForbidden, None;
    }
    if body.None? {
      return StatusBadRequest, None;
    }
    if body.value.level == "" || body.value.message == "" {
      return StatusBadRequest, None;
    }
    if !KnownLevel(body.value.level) {
      return StatusBadRequest, None;
    }
    var newId := repo.Insert(homeownerId, body.value.level, body.value.message, now);
    code, id := StatusCreated, Some(newId);
  }

  /** A new entry, later than every earlier one of its homeowner, heads that
      homeowner's listing. */
  lemma {:induction false} CreatedLogListedFirst(rows: seq<DiagnosticLog>, d: DiagnosticLog)
    requires forall e :: e in rows && e.homeownerId == d.homeownerId ==> e.loggedAt < d.loggedAt
    ensures |RecentLogs(rows + [d], d.homeownerId)| > 0
    ensures RecentLogs(rows + [d], d.homeownerId)[0] == d
  {
    var mine := Filter(rows + [d], LogOf(d.homeownerId));
    FilterAppend(rows, d, LogOf(d.homeownerId));
    assert d in mine;
    NewestFirst.RecentOrdered(mine, LoggedAt, LogId, RecentLogLimit);
    NewestFirst.RecentKeepsNewest(mine, LoggedAt, LogId, RecentLogLimit);
    var l := RecentLogs(rows + [d], d.homeownerId);
    assert l[0] in l;
    assert LoggedAt(d) <= LoggedAt(l[0]) by {
      if d in l {
        var k :| 0 <= k < |l| && l[k] == d;
      }
    }
  }
}
