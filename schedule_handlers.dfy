// Schedules: a named start time and target temperature. Every session
// reads every schedule; homeowners and technicians create and delete them.
module ScheduleHandlers {
  import opened Wrappers
  import opened Seqs
  import opened TextOrder
  import opened ThermoTables
  import opened ThermoSession
  import opened ThermoApi

  /** A row of `schedules`; the start time is kept as the text sent. */
  datatype Schedule = Schedule(id: int, homeownerId: int, name: string, startTime: string, targetTemp: real)

  /** The decoded request body. */
  datatype ScheduleBody = ScheduleBody(name: string, startTime: string, targetTemp: real)

  /** Gin's `binding:"required"`: every field must differ from its zero
      value, so a target of 0 is refused like a missing one. */
  predicate RequiredPresent(b: ScheduleBody)
  {
    b.name != "" && b.startTime != "" && b.targetTemp != 0.0
  }

  function StartTime(s: Schedule): string { s.startTime }

  /** ListAll: every schedule of every homeowner, `ORDER BY start_time`. */
  function AllSchedules(rows: seq<Schedule>): seq<Schedule>
  {
    SortByText(rows, StartTime)
  }

  /** The listing is the whole table, in order of start time. */
  lemma AllSchedulesCorrect(rows: seq<Schedule>)
    ensures multiset(AllSchedules(rows)) == multiset(rows)
    ensures forall s :: s in AllSchedules(rows) <==> s in rows
    ensures SortedByText(AllSchedules(rows), StartTime)
  {
    SortByTextCorrect(rows, StartTime);
    forall s ensures s in AllSchedules(rows) <==> s in rows {
      assert s in AllSchedules(rows) <==> s in multiset(AllSchedules(rows));
    }
  }

  function WithoutSchedule(rows: seq<Schedule>, id: int): (r: seq<Schedule>)
    ensures forall s :: s in r <==> s in rows && s.id != id
  {
    Filter(rows, (s: Schedule) => s.id != id)
  }

  class SchedulesRepository {
    var rows: seq<Schedule>
    var nextId: int

    ghost predicate Valid()
      reads this
    {
      nextId >= 1 && forall s :: s in rows ==> 0 < s.id < nextId
    }

    constructor ()
      ensures rows == [] && nextId == 1 && Valid()
    {
      rows := [];
      nextId := 1;
    }

    method Create(homeownerId: int, name: string, startTime: string, targetTemp: real) returns (id: int)
      requires Valid()
      modifies this
      ensures Valid()
      ensures id == old(nextId) && nextId == old(nextId) + 1
      ensures rows == old(rows) + [Schedule(id, homeownerId, name, startTime, targetTemp)]
    {
      id := nextId;
      rows := rows + [Schedule(id, homeownerId, name, startTime, targetTemp)];
      nextId := nextId + 1;
    }

    method Delete(id: int)
      requires Valid()
      modifies this
      ensures Valid()
      ensures rows == WithoutSchedule(old(rows), id) && nextId == old(nextId)
    {
      rows := WithoutSchedule(rows, id);
    }
  }

  /** handleGetSchedules: any session, guests included, sees all of them. */
  method ListSchedules(ctx: ContextValue, repo: SchedulesRepository) returns (code: int, result: seq<Schedule>)
    ensures SessionFromContext(ctx).Err? ==> code == StatusUnauthorized && result == []
    ensures SessionFromContext(ctx).Ok? ==> code == StatusOK && result == AllSchedules(repo.rows)
  {
    var sess := SessionFromContext(ctx);
    if sess.Err? {
      return StatusUnauthorized, [];
    }
    code, result := StatusOK, AllSchedules(repo.rows);
  }

  /** A schedule one homeowner creates is in the listing every other
      session gets, another homeowner's included. */
  lemma {:induction false} ScheduleVisibleToAll(rows: seq<Schedule>, s: Schedule)
    ensures s in AllSchedules(rows + [s])
  {
    AllSchedulesCorrect(rows + [s]);
  }

  /** handleCreateSchedule. `body` is None when the JSON does not decode.
      The schedule is stored under the caller's homeowner; success is 200. */
  method CreateSchedule(ctx: ContextValue, repo: SchedulesRepository, body: Option<ScheduleBody>)
    returns (code: int, id: Option<int>)
    requires repo.Valid()
    modifies repo
    ensures repo.Valid()
    ensures code == StatusOK <==>
      SessionFromContext(ctx).Ok? && ctx.session.role != RoleGuest && body.Some? && RequiredPresent(body.value)
    ensures code == StatusOK ==>
      id == Some(old(repo.nextId))
      && repo.rows == old(repo.rows) + [Schedule(id.value, EffectiveHomeowner(ctx.session), body.value.name,
                                                 body.value.startTime, body.value.targetTemp)]
    ensures code != StatusOK ==> id.None? && repo.rows == old(repo.rows) && repo.nextId == old(repo.nextId)
    ensures SessionFromContext(ctx).Err? ==> code == StatusUnauthorized
    ensures SessionFromContext(ctx).Ok? && ctx.session.role == RoleGuest ==> code == StatusForbidden
    ensures SessionFromContext(ctx).Ok? && ctx.session.role != RoleGuest && (body.None? || !RequiredPresent(body.value)) ==>
      code == StatusBadRequest
  {
    id := None;
    var sess := SessionFromContext(ctx);
    if sess.Err? {
      return StatusUnauthorized, None;
    }
    if sess.value.role == RoleGuest {
      return StatusForbidden, None;
    }
    var homeownerId := sess.value.userId;
    if sess.value.role != RoleHomeowner {
      homeownerId := sess.value.homeownerId;
    }
    if body.None? || !RequiredPresent(body.value) {
      return StatusBadRequest, None;
    }
    var newId := repo.Create(homeownerId, body.value.name, body.value.startTime, body.value.targetTemp);
    code, id := StatusOK, Some(newId);
  }

  /** handleDeleteSchedule. There is no ownership check. */
  method DeleteSchedule(ctx: ContextValue, repo: SchedulesRepository, id: Option<int>) returns (code: int)
    requires repo.Valid()
    modifies repo
    ensures repo.Valid()
    ensures code == StatusOK <==>
      SessionFromContext(ctx).Ok? && ctx.session.role != RoleGuest && id.Some? && id.value > 0
    ensures code == StatusOK ==> repo.rows == WithoutSchedule(old(repo.rows), id.value) && repo.nextId == old(repo.nextId)
    ensures code != StatusOK ==> repo.rows == old(repo.rows) && repo.nextId == old(repo.nextId)
    ensures SessionFromContext(ctx).Err? ==> code == StatusUnauthorized
    ensures SessionFromContext(ctx).Ok? && ctx.session.role == RoleGuest ==> code == StatusForbidden
    ensures SessionFromContext(ctx).Ok? && ctx.session.role != RoleGuest && (id.None? || id.value <= 0) ==>
      code == StatusBadRequest
  {
    var sess := SessionFromContext(ctx);
    if sess.Err? {
      return StatusUnauthorized;
    }
    if sess.value.role == RoleGuest {
      return StatusForbidden;
    }
    if id.None? || id.value <= 0 {
      return StatusBadRequest;
    }
    repo.Delete(id.value);
    code := StatusOK;
  }
}
