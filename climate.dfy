// The thermostat's climate tables: sensor readings, which the HVAC handler
// rewrites or adds to, and HVAC events, one per temperature change.
module Climate {
  import opened Wrappers
  import opened Seqs
  import NewestFirst

  /** A row of `sensor_readings`; `recordedAt` is the database's clock when
      the row was written or last rewritten. */
  datatype SensorReading = SensorReading(id: int, homeownerId: int, recordedAt: int,
                                         indoorTemp: real, humidity: real, coPpm: real)

  /** A row of `hvac_events`; the duration column is never filled in. */
  datatype HvacEvent = HvacEvent(id: int, homeownerId: int, occurredAt: int, mode: string, state: string)

  function RecordedAt(r: SensorReading): int { r.recordedAt }
  function ReadingId(r: SensorReading): int { r.id }

  /** `WHERE homeowner_id = ?` on readings. */
  function ReadingOf(homeownerId: int): SensorReading -> bool
  {
    (r: SensorReading) => r.homeownerId == homeownerId
  }

  /** ListRecent: that homeowner's `limit` newest readings. */
  function RecentReadings(rows: seq<SensorReading>, homeownerId: int, limit: nat): seq<SensorReading>
  {
    NewestFirst.Recent(Filter(rows, ReadingOf(homeownerId)), RecordedAt, ReadingId, limit)
  }

  /** GetLatest: the first row of the same query with limit 1; None plays
      the part of `sql.ErrNoRows`. */
  function LatestReading(rows: seq<SensorReading>, homeownerId: int): Option<SensorReading>
  {
    var r := RecentReadings(rows, homeownerId, 1);
    if |r| == 0 then None else Some(r[0])
  }

  /** The latest reading is missing exactly when the homeowner has none, and
      otherwise is one of its readings, recorded no earlier than any other. */
  lemma LatestIsNewest(rows: seq<SensorReading>, homeownerId: int)
    ensures LatestReading(rows, homeownerId).None? <==> forall r :: r in rows ==> r.homeownerId != homeownerId
    ensures LatestReading(rows, homeownerId).Some? ==>
      var l := LatestReading(rows, homeownerId).value;
      l in rows && l.homeownerId == homeownerId
      && forall r :: r in rows && r.homeownerId == homeownerId ==> r.recordedAt <= l.recordedAt
  {
    var mine := Filter(rows, ReadingOf(homeownerId));
    NewestFirst.RecentOrdered(mine, RecordedAt, ReadingId, 1);
    NewestFirst.RecentKeepsNewest(mine, RecordedAt, ReadingId, 1);
    if |mine| > 0 {
      assert mine[0] in mine;
      var top := RecentReadings(rows, homeownerId, 1);
      assert top == NewestFirst.Recent(mine, RecordedAt, ReadingId, 1);
      assert |top| == 1 && top[0] in top;
      forall r | r in rows && r.homeownerId == homeownerId ensures r.recordedAt <= top[0].recordedAt {
        assert ReadingOf(homeownerId)(r);
        assert r in mine;
        if r in top {
          assert r == top[0];
        } else {
          assert RecordedAt(r) <= RecordedAt(top[0]);
        }
      }
    }
  }

  /** UpdateByID: every row with that id takes the new values and the
      current time. */
  function Touch(rows: seq<SensorReading>, id: int, temp: real, humidity: real, coPpm: real, now: int)
    : (r: seq<SensorReading>)
    ensures |r| == |rows|
    ensures forall i :: 0 <= i < |rows| ==>
      r[i] == if rows[i].id == id then rows[i].(recordedAt := now, indoorTemp := temp, humidity := humidity, coPpm := coPpm)
              else rows[i]
  {
    if |rows| == 0 then []
    else
      var last := rows[|rows| - 1];
      var t := if last.id == id then last.(recordedAt := now, indoorTemp := temp, humidity := humidity, coPpm := coPpm)
               else last;
      Touch(rows[..|rows| - 1], id, temp, humidity, coPpm, now) + [t]
  }

  /** Ids are positive, below the next one, and distinct. */
  ghost predicate ReadingsValid(rows: seq<SensorReading>, nextId: int)
  {
    nextId >= 1
    && (forall i :: 0 <= i < |rows| ==> 0 < rows[i].id < nextId)
    && (forall i, j :: 0 <= i < j < |rows| ==> rows[i].id != rows[j].id)
  }

  lemma TouchValid(rows: seq<SensorReading>, nextId: int, id: int, temp: real, humidity: real, coPpm: real, now: int)
    requires ReadingsValid(rows, nextId)
    ensures ReadingsValid(Touch(rows, id, temp, humidity, coPpm, now), nextId)
  {
  }

  class SensorsRepository {
    var rows: seq<SensorReading>
    var nextId: int

    ghost predicate Valid()
      reads this
    {
      ReadingsValid(rows, nextId)
    }

    constructor ()
      ensures rows == [] && nextId == 1 && Valid()
    {
      rows := [];
      nextId := 1;
    }

    /** Insert: the new row is stamped with the current time. */
    method Insert(homeownerId: int, indoorTemp: real, humidity: real, coPpm: real, now: int) returns (id: int)
      requires Valid()
      modifies this
      ensures Valid()
      ensures id == old(nextId) && nextId == old(nextId) + 1
      ensures rows == old(rows) + [SensorReading(id, homeownerId, now, indoorTemp, humidity, coPpm)]
    {
      id := nextId;
      rows := rows + [SensorReading(id, homeownerId, now, indoorTemp, humidity, coPpm)];
      nextId := nextId + 1;
    }

    method UpdateById(id: int, temp: real, humidity: real, coPpm: real, now: int)
      requires Valid()
      modifies this
      ensures Valid()
      ensures rows == Touch(old(rows), id, temp, humidity, coPpm, now) && nextId == old(nextId)
    {
      TouchValid(rows, nextId, id, temp, humidity, coPpm, now);
      rows := Touch(rows, id, temp, humidity, coPpm, now);
    }
  }

  /** `WHERE homeowner_id = ?` on events. */
  function EventOf(homeownerId: int): HvacEvent -> bool
  {
    (e: HvacEvent) => e.homeownerId == homeownerId
  }

  class HvacRepository {
    var rows: seq<HvacEvent>
    var nextId: int

    ghost predicate Valid()
      reads this
    {
      nextId >= 1 && forall e :: e in rows ==> 0 < e.id < nextId
    }

    constructor ()
      ensures rows == [] && nextId == 1 && Valid()
    {
      rows := [];
      nextId := 1;
    }

    method Insert(homeownerId: int, mode: string, state: string, now: int) returns (id: int)
      requires Valid()
      modifies this
      ensures Valid()
      ensures id == old(nextId) && nextId == old(nextId) + 1
      ensures rows == old(rows) + [HvacEvent(id, homeownerId, now, mode, state)]
    {
      id := nextId;
      rows := rows + [HvacEvent(id, homeownerId, now, mode, state)];
      nextId := nextId + 1;
    }

    /** CountByHomeowner. */
    function CountByHomeowner(homeownerId: int): (n: nat)
      reads this
      ensures n == |Filter(rows, EventOf(homeownerId))|
    {
      CountPositiveIff(rows, EventOf(homeownerId));
      Count(rows, EventOf(homeownerId))
    }
  }
}
