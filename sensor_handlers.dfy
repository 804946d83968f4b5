// The sensor endpoints: the recent readings (seeded with one sample when
// there are none) and the energy figure derived from the HVAC events.
module SensorHandlers {
  import opened Wrappers
  import opened Seqs
  import opened ThermoTables
  import opened ThermoSession
  import opened ThermoApi
  import opened Climate
  import NewestFirst

  /** How many readings the listing returns. */
  const RecentLimit: nat := 50

  /** The energy charged for each HVAC event, in kilowatts. */
  const KilowattsPerEvent: int := 20

  /** What the sensor suite reports when a reading is taken. */
  datatype Sample = Sample(indoorTemp: real, humidity: real, coPpm: real)

  /** handleGetSensorsRecent. The readings are looked up under the session's
      HomeownerID as stored, not under the effective homeowner; when there
      are none, one sample reading is stored under that same id and the
      list is read again. */
  method GetSensorsRecent(ctx: ContextValue, sensors: SensorsRepository, sample: Sample, now: int)
    returns (code: int, result: seq<SensorReading>)
    requires sensors.Valid()
    modifies sensors
    ensures sensors.Valid()
    ensures SessionFromContext(ctx).Err? ==>
      code == StatusUnauthorized && result == [] && sensors.rows == old(sensors.rows) && sensors.nextId == old(sensors.nextId)
    ensures SessionFromContext(ctx).Ok? ==>
      code == StatusOK && result == RecentReadings(sensors.rows, ctx.session.homeownerId, RecentLimit)
    ensures SessionFromContext(ctx).Ok? && (exists r :: r in old(sensors.rows) && r.homeownerId == ctx.session.homeownerId) ==>
      sensors.rows == old(sensors.rows) && sensors.nextId == old(sensors.nextId)
    ensures SessionFromContext(ctx).Ok? && (forall r :: r in old(sensors.rows) ==> r.homeownerId != ctx.session.homeownerId) ==>
      sensors.rows == old(sensors.rows) + [SensorReading(old(sensors.nextId), ctx.session.homeownerId, now,
                                                         sample.indoorTemp, sample.humidity, sample.coPpm)]
  {
    var sess := SessionFromContext(ctx);
    if sess.Err? {
      return StatusUnauthorized, [];
    }
    var key := sess.value.homeownerId;
    result := RecentReadings(sensors.rows, key, RecentLimit);
    if |result| == 0 {
      LatestIsNewest(sensors.rows, key);
      NewestFirst.RecentOrdered(Filter(sensors.rows, ReadingOf(key)), RecordedAt, ReadingId, 1);
      NewestFirst.RecentOrdered(Filter(sensors.rows, ReadingOf(key)), RecordedAt, ReadingId, RecentLimit);
      var _ := sensors.Insert(key, sample.indoorTemp, sample.humidity, sample.coPpm, now);
      result := RecentReadings(sensors.rows, key, RecentLimit);
    } else {
      NewestFirst.RecentOrdered(Filter(sensors.rows, ReadingOf(key)), RecordedAt, ReadingId, RecentLimit);
      assert result[0] in result;
    }
    code := StatusOK;
  }

  /** When a homeowner had no readings, the listing shows exactly the one
      sample just stored. */
  lemma {:induction false} SeededReadingShown(rows: seq<SensorReading>, r: SensorReading)
    requires forall x :: x in rows ==> x.homeownerId != r.homeownerId
    ensures RecentReadings(rows + [r], r.homeownerId, RecentLimit) == [r]
  {
    FilterAppend(rows, r, ReadingOf(r.homeownerId));
    FilterNone(rows, ReadingOf(r.homeownerId));
    var one := Filter(rows + [r], ReadingOf(r.homeownerId));
    assert one == [r];
    NewestFirst.RecentOrdered(one, RecordedAt, ReadingId, RecentLimit);
    var l := RecentReadings(rows + [r], r.homeownerId, RecentLimit);
    assert |l| == 1 && l[0] in l;
  }

  /** A homeowner's session carries HomeownerID 0, so the listing it gets
      never shows a reading stored under the homeowner's own id, which is
      where the HVAC handler writes. */
  lemma HomeownerListingMissesOwnReadings(rows: seq<SensorReading>, s: Session)
    requires s.role == RoleHomeowner && s.homeownerId == 0 && s.userId != 0
    ensures forall r :: r in RecentReadings(rows, s.homeownerId, RecentLimit) ==> r.homeownerId != EffectiveHomeowner(s)
  {
    NewestFirst.RecentOrdered(Filter(rows, ReadingOf(0)), RecordedAt, ReadingId, RecentLimit);
  }

  /** kilowatts_used: a fixed charge per HVAC event of the homeowner. */
  function Kilowatts(events: seq<HvacEvent>, homeownerId: int): int
  {
    KilowattsPerEvent * Count(events, EventOf(homeownerId))
  }

  /** Every event of a homeowner adds 20 to its figure and nothing to any
      other homeowner's. */
  lemma {:induction false} EventAddsKilowatts(events: seq<HvacEvent>, e: HvacEvent, homeownerId: int)
    ensures Kilowatts(events + [e], homeownerId) ==
      Kilowatts(events, homeownerId) + (if e.homeownerId == homeownerId then KilowattsPerEvent else 0)
  {
    CountAppend(events, e, EventOf(homeownerId));
  }

  /** handleGetEnergyConsumption: homeowners and technicians only, and only
      when the session yields a homeowner. */
  method GetEnergy(ctx: ContextValue, hvac: HvacRepository) returns (code: int, kilowatts: int)
    ensures SessionFromContext(ctx).Err? ==> code == StatusUnauthorized
    ensures code == StatusForbidden <==>
      SessionFromContext(ctx).Ok?
      && (ctx.session.role !in {RoleHomeowner, RoleTechnician} || !HomeownerForSession(ctx.session).1)
    ensures code == StatusOK <==>
      SessionFromContext(ctx).Ok? && ctx.session.role in {RoleHomeowner, RoleTechnician} && HomeownerForSession(ctx.session).1
    ensures code == StatusOK ==>
      kilowatts == Kilowatts(hvac.rows, EffectiveHomeowner(ctx.session))
      && kilowatts == KilowattsPerEvent * |Filter(hvac.rows, EventOf(EffectiveHomeowner(ctx.session)))|
    ensures code != StatusOK ==> kilowatts == 0
  {
    var sess := SessionFromContext(ctx);
    if sess.Err? {
      return StatusUnauthorized, 0;
    }
    if sess.value.role != RoleHomeowner && sess.value.role != RoleTechnician {
      return StatusForbidden, 0;
    }
    var (homeownerId, ok) := HomeownerForSession(sess.value);
    if !ok {
      return StatusForbidden, 0;
    }
    var count := hvac.CountByHomeowner(homeownerId);
    code, kilowatts := StatusOK, count * KilowattsPerEvent;
  }
}
