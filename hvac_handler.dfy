// handleHVACState: GET reads the mode and temperatures from the key/value
// state table; POST sets a new target, moves the latest sensor reading to
// it, chooses the HVAC mode and logs an event.
module HvacHandler {
  import opened Wrappers
  import opened ThermoTables
  import opened ThermoSession
  import opened ThermoApi
  import opened SystemState
  import opened Climate

  const ModeKey: string := "hvac_mode"
  const TargetKey: string := "target_temp"
  const CurrentKey: string := "current_temp"

  const DefaultMode: string := "off"
  const DefaultTarget: real := 72.0
  const ModeCool: string := "cool"
  const ModeHeat: string := "heat"
  const EventStateOn: string := "on"

  const MethodGet: string := "GET"
  const MethodPost: string := "POST"

  /** The JSON both GET and POST answer with. */
  datatype HvacView = HvacView(mode: string, targetTemp: real, currentTemp: real)

  /** `fmt.Sscanf(text, "%f", &v)`: the number scanned, or `v`'s earlier
      value when nothing scans. `parse` stands for the scanner. */
  function Scan(text: string, parse: string -> Option<real>, earlier: real): real
  {
    if parse(text).Some? then parse(text).value else earlier
  }

  /** The GET answer. A missing or empty mode reads as "off", a missing
      target as 72, and a missing current temperature as the homeowner's
      latest reading, or the target when there is none. */
  function HvacGet(values: map<string, string>, readings: seq<SensorReading>, homeownerId: int,
                   parse: string -> Option<real>): (v: HvacView)
    ensures v.mode != ""
  {
    var mode := if ValueOf(values, ModeKey).0 == "" then DefaultMode else ValueOf(values, ModeKey).0;
    var targetText := ValueOf(values, TargetKey).0;
    var target := if targetText != "" then Scan(targetText, parse, DefaultTarget) else DefaultTarget;
    var currentText := ValueOf(values, CurrentKey).0;
    var current :=
      if currentText != "" then Scan(currentText, parse, target)
      else if LatestReading(readings, homeownerId).Some? then LatestReading(readings, homeownerId).value.indoorTemp
      else target;
    HvacView(mode, target, current)
  }

  /** On a fresh system every homeowner sees "off" at 72 degrees. */
  lemma GetDefaults(homeownerId: int, parse: string -> Option<real>)
    ensures HvacGet(map[], [], homeownerId, parse) == HvacView(DefaultMode, DefaultTarget, DefaultTarget)
  {
    LatestIsNewest([], homeownerId);
  }

  /** With no stored current temperature, GET reports the newest reading
      of the homeowner. */
  lemma GetReportsNewestReading(values: map<string, string>, readings: seq<SensorReading>, homeownerId: int,
                                parse: string -> Option<real>)
    requires ValueOf(values, CurrentKey).0 == ""
    requires exists r :: r in readings && r.homeownerId == homeownerId
    ensures exists l :: (l in readings && l.homeownerId == homeownerId
                         && (forall r :: r in readings && r.homeownerId == homeownerId ==> r.recordedAt <= l.recordedAt)
                         && HvacGet(values, readings, homeownerId, parse).currentTemp == l.indoorTemp)
  {
    LatestIsNewest(readings, homeownerId);
    var l := LatestReading(readings, homeownerId).value;
    assert l in readings && l.homeownerId == homeownerId;
  }

  /** The POST mode rule: cool down, heat up, or keep a stored non-empty
      mode when the target equals the current temperature. */
  function ChooseMode(target: real, current: real, stored: (string, bool)): (m: string)
    ensures m != ""
    ensures target < current ==> m == ModeCool
    ensures target > current ==> m == ModeHeat
    ensures target == current && stored.1 && stored.0 != "" ==> m == stored.0
    ensures target == current && !(stored.1 && stored.0 != "") ==> m == DefaultMode
  {
    if target < current then ModeCool
    else if target > current then ModeHeat
    else if stored.1 && stored.0 != "" then stored.0
    else DefaultMode
  }

  /** The temperature POST compares the target against: the latest
      reading's, or the target itself when there is no reading. */
  function CurrentBeforePost(readings: seq<SensorReading>, homeownerId: int, target: real): real
  {
    if LatestReading(readings, homeownerId).Some? then LatestReading(readings, homeownerId).value.indoorTemp else target
  }

  /** The readings after a POST: the latest one is rewritten at the target
      (keeping its humidity and CO), or, when there is none, one is added
      at the target with zero humidity and CO. */
  function PostReadings(readings: seq<SensorReading>, homeownerId: int, target: real, now: int, nextId: int)
    : seq<SensorReading>
  {
    match LatestReading(readings, homeownerId)
    case Some(l) => Touch(readings, l.id, target, l.humidity, l.coPpm, now)
    case None => readings + [SensorReading(nextId, homeownerId, now, target, 0.0, 0.0)]
  }

  /** The mode a POST chooses. */
  function PostMode(values: map<string, string>, readings: seq<SensorReading>, homeownerId: int, target: real): string
  {
    ChooseMode(target, CurrentBeforePost(readings, homeownerId, target), ValueOf(values, ModeKey))
  }

  /** The state table after a POST: target and current both hold the
      formatted target, and the mode key the chosen mode. */
  function PostValues(values: map<string, string>, target: real, mode: string, format: real -> string)
    : map<string, string>
  {
    values[TargetKey := format(target)][CurrentKey := format(target)][ModeKey := mode]
  }

  /** After a POST the homeowner's latest reading is at the target, as long
      as every earlier reading of that homeowner is older than the POST. */
  lemma PostedReadingIsLatest(readings: seq<SensorReading>, homeownerId: int, target: real, now: int, nextId: int)
    requires forall r :: r in readings && r.homeownerId == homeownerId ==> r.recordedAt < now
    ensures LatestReading(PostReadings(readings, homeownerId, target, now, nextId), homeownerId).Some?
    ensures LatestReading(PostReadings(readings, homeownerId, target, now, nextId), homeownerId).value.indoorTemp == target
  {
    var after := PostReadings(readings, homeownerId, target, now, nextId);
    LatestIsNewest(readings, homeownerId);
    LatestIsNewest(after, homeownerId);
    match LatestReading(readings, homeownerId)
    case None =>
      var added := SensorReading(nextId, homeownerId, now, target, 0.0, 0.0);
      assert added in after;
    case Some(l) =>
      var i :| 0 <= i < |readings| && readings[i] == l;
      assert after[i] in after && after[i].recordedAt == now;
      var z := LatestReading(after, homeownerId).value;
      var k :| 0 <= k < |after| && after[k] == z;
  }

  /** GET right after a POST of `target` that chose `mode` reports that mode
      and `target` for both temperatures, for every homeowner alike: the
      state table is shared. */
  lemma GetAfterPost(values: map<string, string>, target: real, mode: string, format: real -> string,
                     parse: string -> Option<real>, readings: seq<SensorReading>, anyHomeowner: int)
    requires format(target) != "" && parse(format(target)) == Some(target)
    requires mode != ""
    ensures HvacGet(PostValues(values, target, mode, format), readings, anyHomeowner, parse) == HvacView(mode, target, target)
  {
  }

  /** POSTing the same target twice keeps the mode the first POST chose. */
  lemma RepeatedPostKeepsMode(readings: seq<SensorReading>, values: map<string, string>, homeownerId: int,
                              target: real, now: int, nextId: int, format: real -> string)
    requires forall r :: r in readings && r.homeownerId == homeownerId ==> r.recordedAt < now
    ensures var first := PostMode(values, readings, homeownerId, target);
      PostMode(PostValues(values, target, first, format), PostReadings(readings, homeownerId, target, now, nextId),
               homeownerId, target) == first
  {
    PostedReadingIsLatest(readings, homeownerId, target, now, nextId);
  }

  /** handleHVACState. `body` is the decoded target, None when the JSON
      does not decode; `parse` and `format` stand for `%f` scanning and
      `%0.2f` printing. */
  method HandleHvacState(ctx: ContextValue, httpMethod: string, state: SystemStateRepository,
                         sensors: SensorsRepository, hvac: HvacRepository, body: Option<real>, now: int,
                         parse: string -> Option<real>, format: real -> string)
    returns (code: int, view: Option<HvacView>)
    requires sensors.Valid() && hvac.Valid()
    modifies state, sensors, hvac
    ensures sensors.Valid() && hvac.Valid()
    ensures code != StatusOK ==>
      view.None? && state.values == old(state.values) && sensors.rows == old(sensors.rows)
      && sensors.nextId == old(sensors.nextId) && hvac.rows == old(hvac.rows) && hvac.nextId == old(hvac.nextId)
    ensures SessionFromContext(ctx).Err? ==> code == StatusUnauthorized
    ensures SessionFromContext(ctx).Ok? && httpMethod == MethodGet ==>
      code == StatusOK && view == Some(HvacGet(old(state.values), old(sensors.rows), EffectiveHomeowner(ctx.session), parse))
      && state.values == old(state.values) && sensors.rows == old(sensors.rows) && hvac.rows == old(hvac.rows)
    ensures SessionFromContext(ctx).Ok? && httpMethod == MethodPost && body.None? ==> code == StatusBadRequest
    ensures SessionFromContext(ctx).Ok? && httpMethod == MethodPost && body.Some? ==>
      var h := EffectiveHomeowner(ctx.session);
      var mode := PostMode(old(state.values), old(sensors.rows), h, body.value);
      code == StatusOK && view == Some(HvacView(mode, body.value, body.value))
      && sensors.rows == PostReadings(old(sensors.rows), h, body.value, now, old(sensors.nextId))
      && state.values == PostValues(old(state.values), body.value, mode, format)
      && hvac.rows == old(hvac.rows) + [HvacEvent(old(hvac.nextId), h, now, mode, EventStateOn)]
    ensures SessionFromContext(ctx).Ok? && httpMethod != MethodGet && httpMethod != MethodPost ==>
      code == StatusMethodNotAllowed
  {
    var sess := SessionFromContext(ctx);
    if sess.Err? {
      return StatusUnauthorized, None;
    }
    var homeownerId := sess.value.userId;
    if sess.value.role != RoleHomeowner {
      homeownerId := sess.value.homeownerId;
    }
    if httpMethod == MethodGet {
      return StatusOK, Some(HvacGet(state.values, sensors.rows, homeownerId, parse));
    } else if httpMethod == MethodPost {
      if body.None? {
        return StatusBadRequest, None;
      }
      var target := body.value;
      var current := target;
      var latest := LatestReading(sensors.rows, homeownerId);
      if latest.Some? {
        current := latest.value.indoorTemp;
        sensors.UpdateById(latest.value.id, target, latest.value.humidity, latest.value.coPpm, now);
      } else {
        var _ := sensors.Insert(homeownerId, target, 0.0, 0.0, now);
      }
      var stored, found := state.Get(ModeKey);
      var mode := ChooseMode(target, current, (stored, found));
      state.Set(TargetKey, format(target));
      state.Set(CurrentKey, format(target));
      state.Set(ModeKey, mode);
      var _ := hvac.Insert(homeownerId, mode, EventStateOn, now);
      return StatusOK, Some(HvacView(mode, target, target));
    } else {
      return StatusMethodNotAllowed, None;
    }
  }
}
