// The dashboards' schedule runner: every poll turns each schedule's start
// time into candidate instants, applies the targets whose instant falls in
// (last check, now] in time order, and moves the last check to now. The
// homeowner and technician dashboards carry the same code.
module DashboardSchedule {
  import opened Wrappers
  import opened Text
  import opened Seqs
  import Sorting

  const MillisPerSecond: int := 1000
  const MillisPerDay: int := 24 * 60 * 60 * MillisPerSecond

  /** A time of day as the pattern `H:MM`, `HH:MM` or `HH:MM:SS` gives it. */
  datatype Clock = Clock(hours: nat, minutes: nat, seconds: nat)

  /** The third field's value, 0 when it is absent. */
  function OptionalSeconds(parts: seq<string>): (n: nat)
    requires |parts| == 3 ==> DigitField(parts[2], 2, 2)
    ensures n < 100
  {
    if |parts| == 3 then DecimalOfTwoDigits(parts[2]); Decimal(parts[2]) else 0
  }

  /** `/^(\d{1,2}):(\d{2})(?::(\d{2}))?$/`: two or three colon-separated
      fields, the first of one or two digits and the others of two. */
  function MatchClock(t: string): (r: Option<Clock>)
    ensures r.Some? ==> r.value.hours < 100 && r.value.minutes < 100 && r.value.seconds < 100
  {
    var parts := Split(t, ':');
    if (|parts| == 2 || |parts| == 3) && DigitField(parts[0], 1, 2) && DigitField(parts[1], 2, 2)
       && (|parts| == 3 ==> DigitField(parts[2], 2, 2))
    then
      DecimalOfTwoDigits(parts[0]);
      DecimalOfTwoDigits(parts[1]);
      Some(Clock(Decimal(parts[0]), Decimal(parts[1]), OptionalSeconds(parts)))
    else None
  }

  /** `HH:MM:SS`. */
  function FormatClock(c: Clock): string
    requires c.hours < 100 && c.minutes < 100 && c.seconds < 100
  {
    Join([TwoDigitText(c.hours), TwoDigitText(c.minutes), TwoDigitText(c.seconds)], ':')
  }

  /** Every time of day written `HH:MM:SS` is recognised as that time. */
  lemma ClockRoundTrip(c: Clock)
    requires c.hours < 100 && c.minutes < 100 && c.seconds < 100
    ensures MatchClock(FormatClock(c)) == Some(c)
  {
    var parts := [TwoDigitText(c.hours), TwoDigitText(c.minutes), TwoDigitText(c.seconds)];
    SplitJoin(parts, ':');
  }

  /** The offset of a time of day from midnight; `setHours` carries any
      overflow into the next day, as plain addition does. */
  function ClockMillis(c: Clock): int
  {
    ((c.hours * 60 + c.minutes) * 60 + c.seconds) * MillisPerSecond
  }

  /** buildScheduleCandidates. `midnight` is the start of the local day of
      the reference instant; `parseDate` stands for `new Date(text)`, None
      for an invalid date. */
  function Candidates(startTime: string, midnight: int, parseDate: string -> Option<int>): seq<int>
  {
    if startTime == "" then []
    else
      var trimmed := TrimSpace(startTime);
      match MatchClock(trimmed)
      case Some(c) =>
        var today := midnight + ClockMillis(c);
        [today, today - MillisPerDay]
      case None =>
        if parseDate(trimmed).Some? then [parseDate(trimmed).value] else []
  }

  /** The two instants of a time of day are a day apart, so a check window
      shorter than a day holds at most one of them: a daily schedule fires
      at most once per poll. */
  lemma AtMostOneDailyInstantPerWindow(startTime: string, midnight: int, parseDate: string -> Option<int>,
                                       lastCheck: int, now: int)
    requires now - lastCheck < MillisPerDay
    ensures |Filter(Candidates(startTime, midnight, parseDate), (t: int) => lastCheck < t <= now)| <= 1
  {
    var cs := Candidates(startTime, midnight, parseDate);
    var p := (t: int) => lastCheck < t <= now;
    if |cs| == 2 {
      assert cs == [cs[0]] + [cs[1]];
      FilterAppend([cs[0]], cs[1], p);
      assert [cs[0]] == [] + [cs[0]];
      FilterAppend([], cs[0], p);
    }
  }

  /** The fields of a schedule row the runner reads. */
  datatype ScheduleRow = ScheduleRow(startTime: string, targetTemp: real)

  /** One candidate: its instant, its place in the flattened list (the
      stable sort keeps equal instants in that order), and its target. */
  datatype DueItem = DueItem(timestamp: int, order: int, targetTemp: real)

  /** `rows.flatMap(...)`: every row's candidates, row by row. */
  function Flattened(rows: seq<ScheduleRow>, midnight: int, parseDate: string -> Option<int>): seq<(int, real)>
  {
    if |rows| == 0 then []
    else
      var last := rows[|rows| - 1];
      var cs := Candidates(last.startTime, midnight, parseDate);
      Flattened(rows[..|rows| - 1], midnight, parseDate) + seq(|cs|, k requires 0 <= k < |cs| => (cs[k], last.targetTemp))
  }

  function Numbered(pairs: seq<(int, real)>): (items: seq<DueItem>)
    ensures |items| == |pairs|
    ensures forall k :: 0 <= k < |pairs| ==> items[k] == DueItem(pairs[k].0, k, pairs[k].1)
  {
    seq(|pairs|, k requires 0 <= k < |pairs| => DueItem(pairs[k].0, k, pairs[k].1))
  }

  function InWindow(lastCheck: int, now: int): DueItem -> bool
  {
    (d: DueItem) => lastCheck < d.timestamp <= now
  }

  function DueKey(d: DueItem): (int, int) { (d.timestamp, d.order) }

  /** The due list: the candidates with lastCheck < t <= now, earliest first. */
  function Due(rows: seq<ScheduleRow>, lastCheck: int, now: int, midnight: int,
               parseDate: string -> Option<int>): seq<DueItem>
  {
    Sorting.SortBy(Filter(Numbered(Flattened(rows, midnight, parseDate)), InWindow(lastCheck, now)), DueKey)
  }

  /** Exactly the candidates inside the window are due, each once, in
      ascending order of instant. */
  lemma DueCorrect(rows: seq<ScheduleRow>, lastCheck: int, now: int, midnight: int,
                   parseDate: string -> Option<int>)
    ensures forall d :: d in Due(rows, lastCheck, now, midnight, parseDate) <==>
      d in Numbered(Flattened(rows, midnight, parseDate)) && lastCheck < d.timestamp <= now
    ensures multiset(Due(rows, lastCheck, now, midnight, parseDate))
      == multiset(Filter(Numbered(Flattened(rows, midnight, parseDate)), InWindow(lastCheck, now)))
    ensures forall i, j :: 0 <= i < j < |Due(rows, lastCheck, now, midnight, parseDate)| ==>
      Due(rows, lastCheck, now, midnight, parseDate)[i].timestamp <= Due(rows, lastCheck, now, midnight, parseDate)[j].timestamp
  {
    var inWindow := Filter(Numbered(Flattened(rows, midnight, parseDate)), InWindow(lastCheck, now));
    Sorting.SortByCorrect(inWindow, DueKey);
    var due := Due(rows, lastCheck, now, midnight, parseDate);
    forall d ensures d in due <==> d in inWindow {
      assert d in due <==> d in multiset(due);
    }
    forall i, j | 0 <= i < j < |due| ensures due[i].timestamp <= due[j].timestamp {
      assert Sorting.KeyLe(DueKey(due[i]), DueKey(due[j]));
    }
  }

  /** Two polls in a row: everything the second applies is later than
      everything the first applied, so no instant is applied twice. */
  lemma ConsecutivePollsDisjoint(rows1: seq<ScheduleRow>, rows2: seq<ScheduleRow>, lastCheck: int,
                                 now1: int, now2: int, midnight1: int, midnight2: int,
                                 parseDate: string -> Option<int>)
    ensures forall x, y ::
      (x in Due(rows1, lastCheck, now1, midnight1, parseDate) && y in Due(rows2, now1, now2, midnight2, parseDate))
      ==> x.timestamp < y.timestamp
  {
    DueCorrect(rows1, lastCheck, now1, midnight1, parseDate);
    DueCorrect(rows2, now1, now2, midnight2, parseDate);
  }

  /** What the dashboard keeps of a successful `setTargetTemperature`. */
  datatype HvacStateDto = HvacStateDto(mode: string, targetTemp: real, currentTemp: real)

  /** The answer of the last call that succeeded, None when none did.
      `setTarget(k, t)` is the outcome of the k-th call, None when it
      throws. */
  function LastApplied(items: seq<DueItem>, setTarget: (nat, real) -> Option<HvacStateDto>): (r: Option<HvacStateDto>)
    ensures r.None? <==> forall k :: 0 <= k < |items| ==> setTarget(k, items[k].targetTemp).None?
    ensures r.Some? ==> exists k :: 0 <= k < |items| && r == setTarget(k, items[k].targetTemp)
                                   && forall j :: k < j < |items| ==> setTarget(j, items[j].targetTemp).None?
  {
    if |items| == 0 then None
    else
      var k := |items| - 1;
      var outcome := setTarget(k, items[k].targetTemp);
      if outcome.Some? then outcome
      else
        var earlier := LastApplied(items[..k], setTarget);
        assert forall j :: 0 <= j < k ==> items[..k][j] == items[j];
        earlier
  }

  class ScheduleRunner {
    /** `lastScheduleCheckRef.current`, in milliseconds. */
    var lastCheck: int

    /** The ref starts at the stored value, or at the time of the first
        render when nothing is stored. */
    constructor (initial: int)
      ensures lastCheck == initial
    {
      lastCheck := initial;
    }

    /** applySchedulesIfDue: a failed call is skipped and the later ones
        still run; `applied` says whether anything was due at all. */
    method ApplyIfDue(rows: seq<ScheduleRow>, now: int, midnight: int, parseDate: string -> Option<int>,
                      setTarget: (nat, real) -> Option<HvacStateDto>)
      returns (applied: bool, latest: Option<HvacStateDto>)
      modifies this
      ensures lastCheck == now
      ensures |rows| == 0 ==> !applied && latest.None?
      ensures |rows| > 0 ==>
        var due := Due(rows, old(lastCheck), now, midnight, parseDate);
        applied == (|due| > 0) && latest == LastApplied(due, setTarget)
    {
      if |rows| == 0 {
        lastCheck := now;
        return false, None;
      }
      var due := Due(rows, lastCheck, now, midnight, parseDate);
      latest := None;
      var i := 0;
      while i < |due|
        invariant 0 <= i <= |due|
        invariant latest == LastApplied(due[..i], setTarget)
      {
        var outcome := setTarget(i, due[i].targetTemp);
        assert due[..i + 1][..i] == due[..i];
        if outcome.Some? {
          latest := outcome;
        }
        i := i + 1;
      }
      assert due[..i] == due;
      lastCheck := now;
      applied := |due| > 0;
    }
  }
}
