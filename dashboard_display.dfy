// What the dashboards show of the HVAC state and how their +/- buttons move
// the target.
module DashboardDisplay {
  import HvacHandler

  const MinDialTemp: real := 60.0
  const MaxDialTemp: real := 85.0

  /** The dashboards' shown for a backend mode: heat, cool and fan are
      renamed, anything else reads as off. */
  function DisplayMode(mode: string): (shown: string)
    ensures shown == "heating" || shown == "cooling" || shown == "fan" || shown == "off"
    ensures shown == "heating" <==> mode == "heat"
    ensures shown == "cooling" <==> mode == "cool"
    ensures shown == "fan" <==> mode == "fan"
  {
    if mode == "heat" then "heating"
    else if mode == "cool" then "cooling"
    else if mode == "fan" then "fan"
    else "off"
  }

  /** After setting a target the dashboard shows cooling when the room was
      warmer, heating when it was colder. */
  lemma PostedModeDisplayed(target: real, current: real, stored: (string, bool))
    ensures target < current ==> DisplayMode(HvacHandler.ChooseMode(target, current, stored)) == "cooling"
    ensures target > current ==> DisplayMode(HvacHandler.ChooseMode(target, current, stored)) == "heating"
    ensures target == current && !(stored.1 && stored.0 != "") ==>
      DisplayMode(HvacHandler.ChooseMode(target, current, stored)) == "off"
  {
    if target == current && !(stored.1 && stored.0 != "") {
      assert HvacHandler.ChooseMode(target, current, stored) == HvacHandler.DefaultMode;
    }
  }

  /** adjustTemp: the target moves by `delta` but stays on the dial. */
  function AdjustTemp(target: real, delta: real): (t: real)
    ensures MinDialTemp <= t <= MaxDialTemp
    ensures MinDialTemp <= target + delta <= MaxDialTemp ==> t == target + delta
    ensures target + delta < MinDialTemp ==> t == MinDialTemp
    ensures target + delta > MaxDialTemp ==> t == MaxDialTemp
  {
    var lowered := if MaxDialTemp <= target + delta then MaxDialTemp else target + delta;
    if MinDialTemp >= lowered then MinDialTemp else lowered
  }

  /** Pressing harder never lowers the target, and a step of zero leaves a
      target that is on the dial where it is. */
  lemma AdjustTempMonotone(target: real, d1: real, d2: real)
    requires d1 <= d2
    ensures AdjustTemp(target, d1) <= AdjustTemp(target, d2)
    ensures MinDialTemp <= target <= MaxDialTemp ==> AdjustTemp(target, 0.0) == target
  {
  }

  /** A step up that stays on the dial is undone by the same step down. */
  lemma AdjustTempUndo(target: real, delta: real)
    requires MinDialTemp <= target && target + delta <= MaxDialTemp && delta >= 0.0
    ensures AdjustTemp(AdjustTemp(target, delta), -delta) == target
  {
  }
}
