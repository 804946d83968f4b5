// The thermostat's `system_state` table: one value per key, read by the
// HVAC handler and overwritten by its upsert.
module SystemState {

  /** What Get answers for `key`: the stored value and true, or the empty
      string and false when the key has no row. */
  function ValueOf(values: map<string, string>, key: string): (r: (string, bool))
    ensures r.1 <==> key in values
    ensures r.1 ==> r.0 == values[key]
    ensures !r.1 ==> r.0 == ""
  {
    if key in values then (values[key], true) else ("", false)
  }

  /** After Set(key, value), Get(key) finds `value`, whatever was there
      before, and every other key reads as it did. */
  lemma SetThenGet(values: map<string, string>, key: string, value: string, other: string)
    ensures ValueOf(values[key := value], key) == (value, true)
    ensures other != key ==> ValueOf(values[key := value], other) == ValueOf(values, other)
  {
  }

  /** Setting a key twice keeps only the second value. */
  lemma SetTwice(values: map<string, string>, key: string, first: string, second: string)
    ensures values[key := first][key := second] == values[key := second]
  {
  }

  class SystemStateRepository {
    var values: map<string, string>

    constructor ()
      ensures values == map[]
    {
      values := map[];
    }

    /** Get looks one key up; nothing changes. */
    method Get(key: string) returns (value: string, found: bool)
      ensures (value, found) == ValueOf(values, key)
    {
      if key in values {
        return values[key], true;
      }
      return "", false;
    }

    /** Set inserts the key, or overwrites its value when it is present. */
    method Set(key: string, value: string)
      modifies this
      ensures values == old(values)[key := value]
    {
      values := values[key := value];
    }
  }
}
