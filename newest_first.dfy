// `ORDER BY <time> DESC LIMIT n`: the n newest rows, newest first. Rows
// with the same time are taken in descending id order, one order SQLite may
// produce; SQL itself leaves ties unordered.
module NewestFirst {
  import Sorting

  function Min(a: int, b: int): int { if a <= b then a else b }

  /** The sort key: later times first, then higher ids. */
  function NewestKey<T>(time: T -> int, id: T -> int): T -> (int, int)
  {
    (x: T) => (-time(x), -id(x))
  }

  /** The first `limit` rows, newest first. */
  function Recent<T>(rows: seq<T>, time: T -> int, id: T -> int, limit: nat): seq<T>
  {
    Sorting.SortByCorrect(rows, NewestKey(time, id));
    Sorting.SortBy(rows, NewestKey(time, id))[..Min(limit, |rows|)]
  }

  /** Every row kept is from the table, and the kept rows go newest first. */
  lemma RecentOrdered<T>(rows: seq<T>, time: T -> int, id: T -> int, limit: nat)
    ensures |Recent(rows, time, id, limit)| == Min(limit, |rows|)
    ensures forall x :: x in Recent(rows, time, id, limit) ==> x in rows
    ensures forall i, j :: 0 <= i < j < |Recent(rows, time, id, limit)| ==>
      time(Recent(rows, time, id, limit)[i]) >= time(Recent(rows, time, id, limit)[j])
  {
    var key := NewestKey(time, id);
    var sorted := Sorting.SortBy(rows, key);
    Sorting.SortByCorrect(rows, key);
    var r := sorted[..Min(limit, |rows|)];
    forall x | x in r ensures x in rows {
      assert x in multiset(sorted);
    }
    forall i, j | 0 <= i < j < |r| ensures time(r[i]) >= time(r[j]) {
      assert Sorting.KeyLe(key(sorted[i]), key(sorted[j]));
    }
  }

  /** A row left out is no newer than any row kept, and with no more than
      `limit` rows the whole table comes back. */
  lemma RecentKeepsNewest<T>(rows: seq<T>, time: T -> int, id: T -> int, limit: nat)
    ensures forall x, y :: x in rows && x !in Recent(rows, time, id, limit) && y in Recent(rows, time, id, limit) ==>
      time(x) <= time(y)
    ensures |rows| <= limit ==> multiset(Recent(rows, time, id, limit)) == multiset(rows)
  {
    var key := NewestKey(time, id);
    var sorted := Sorting.SortBy(rows, key);
    Sorting.SortByCorrect(rows, key);
    var r := sorted[..Min(limit, |rows|)];
    forall x, y | x in rows && x !in r && y in r ensures time(x) <= time(y) {
      assert x in multiset(sorted);
      var a :| 0 <= a < |sorted| && sorted[a] == x;
      var b :| 0 <= b < |r| && r[b] == y;
      assert Sorting.KeyLe(key(sorted[b]), key(sorted[a]));
    }
    if |rows| <= limit {
      assert r == sorted;
    }
  }
}
