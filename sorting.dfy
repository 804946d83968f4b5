// Ordering by a two-part key, as SQL `ORDER BY a, b` and a stable
// JavaScript sort on (timestamp, position) produce it.
module Sorting {

  /** Lexicographic order on (major, minor) keys. */
  predicate KeyLe(a: (int, int), b: (int, int))
  {
    a.0 < b.0 || (a.0 == b.0 && a.1 <= b.1)
  }

  predicate SortedBy<T>(s: seq<T>, key: T -> (int, int))
  {
    forall i, j :: 0 <= i < j < |s| ==> KeyLe(key(s[i]), key(s[j]))
  }

  /** Inserts `x` before the first element whose key is larger. */
  function Insert<T>(x: T, s: seq<T>, key: T -> (int, int)): seq<T>
  {
    if |s| == 0 then [x]
    else if KeyLe(key(x), key(s[0])) then [x] + s
    else [s[0]] + Insert(x, s[1..], key)
  }

  /** Insertion sort by `key`. */
  function SortBy<T>(s: seq<T>, key: T -> (int, int)): seq<T>
  {
    if |s| == 0 then [] else Insert(s[0], SortBy(s[1..], key), key)
  }

  /** Inserting adds exactly the inserted element. */
  lemma {:induction false} InsertPermutes<T>(x: T, s: seq<T>, key: T -> (int, int))
    ensures multiset(Insert(x, s, key)) == multiset(s) + multiset{x}
    ensures |Insert(x, s, key)| == |s| + 1
    ensures forall y :: y in Insert(x, s, key) ==> y == x || y in s
    decreases |s|
  {
    if |s| > 0 && !KeyLe(key(x), key(s[0])) {
      InsertPermutes(x, s[1..], key);
      assert s == [s[0]] + s[1..];
    }
  }

  /** An element below every element of an ordered sequence can go in
      front. */
  lemma ConsSorted<T>(h: T, rest: seq<T>, key: T -> (int, int))
    requires SortedBy(rest, key)
    requires forall y :: y in rest ==> KeyLe(key(h), key(y))
    ensures SortedBy([h] + rest, key)
  {
    var r := [h] + rest;
    forall i, j | 0 <= i < j < |r| ensures KeyLe(key(r[i]), key(r[j])) {
      assert r[j] == rest[j - 1] && rest[j - 1] in rest;
      if i > 0 {
        assert r[i] == rest[i - 1];
      }
    }
  }

  /** When `x` goes past the head of an ordered sequence, the head stays
      below everything after it. */
  lemma HeadBelowInserted<T>(x: T, s: seq<T>, key: T -> (int, int))
    requires SortedBy(s, key) && |s| > 0 && !KeyLe(key(x), key(s[0]))
    ensures forall y :: y in Insert(x, s[1..], key) ==> KeyLe(key(s[0]), key(y))
  {
    InsertPermutes(x, s[1..], key);
    forall y | y in Insert(x, s[1..], key) ensures KeyLe(key(s[0]), key(y)) {
      if y != x {
        var j :| 0 <= j < |s[1..]| && s[1..][j] == y;
        assert s[j + 1] == y;
      }
    }
  }

  /** Inserting into an ordered sequence keeps it ordered and adds exactly
      the inserted element. */
  lemma {:induction false} InsertCorrect<T>(x: T, s: seq<T>, key: T -> (int, int))
    requires SortedBy(s, key)
    ensures SortedBy(Insert(x, s, key), key)
    ensures multiset(Insert(x, s, key)) == multiset(s) + multiset{x}
    decreases |s|
  {
    InsertPermutes(x, s, key);
    if |s| == 0 {
    } else if !KeyLe(key(x), key(s[0])) {
      assert SortedBy(s[1..], key);
      InsertCorrect(x, s[1..], key);
      HeadBelowInserted(x, s, key);
      ConsSorted(s[0], Insert(x, s[1..], key), key);
    } else {
      forall y | y in s ensures KeyLe(key(x), key(y)) {
        var j :| 0 <= j < |s| && s[j] == y;
        assert KeyLe(key(s[0]), key(s[j])) || j == 0;
      }
      ConsSorted(x, s, key);
    }
  }

  /** Insertion sort returns an ordering of its input by `key`. */
  lemma {:induction false} SortByCorrect<T>(s: seq<T>, key: T -> (int, int))
    ensures SortedBy(SortBy(s, key), key)
    ensures multiset(SortBy(s, key)) == multiset(s)
    ensures |SortBy(s, key)| == |s|
    decreases |s|
  {
    if |s| > 0 {
      var t := SortBy(s[1..], key);
      SortByCorrect(s[1..], key);
      InsertCorrect(s[0], t, key);
      InsertPermutes(s[0], t, key);
      assert SortBy(s, key) == Insert(s[0], t, key);
      assert multiset(s) == multiset(s[1..]) + multiset{s[0]} by {
        assert s == [s[0]] + s[1..];
      }
    }
  }

  /** Two orderings of the same elements by an injective key start with the
      same element. */
  lemma SortedHeadsAgree<T>(a: seq<T>, b: seq<T>, key: T -> (int, int))
    requires SortedBy(a, key) && SortedBy(b, key)
    requires multiset(a) == multiset(b) && |a| > 0
    requires forall x, y :: x in a && y in a && key(x) == key(y) ==> x == y
    ensures |b| == |a| && a[0] == b[0]
  {
    assert |b| == |a| by { assert |multiset(a)| == |multiset(b)|; }
    assert a[0] in multiset(b) && b[0] in multiset(a);
    var ia :| 0 <= ia < |b| && b[ia] == a[0];
    var ib :| 0 <= ib < |a| && a[ib] == b[0];
    assert KeyLe(key(a[0]), key(a[ib]));
    assert KeyLe(key(b[0]), key(b[ia]));
  }

  /** Dropping the same head from two equal multisets leaves equal ones. */
  lemma TailsPermute<T>(a: seq<T>, b: seq<T>)
    requires multiset(a) == multiset(b) && |a| > 0 && |b| > 0 && a[0] == b[0]
    ensures multiset(a[1..]) == multiset(b[1..])
  {
    assert a == [a[0]] + a[1..];
    assert b == [b[0]] + b[1..];
    assert multiset(a[1..]) == multiset(a) - multiset{a[0]};
    assert multiset(b[1..]) == multiset(b) - multiset{b[0]};
  }

  /** Two orderings of the same elements by an injective key coincide: the
      order the key imposes is unique. */
  lemma {:induction false} SortedUnique<T>(a: seq<T>, b: seq<T>, key: T -> (int, int))
    requires SortedBy(a, key) && SortedBy(b, key)
    requires multiset(a) == multiset(b)
    requires forall x, y :: x in a && y in a && key(x) == key(y) ==> x == y
    ensures a == b
    decreases |a|
  {
    if |a| > 0 {
      SortedHeadsAgree(a, b, key);
      TailsPermute(a, b);
      forall x, y | x in a[1..] && y in a[1..] && key(x) == key(y) ensures x == y {
        var i :| 0 <= i < |a[1..]| && a[1..][i] == x;
        var j :| 0 <= j < |a[1..]| && a[1..][j] == y;
        assert a[i + 1] == x && a[j + 1] == y;
      }
      SortedUnique(a[1..], b[1..], key);
      assert a == [a[0]] + a[1..] && b == [b[0]] + b[1..];
    } else {
      assert |multiset(b)| == 0;
    }
  }
}
