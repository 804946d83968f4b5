// Ordering by a text column, as SQL `ORDER BY name` under SQLite's binary
// collation compares two strings: character by character, a proper prefix
// first.
module TextOrder {

  /** Lexicographic order on strings. */
  predicate TextLe(a: string, b: string)
  {
    |a| == 0 || (|b| > 0 && (a[0] < b[0] || (a[0] == b[0] && TextLe(a[1..], b[1..]))))
  }

  /** Any two strings are ordered one way or the other. */
  lemma {:induction false} TextLeTotal(a: string, b: string)
    ensures TextLe(a, b) || TextLe(b, a)
  {
    if |a| > 0 && |b| > 0 && a[0] == b[0] {
      TextLeTotal(a[1..], b[1..]);
    }
  }

  /** The order is transitive. */
  lemma {:induction false} TextLeTrans(a: string, b: string, c: string)
    requires TextLe(a, b) && TextLe(b, c)
    ensures TextLe(a, c)
  {
    if |a| > 0 && a[0] == b[0] && b[0] == c[0] {
      TextLeTrans(a[1..], b[1..], c[1..]);
    }
  }

  predicate SortedByText<T>(s: seq<T>, key: T -> string)
  {
    forall i, j :: 0 <= i < j < |s| ==> TextLe(key(s[i]), key(s[j]))
  }

  /** Inserts `x` before the first element whose key is not below its own. */
  function InsertByText<T>(x: T, s: seq<T>, key: T -> string): seq<T>
  {
    if |s| == 0 then [x]
    else if TextLe(key(x), key(s[0])) then [x] + s
    else [s[0]] + InsertByText(x, s[1..], key)
  }

  /** Insertion sort by a text key. */
  function SortByText<T>(s: seq<T>, key: T -> string): seq<T>
  {
    if |s| == 0 then [] else InsertByText(s[0], SortByText(s[1..], key), key)
  }

  /** Inserting adds `x` and keeps every element, each as often as before. */
  lemma {:induction false} InsertByTextPermutes<T>(x: T, s: seq<T>, key: T -> string)
    ensures multiset(InsertByText(x, s, key)) == multiset(s) + multiset{x}
    ensures |InsertByText(x, s, key)| == |s| + 1
    ensures forall y :: y in InsertByText(x, s, key) ==> y == x || y in s
    decreases |s|
  {
    if |s| > 0 && !TextLe(key(x), key(s[0])) {
      InsertByTextPermutes(x, s[1..], key);
      assert s == [s[0]] + s[1..];
    }
  }

  /** An element below every element of a sorted list can go in front. */
  lemma ConsSorted<T>(h: T, rest: seq<T>, key: T -> string)
    requires SortedByText(rest, key)
    requires forall y :: y in rest ==> TextLe(key(h), key(y))
    ensures SortedByText([h] + rest, key)
  {
    var r := [h] + rest;
    forall i, j | 0 <= i < j < |r| ensures TextLe(key(r[i]), key(r[j])) {
      assert r[j] == rest[j - 1] && rest[j - 1] in rest;
      if i > 0 {
        assert r[i] == rest[i - 1];
      }
    }
  }

  /** When `x` goes past the head of a sorted list, the head stays below
      everything after it. */
  lemma HeadBelowInserted<T>(x: T, s: seq<T>, key: T -> string)
    requires SortedByText(s, key) && |s| > 0 && !TextLe(key(x), key(s[0]))
    ensures forall y :: y in InsertByText(x, s[1..], key) ==> TextLe(key(s[0]), key(y))
  {
    InsertByTextPermutes(x, s[1..], key);
    TextLeTotal(key(x), key(s[0]));
    forall y | y in InsertByText(x, s[1..], key) ensures TextLe(key(s[0]), key(y)) {
      if y != x {
        var j :| 0 <= j < |s[1..]| && s[1..][j] == y;
        assert s[j + 1] == y;
      }
    }
  }

  lemma {:induction false} InsertByTextCorrect<T>(x: T, s: seq<T>, key: T -> string)
    requires SortedByText(s, key)
    ensures SortedByText(InsertByText(x, s, key), key)
    ensures multiset(InsertByText(x, s, key)) == multiset(s) + multiset{x}
    decreases |s|
  {
    InsertByTextPermutes(x, s, key);
    if |s| == 0 {
    } else if !TextLe(key(x), key(s[0])) {
      assert SortedByText(s[1..], key);
      InsertByTextCorrect(x, s[1..], key);
      HeadBelowInserted(x, s, key);
      ConsSorted(s[0], InsertByText(x, s[1..], key), key);
    } else {
      forall y | y in s ensures TextLe(key(x), key(y)) {
        var j :| 0 <= j < |s| && s[j] == y;
        if j > 0 {
          TextLeTrans(key(x), key(s[0]), key(s[j]));
        }
      }
      ConsSorted(x, s, key);
    }
  }

  /** The sort returns its input, each element as often as before, in
      order of the key. */
  lemma {:induction false} SortByTextCorrect<T>(s: seq<T>, key: T -> string)
    ensures SortedByText(SortByText(s, key), key)
    ensures multiset(SortByText(s, key)) == multiset(s)
    ensures |SortByText(s, key)| == |s|
    decreases |s|
  {
    if |s| > 0 {
      var t := SortByText(s[1..], key);
      SortByTextCorrect(s[1..], key);
      InsertByTextCorrect(s[0], t, key);
      InsertByTextPermutes(s[0], t, key);
      assert SortByText(s, key) == InsertByText(s[0], t, key);
      assert multiset(s) == multiset(s[1..]) + multiset{s[0]} by {
        assert s == [s[0]] + s[1..];
      }
    }
  }
}
