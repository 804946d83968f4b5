// String helpers with the semantics of Go's `strings` package and
// JavaScript's String methods, restricted to what the modelled code uses.
module Text {

  /** Go's unicode.IsSpace: the ASCII spaces, NEL, NBSP and the other
      Unicode White_Space code points. */
  predicate IsSpace(c: char)
  {
    c == ' ' || c == '\t' || c == '\n' || c == '\r' || c == '\U{B}' || c == '\U{C}'
    || c == '\U{85}' || c == '\U{A0}' || c == '\U{1680}'
    || ('\U{2000}' <= c <= '\U{200A}') || c == '\U{2028}' || c == '\U{2029}'
    || c == '\U{202F}' || c == '\U{205F}' || c == '\U{3000}'
  }

  predicate IsAsciiDigit(c: char) { '0' <= c <= '9' }

  predicate IsAsciiLetter(c: char) { 'a' <= c <= 'z' || 'A' <= c <= 'Z' }

  predicate AllDigits(s: string) { forall i :: 0 <= i < |s| ==> IsAsciiDigit(s[i]) }

  function DigitValue(c: char): nat
    requires IsAsciiDigit(c)
  {
    (c as int) - ('0' as int)
  }

  /** The value of a string of decimal digits. */
  function Decimal(s: string): nat
    requires AllDigits(s)
  {
    if |s| == 0 then 0 else 10 * Decimal(s[..|s| - 1]) + DigitValue(s[|s| - 1])
  }

  /** One or two digits are worth less than a hundred. */
  lemma DecimalOfTwoDigits(s: string)
    requires AllDigits(s) && |s| <= 2
    ensures Decimal(s) < 100
  {
    if |s| > 0 {
      var init := s[..|s| - 1];
      assert AllDigits(init) && |init| <= 1;
      if |init| == 1 {
        assert init[..0] == [];
      }
    }
  }

  /** A regular-expression field `\d{least,most}`: between `least` and `most` ASCII digits. */
  predicate DigitField(s: string, least: nat, most: nat)
  {
    least <= |s| <= most && AllDigits(s)
  }

  /** Two digits for a number below 100. */
  function TwoDigitText(n: nat): (s: string)
    requires n < 100
    ensures DigitField(s, 2, 2) && Decimal(s) == n
  {
    var s := [('0' as int + n / 10) as char, ('0' as int + n % 10) as char];
    assert s[..1] == [s[0]] && s[..1][..0] == [];
    assert Decimal(s[..1]) == n / 10;
    s
  }

  /** Drops leading spaces: the result is a suffix of `s` that does not
      start with a space, and everything dropped was a space. */
  function TrimLeft(s: string): (r: string)
    ensures |r| <= |s| && r == s[|s| - |r|..]
    ensures |r| > 0 ==> !IsSpace(r[0])
    ensures forall k :: 0 <= k < |s| - |r| ==> IsSpace(s[k])
  {
    if |s| > 0 && IsSpace(s[0]) then TrimLeft(s[1..]) else s
  }

  /** Drops trailing spaces: the result is a prefix of `s` that does not
      end with a space, and everything dropped was a space. */
  function TrimRight(s: string): (r: string)
    ensures |r| <= |s| && r == s[..|r|]
    ensures |r| > 0 ==> !IsSpace(r[|r| - 1])
    ensures forall k :: |r| <= k < |s| ==> IsSpace(s[k])
  {
    if |s| > 0 && IsSpace(s[|s| - 1]) then TrimRight(s[..|s| - 1]) else s
  }

  /** strings.TrimSpace / String.prototype.trim. */
  function TrimSpace(s: string): (r: string)
  {
    TrimRight(TrimLeft(s))
  }

  /** No space at either end. */
  predicate Trimmed(s: string)
  {
    |s| > 0 ==> !IsSpace(s[0]) && !IsSpace(s[|s| - 1])
  }

  /** TrimSpace leaves no space at either end, and leaves a string without
      spaces at its ends as it is. */
  lemma TrimSpaceTrimmed(s: string)
    ensures Trimmed(TrimSpace(s))
    ensures Trimmed(s) ==> TrimSpace(s) == s
  {
    var l := TrimLeft(s);
    var r := TrimSpace(s);
    assert r == TrimRight(l) && r == l[..|r|];
    assert |r| > 0 ==> r[0] == l[0];
    if Trimmed(s) {
      assert l == s;
      assert TrimRight(s) == s;
    }
  }

  /** Trimming adds no upper-case letter. */
  lemma TrimSpaceNoUpper(s: string)
    requires NoUpper(s)
    ensures NoUpper(TrimSpace(s))
  {
    var l := TrimLeft(s);
    forall k | 0 <= k < |l|
      ensures !('A' <= l[k] <= 'Z')
    {
      assert l[k] == s[|s| - |l| + k];
    }
    var r := TrimRight(l);
    forall k | 0 <= k < |r|
      ensures !('A' <= r[k] <= 'Z')
    {
      assert r[k] == l[k];
    }
  }

  /** A string trims to the empty string exactly when it is all spaces. */
  lemma TrimSpaceEmptyIff(s: string)
    ensures TrimSpace(s) == [] <==> forall k :: 0 <= k < |s| ==> IsSpace(s[k])
  {
    var l := TrimLeft(s);
    assert |l| > 0 ==> l[0] == s[|s| - |l|];
    assert TrimSpace(s) == TrimRight(l);
  }

  /** A string without spaces is its own trim. */
  lemma TrimSpaceNoSpaces(s: string)
    requires forall k :: 0 <= k < |s| ==> !IsSpace(s[k])
    ensures TrimSpace(s) == s
  {
    var l := TrimLeft(s);
    assert |s| > 0 ==> !IsSpace(s[0]) && !IsSpace(s[|s| - 1]);
    assert |l| == |s|;
    assert l == s;
  }

  /** ASCII lower-casing of one character. */
  function LowerChar(c: char): (r: char)
  {
    if 'A' <= c <= 'Z' then (c as int + 32) as char else c
  }

  /** strings.ToLower / String.prototype.toLowerCase on ASCII letters. */
  function ToLower(s: string): (r: string)
    ensures |r| == |s|
    ensures forall i :: 0 <= i < |s| ==> r[i] == LowerChar(s[i])
  {
    if |s| == 0 then [] else [LowerChar(s[0])] + ToLower(s[1..])
  }

  /** No upper-case ASCII letter. */
  predicate NoUpper(s: string)
  {
    forall k :: 0 <= k < |s| ==> !('A' <= s[k] <= 'Z')
  }

  /** ToLower leaves no upper-case letter and changes nothing in a string
      that has none. */
  lemma ToLowerNoUpper(s: string)
    ensures NoUpper(ToLower(s))
    ensures NoUpper(s) ==> ToLower(s) == s
  {
    var r := ToLower(s);
    forall k | 0 <= k < |r|
      ensures !('A' <= r[k] <= 'Z')
    {
      assert r[k] == LowerChar(s[k]);
    }
  }

  predicate HasPrefix(s: string, p: string)
  {
    |p| <= |s| && s[..|p|] == p
  }

  /** strings.TrimPrefix: removes `p` once if `s` starts with it. */
  function TrimPrefix(s: string, p: string): (r: string)
  {
    if HasPrefix(s, p) then s[|p|..] else s
  }

  /** TrimPrefix undoes prepending the prefix, and leaves a string without
      the prefix alone. */
  lemma TrimPrefixInverse(p: string, s: string)
    ensures TrimPrefix(p + s, p) == s
    ensures !HasPrefix(s, p) ==> TrimPrefix(s, p) == s
  {
    assert (p + s)[..|p|] == p;
    assert (p + s)[|p|..] == s;
  }

  /** strings.Contains / String.prototype.includes. */
  predicate Contains(s: string, sub: string)
    decreases |s|
  {
    HasPrefix(s, sub) || (|s| > 0 && Contains(s[1..], sub))
  }

  /** Contains holds exactly when `sub` occurs at some offset of `s`. */
  lemma {:induction false} ContainsIff(s: string, sub: string)
    ensures Contains(s, sub) <==> exists i :: 0 <= i <= |s| && HasPrefix(s[i..], sub)
    decreases |s|
  {
    if Contains(s, sub) {
      if HasPrefix(s, sub) {
        assert s[0..] == s;
      } else {
        ContainsIff(s[1..], sub);
        var i :| 0 <= i <= |s[1..]| && HasPrefix(s[1..][i..], sub);
        assert s[1..][i..] == s[i + 1..];
      }
    }
    if exists i :: 0 <= i <= |s| && HasPrefix(s[i..], sub) {
      var i :| 0 <= i <= |s| && HasPrefix(s[i..], sub);
      if i == 0 {
        assert s[0..] == s;
      } else {
        assert s[1..][i - 1..] == s[i..];
        ContainsIff(s[1..], sub);
      }
    }
  }
  /** strings.Split on a one-character separator: the pieces between the
      separators, always at least one. */
  function Split(s: string, sep: char): (parts: seq<string>)
    ensures |parts| >= 1
    ensures forall k, i :: 0 <= k < |parts| && 0 <= i < |parts[k]| ==> parts[k][i] != sep
  {
    if |s| == 0 then [""]
    else
      var rest := Split(s[1..], sep);
      if s[0] == sep then [""] + rest
      else [[s[0]] + rest[0]] + rest[1..]
  }

  /** strings.Join with a one-character separator. */
  function Join(parts: seq<string>, sep: char): string
  {
    if |parts| == 0 then ""
    else if |parts| == 1 then parts[0]
    else parts[0] + [sep] + Join(parts[1..], sep)
  }

  /** Joining the pieces gives the string back. */
  lemma {:induction false} JoinSplit(s: string, sep: char)
    ensures Join(Split(s, sep), sep) == s
  {
    if |s| > 0 {
      JoinSplit(s[1..], sep);
      var rest := Split(s[1..], sep);
      if s[0] != sep {
        var parts := [[s[0]] + rest[0]] + rest[1..];
        if |rest| > 1 {
          assert parts[1..] == rest[1..];
          assert Join(rest, sep) == rest[0] + [sep] + Join(rest[1..], sep);
        }
      }
    }
  }

  /** Splitting a join of pieces free of the separator gives the pieces back. */
  lemma {:induction false} SplitJoin(parts: seq<string>, sep: char)
    requires |parts| >= 1
    requires forall k, i :: 0 <= k < |parts| && 0 <= i < |parts[k]| ==> parts[k][i] != sep
    ensures Split(Join(parts, sep), sep) == parts
    decreases |parts|, |parts[0]|
  {
    if |parts[0]| > 0 {
      var head := parts[0];
      var shorter := [head[1..]] + parts[1..];
      SplitJoin(shorter, sep);
      JoinCons(head, parts[1..], sep);
      assert parts == [head] + parts[1..];
      SplitCons(head[0], Join(shorter, sep), sep);
      assert [head[0]] + head[1..] == head;
    } else if |parts| > 1 {
      SplitJoin(parts[1..], sep);
      assert Join(parts, sep) == [sep] + Join(parts[1..], sep);
      assert ([sep] + Join(parts[1..], sep))[1..] == Join(parts[1..], sep);
    }
  }

  /** The first piece is everything before the first separator. */
  lemma {:induction false} SplitFirst(a: string, sep: char, b: string)
    requires forall i :: 0 <= i < |a| ==> a[i] != sep
    ensures Split(a + [sep] + b, sep)[0] == a
    ensures Split(a, sep) == [a]
    decreases |a|
  {
    var s := a + [sep] + b;
    if |a| > 0 {
      assert s[1..] == a[1..] + [sep] + b;
      SplitFirst(a[1..], sep, b);
      assert a == [a[0]] + a[1..];
    }
  }

  /** A character other than the separator starts the first piece. */
  lemma SplitCons(c: char, s: string, sep: char)
    requires c != sep
    ensures Split([c] + s, sep) == [[c] + Split(s, sep)[0]] + Split(s, sep)[1..]
  {
    assert ([c] + s)[1..] == s;
  }

  /** The first character of a join, split off. */
  lemma JoinCons(head: string, rest: seq<string>, sep: char)
    requires |head| > 0
    ensures Join([head] + rest, sep) == [head[0]] + Join([head[1..]] + rest, sep)
  {
    JoinHead(head, rest, sep);
    JoinHead(head[1..], rest, sep);
    assert head == [head[0]] + head[1..];
  }

  /** Join with its first piece pulled out. */
  lemma JoinHead(head: string, rest: seq<string>, sep: char)
    ensures Join([head] + rest, sep) == if |rest| == 0 then head else head + [sep] + Join(rest, sep)
  {
    assert ([head] + rest)[1..] == rest;
  }
}
