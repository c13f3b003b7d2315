/**
 * Sorting a table by a key, as `DataFrame.sort_values` does. The order is given as a
 * "less than or equal" relation on whole rows; rows that compare equal both ways share a key.
 * The sort is a stable insertion sort: rows with equal keys keep their input order, which is
 * what pandas' multi-column sort (a lexsort) guarantees.
 */
module Sorting {

  /** `le` is total and transitive: a key order. */
  ghost predicate IsKeyOrder<T(!new)>(le: (T, T) -> bool) {
    (forall a, b :: le(a, b) || le(b, a))
    && (forall a, b, c :: le(a, b) && le(b, c) ==> le(a, c))
  }

  predicate SortedBy<T>(s: seq<T>, le: (T, T) -> bool) {
    forall i, j :: 0 <= i < j < |s| ==> le(s[i], s[j])
  }

  /** `a` and `b` have the same key. */
  predicate SameKey<T>(le: (T, T) -> bool, a: T, b: T) {
    le(a, b) && le(b, a)
  }

  /** The rows of `s` whose key is the key of `x`, in the order of `s`. */
  function WithKeyOf<T>(s: seq<T>, le: (T, T) -> bool, x: T): (r: seq<T>)
    ensures |r| <= |s|
    ensures forall y :: y in r ==> y in s && SameKey(le, y, x)
  {
    if s == [] then []
    else if SameKey(le, s[0], x) then [s[0]] + WithKeyOf(s[1..], le, x)
    else WithKeyOf(s[1..], le, x)
  }

  /** `x` placed in front of the first row of `s` it does not come after. */
  function Insert<T>(x: T, s: seq<T>, le: (T, T) -> bool): (r: seq<T>)
    ensures multiset(r) == multiset(s) + multiset{x}
    ensures |r| == |s| + 1
  {
    if s == [] || le(x, s[0]) then [x] + s
    else
      assert s == [s[0]] + s[1..];
      [s[0]] + Insert(x, s[1..], le)
  }

  function SortBy<T>(s: seq<T>, le: (T, T) -> bool): (r: seq<T>)
    ensures multiset(r) == multiset(s)
    ensures |r| == |s|
  {
    if s == [] then []
    else
      assert s == [s[0]] + s[1..];
      Insert(s[0], SortBy(s[1..], le), le)
  }

  lemma {:induction false} InsertSorted<T(!new)>(x: T, s: seq<T>, le: (T, T) -> bool)
    requires IsKeyOrder(le) && SortedBy(s, le)
    ensures SortedBy(Insert(x, s, le), le)
  {
    if s != [] && !le(x, s[0]) {
      InsertSorted(x, s[1..], le);
      var r := Insert(x, s, le);
      var t := Insert(x, s[1..], le);
      assert r == [s[0]] + t;
      forall j | 0 < j < |r| ensures le(r[0], r[j]) {
        assert r[j] in multiset(t);
        assert r[j] == x || r[j] in multiset(s[1..]);
        if r[j] != x {
          var k :| 0 <= k < |s[1..]| && s[1..][k] == r[j];
          assert s[1..][k] == s[k + 1];
        }
      }
    }
  }

  /** The sort orders the rows by the key and is a permutation of its input. */
  lemma {:induction false} SortBySorted<T(!new)>(s: seq<T>, le: (T, T) -> bool)
    requires IsKeyOrder(le)
    ensures SortedBy(SortBy(s, le), le) && multiset(SortBy(s, le)) == multiset(s)
  {
    if s != [] {
      SortBySorted(s[1..], le);
      InsertSorted(s[0], SortBy(s[1..], le), le);
    }
  }

  lemma {:induction false} InsertKeepsKeyOrder<T(!new)>(x: T, s: seq<T>, le: (T, T) -> bool, y: T)
    requires IsKeyOrder(le) && SortedBy(s, le)
    ensures WithKeyOf(Insert(x, s, le), le, y)
            == (if SameKey(le, x, y) then [x] else []) + WithKeyOf(s, le, y)
  {
    if s == [] || le(x, s[0]) {
      assert Insert(x, s, le) == [x] + s;
      assert ([x] + s)[1..] == s;
    } else {
      InsertKeepsKeyOrder(x, s[1..], le, y);
      var t := Insert(x, s[1..], le);
      assert ([s[0]] + t)[1..] == t;
      if SameKey(le, x, y) && SameKey(le, s[0], y) {
        // s[0] and x share y's key, yet x does not come before s[0]: impossible for a key order
        assert false;
      }
    }
  }

  /**
   * Stability: for every key, the rows with that key come out in the order they went in.
   */
  lemma {:induction false} SortByStable<T(!new)>(s: seq<T>, le: (T, T) -> bool, y: T)
    requires IsKeyOrder(le)
    ensures WithKeyOf(SortBy(s, le), le, y) == WithKeyOf(s, le, y)
  {
    if s != [] {
      SortByStable(s[1..], le, y);
      SortBySorted(s[1..], le);
      InsertKeepsKeyOrder(s[0], SortBy(s[1..], le), le, y);
    }
  }
}
