/**
 * Ordering by an integer sort key, as the database does for `.sort({ field: 1 })`.
 * A descending sort is an ascending sort on the negated key.
 */
module Sorting {

  /** `s` is in ascending order of `key`. */
  ghost predicate Ascending<T>(s: seq<T>, key: T -> int) {
    forall i, j :: 0 <= i < j < |s| ==> key(s[i]) <= key(s[j])
  }

  /** Insert `x` into `s` in front of the first element whose key is not smaller than `x`'s. */
  function InsertByKey<T>(x: T, s: seq<T>, key: T -> int): (r: seq<T>)
    ensures multiset(r) == multiset(s) + multiset{x}
  {
    if s == [] || key(x) <= key(s[0]) then
      [x] + s
    else
      assert s == [s[0]] + s[1..];
      [s[0]] + InsertByKey(x, s[1..], key)
  }

  /** Inserting into an ascending sequence keeps it ascending. */
  lemma {:induction false} InsertKeepsAscending<T>(x: T, s: seq<T>, key: T -> int)
    requires Ascending(s, key)
    ensures Ascending(InsertByKey(x, s, key), key)
  {
    if s != [] && key(x) > key(s[0]) {
      var rest := InsertByKey(x, s[1..], key);
      InsertKeepsAscending(x, s[1..], key);
      forall y | y in rest ensures key(s[0]) <= key(y) {
        assert y in multiset(rest);
        if y != x {
          assert y in multiset(s[1..]);
          var k :| 0 <= k < |s[1..]| && s[1..][k] == y;
          assert s[k + 1] == y;
        }
      }
      var r := [s[0]] + rest;
      forall i, j | 0 <= i < j < |r| ensures key(r[i]) <= key(r[j]) {
        if i == 0 {
          assert r[j] in rest;
        } else {
          assert r[i] == rest[i - 1] && r[j] == rest[j - 1];
        }
      }
    }
  }

  /**
   * Stable insertion sort: elements with equal keys keep their input order.
   * The result is an ascending permutation of the input.
   */
  function SortByKey<T>(s: seq<T>, key: T -> int): (r: seq<T>)
    ensures multiset(r) == multiset(s)
    ensures Ascending(r, key)
  {
    if s == [] then []
    else
      assert s == [s[0]] + s[1..];
      var sortedTail := SortByKey(s[1..], key);
      InsertKeepsAscending(s[0], sortedTail, key);
      InsertByKey(s[0], sortedTail, key)
  }

  /**
   * Two ascending permutations of the same elements are the same sequence when no two
   * distinct elements share a key: the sort result is then independent of tie handling.
   */
  lemma {:induction false} AscendingPermutationUnique<T>(a: seq<T>, b: seq<T>, key: T -> int)
    requires multiset(a) == multiset(b)
    requires Ascending(a, key) && Ascending(b, key)
    requires forall x, y :: x in a && y in a && key(x) == key(y) ==> x == y
    ensures a == b
  {
    assert |a| == |multiset(a)| == |multiset(b)| == |b|;
    if a != [] {
      assert a[0] in multiset(b);
      assert b[0] in multiset(a);
      var i :| 0 <= i < |b| && b[i] == a[0];
      var j :| 0 <= j < |a| && a[j] == b[0];
      assert key(a[0]) <= key(a[j]);
      assert key(b[0]) <= key(b[i]);
      assert a[0] == b[0];
      assert a == [a[0]] + a[1..];
      assert b == [b[0]] + b[1..];
      assert multiset(a) == multiset{a[0]} + multiset(a[1..]);
      assert multiset(b) == multiset{b[0]} + multiset(b[1..]);
      assert forall x :: multiset(a[1..])[x] == multiset(a)[x] - multiset{a[0]}[x];
      assert multiset(a[1..]) == multiset(b[1..]);
      AscendingPermutationUnique(a[1..], b[1..], key);
    }
  }
}
