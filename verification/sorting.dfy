/**
 * The stable sorts behind LINQ's `OrderBy(key)` and `OrderByDescending(key)`: elements with
 * equal keys keep their input order.
 */
module Sorting {

  predicate Ascending<T>(s: seq<T>, key: T -> int) {
    forall i, j :: 0 <= i < j < |s| ==> key(s[i]) <= key(s[j])
  }

  predicate Descending<T>(s: seq<T>, key: T -> int) {
    forall i, j :: 0 <= i < j < |s| ==> key(s[i]) >= key(s[j])
  }

  lemma ConsAscending<T>(y: T, s: seq<T>, key: T -> int)
    requires Ascending(s, key) && (s == [] || key(y) <= key(s[0]))
    ensures Ascending([y] + s, key)
  {
    var r := [y] + s;
    forall i, j | 0 <= i < j < |r| ensures key(r[i]) <= key(r[j]) {
      assert r[j] == s[j - 1];
      if i > 0 {
        assert r[i] == s[i - 1];
      }
    }
  }

  lemma ConsDescending<T>(y: T, s: seq<T>, key: T -> int)
    requires Descending(s, key) && (s == [] || key(y) >= key(s[0]))
    ensures Descending([y] + s, key)
  {
    var r := [y] + s;
    forall i, j | 0 <= i < j < |r| ensures key(r[i]) >= key(r[j]) {
      assert r[j] == s[j - 1];
      if i > 0 {
        assert r[i] == s[i - 1];
      }
    }
  }

  /** The elements of `s` whose key is `k`, in their order in `s`. */
  function Filter<T>(s: seq<T>, key: T -> int, k: int): seq<T>
    decreases |s|
  {
    if s == [] then [] else (if key(s[0]) == k then [s[0]] else []) + Filter(s[1..], key, k)
  }

  /** Filtering a sequence with a head: the head if its key is `k`, then the tail filtered. */
  lemma FilterCons<T>(x: T, s: seq<T>, key: T -> int, k: int)
    ensures Filter([x] + s, key, k) == (if key(x) == k then [x] else []) + Filter(s, key, k)
  {
    assert ([x] + s)[1..] == s;
  }

  /** Putting back the head of `s` in front of `x`'s insertion into the tail. */
  lemma FilterBehind<T>(s: seq<T>, x: T, rest: seq<T>, key: T -> int, k: int)
    requires s != [] && Filter(rest, key, k) == (if key(x) == k then [x] else []) + Filter(s[1..], key, k)
    requires key(s[0]) != key(x)
    ensures Filter([s[0]] + rest, key, k) == (if key(x) == k then [x] else []) + Filter(s, key, k)
  {
    FilterCons(s[0], rest, key, k);
  }

  /**
   * Puts `x` in front of the first element whose key is not smaller: after those with a smaller
   * key, before those with an equal one.
   */
  function InsertAscending<T>(x: T, s: seq<T>, key: T -> int): (r: seq<T>)
    requires Ascending(s, key)
    ensures Ascending(r, key)
    ensures multiset(r) == multiset(s) + multiset{x}
    ensures r[0] == x || (s != [] && r[0] == s[0])
  {
    if s == [] then [x]
    else if key(x) <= key(s[0]) then [x] + s
    else
      var rest := InsertAscending(x, s[1..], key);
      assert s == [s[0]] + s[1..];
      ConsAscending(s[0], rest, key);
      [s[0]] + rest
  }

  /** Inserting `x` keeps the elements of each key in order, with `x` ahead of those sharing its key. */
  lemma {:induction false} InsertAscendingStable<T>(x: T, s: seq<T>, key: T -> int, k: int)
    requires Ascending(s, key)
    ensures Filter(InsertAscending(x, s, key), key, k) == (if key(x) == k then [x] else []) + Filter(s, key, k)
  {
    if s == [] || key(x) <= key(s[0]) {
      InsertAscendingFront(x, s, key, k);
    } else {
      InsertAscendingStable(x, s[1..], key, k);
      InsertAscendingBehind(x, s, key, k);
    }
  }

  /** The case where `x` goes in front. */
  lemma InsertAscendingFront<T>(x: T, s: seq<T>, key: T -> int, k: int)
    requires Ascending(s, key) && (s == [] || key(x) <= key(s[0]))
    ensures Filter(InsertAscending(x, s, key), key, k) == (if key(x) == k then [x] else []) + Filter(s, key, k)
  {
    assert InsertAscending(x, s, key) == [x] + s;
    FilterCons(x, s, key, k);
  }

  /** The case where `x` goes behind the head, given the tail's case. */
  lemma InsertAscendingBehind<T>(x: T, s: seq<T>, key: T -> int, k: int)
    requires Ascending(s, key) && s != [] && key(s[0]) < key(x)
    requires Filter(InsertAscending(x, s[1..], key), key, k) == (if key(x) == k then [x] else []) + Filter(s[1..], key, k)
    ensures Filter(InsertAscending(x, s, key), key, k) == (if key(x) == k then [x] else []) + Filter(s, key, k)
  {
    var rest := InsertAscending(x, s[1..], key);
    assert InsertAscending(x, s, key) == [s[0]] + rest;
    FilterBehind(s, x, rest, key, k);
  }

  /** `OrderBy(key)`: a stable permutation of `s` in ascending key order. */
  function SortAscending<T>(s: seq<T>, key: T -> int): (r: seq<T>)
    ensures Ascending(r, key)
    ensures multiset(r) == multiset(s)
    ensures |r| == |s|
    ensures forall k :: Filter(r, key, k) == Filter(s, key, k)
  {
    if s == [] then []
    else
      assert s == [s[0]] + s[1..];
      var r := InsertAscending(s[0], SortAscending(s[1..], key), key);
      forall k ensures Filter(r, key, k) == Filter(s, key, k) {
        InsertAscendingStable(s[0], SortAscending(s[1..], key), key, k);
        FilterCons(s[0], s[1..], key, k);
      }
      r
  }

  /**
   * Puts `x` in front of the first element whose key is not greater: after those with a greater
   * key, before those with an equal one.
   */
  function InsertDescending<T>(x: T, s: seq<T>, key: T -> int): (r: seq<T>)
    requires Descending(s, key)
    ensures Descending(r, key)
    ensures multiset(r) == multiset(s) + multiset{x}
    ensures r[0] == x || (s != [] && r[0] == s[0])
  {
    if s == [] then [x]
    else if key(s[0]) <= key(x) then [x] + s
    else
      var rest := InsertDescending(x, s[1..], key);
      assert s == [s[0]] + s[1..];
      ConsDescending(s[0], rest, key);
      [s[0]] + rest
  }

  /** Inserting `x` keeps the elements of each key in order, with `x` ahead of those sharing its key. */
  lemma {:induction false} InsertDescendingStable<T>(x: T, s: seq<T>, key: T -> int, k: int)
    requires Descending(s, key)
    ensures Filter(InsertDescending(x, s, key), key, k) == (if key(x) == k then [x] else []) + Filter(s, key, k)
  {
    if s == [] || key(s[0]) <= key(x) {
      InsertDescendingFront(x, s, key, k);
    } else {
      InsertDescendingStable(x, s[1..], key, k);
      InsertDescendingBehind(x, s, key, k);
    }
  }

  /** The case where `x` goes in front. */
  lemma InsertDescendingFront<T>(x: T, s: seq<T>, key: T -> int, k: int)
    requires Descending(s, key) && (s == [] || key(s[0]) <= key(x))
    ensures Filter(InsertDescending(x, s, key), key, k) == (if key(x) == k then [x] else []) + Filter(s, key, k)
  {
    assert InsertDescending(x, s, key) == [x] + s;
    FilterCons(x, s, key, k);
  }

  /** The case where `x` goes behind the head, given the tail's case. */
  lemma InsertDescendingBehind<T>(x: T, s: seq<T>, key: T -> int, k: int)
    requires Descending(s, key) && s != [] && key(x) < key(s[0])
    requires Filter(InsertDescending(x, s[1..], key), key, k) == (if key(x) == k then [x] else []) + Filter(s[1..], key, k)
    ensures Filter(InsertDescending(x, s, key), key, k) == (if key(x) == k then [x] else []) + Filter(s, key, k)
  {
    var rest := InsertDescending(x, s[1..], key);
    assert InsertDescending(x, s, key) == [s[0]] + rest;
    FilterBehind(s, x, rest, key, k);
  }

  /** `OrderByDescending(key)`: a stable permutation of `s` in descending key order. */
  function SortDescending<T>(s: seq<T>, key: T -> int): (r: seq<T>)
    ensures Descending(r, key)
    ensures multiset(r) == multiset(s)
    ensures |r| == |s|
    ensures forall k :: Filter(r, key, k) == Filter(s, key, k)
  {
    if s == [] then []
    else
      assert s == [s[0]] + s[1..];
      var r := InsertDescending(s[0], SortDescending(s[1..], key), key);
      forall k ensures Filter(r, key, k) == Filter(s, key, k) {
        InsertDescendingStable(s[0], SortDescending(s[1..], key), key, k);
        FilterCons(s[0], s[1..], key, k);
      }
      r
  }
}
