/**
 * Ordinal (character-code) ordering of strings: the order in which the table service compares
 * and returns row keys within a partition, and in which the blob service lists blob names.
 */
module Ordinal {

  /** `a` sorts strictly before `b`: first differing character smaller, or `a` a proper prefix of `b`. */
  predicate Less(a: string, b: string)
    decreases |a|
  {
    if a == [] then b != []
    else if b == [] then false
    else if a[0] == b[0] then Less(a[1..], b[1..])
    else a[0] < b[0]
  }

  predicate LessEq(a: string, b: string) {
    a == b || Less(a, b)
  }

  lemma LessIrreflexive(a: string)
    ensures !Less(a, a)
  {
  }

  lemma LessTransitive(a: string, b: string, c: string)
    requires Less(a, b) && Less(b, c)
    ensures Less(a, c)
  {
    if a != [] && b != [] && c != [] && a[0] == b[0] && b[0] == c[0] {
      LessTransitive(a[1..], b[1..], c[1..]);
    }
  }

  lemma LessTotal(a: string, b: string)
    ensures a == b || Less(a, b) || Less(b, a)
  {
    if a != [] && b != [] && a[0] == b[0] {
      LessTotal(a[1..], b[1..]);
      if a[1..] == b[1..] {
        assert a == [a[0]] + a[1..] && b == [b[0]] + b[1..];
      }
    }
  }

  lemma LessAsymmetric(a: string, b: string)
    requires Less(a, b)
    ensures !Less(b, a) && a != b
  {
    if a != [] && b != [] && a[0] == b[0] {
      LessAsymmetric(a[1..], b[1..]);
    }
  }

  /** `a` and `b` share the first `n` characters and `a[n] < b[n]`: then `a` sorts first. */
  lemma LessAtFirstDifference(a: string, b: string, n: nat)
    requires n < |a| && n < |b| && a[..n] == b[..n] && a[n] < b[n]
    ensures Less(a, b)
  {
    if n > 0 {
      assert a[0] == a[..n][0] == b[..n][0] == b[0];
      assert a[1..][..n - 1] == a[1..n] == a[..n][1..];
      assert b[1..][..n - 1] == b[1..n] == b[..n][1..];
      LessAtFirstDifference(a[1..], b[1..], n - 1);
    }
  }

  /** A common prefix does not change the order. */
  lemma LessCommonPrefix(p: string, a: string, b: string)
    ensures Less(p + a, p + b) == Less(a, b)
  {
    if p != [] {
      assert (p + a)[0] == (p + b)[0] == p[0];
      assert (p + a)[1..] == p[1..] + a && (p + b)[1..] == p[1..] + b;
      LessCommonPrefix(p[1..], a, b);
    } else {
      assert p + a == a && p + b == b;
    }
  }

  predicate IsMin(m: string, s: set<string>) {
    m in s && forall k :: k in s ==> LessEq(m, k)
  }

  lemma MinExists(s: set<string>)
    requires s != {}
    ensures exists m :: IsMin(m, s)
    decreases |s|
  {
    var x :| x in s;
    if s - {x} == {} {
      assert s == {x};
      assert IsMin(x, s);
    } else {
      MinExists(s - {x});
      var m :| IsMin(m, s - {x});
      LessTotal(m, x);
      if Less(x, m) {
        forall k | k in s ensures LessEq(x, k) {
          if k != x {
            assert LessEq(m, k);
            if m != k { LessTransitive(x, m, k); }
          }
        }
        assert IsMin(x, s);
      } else {
        assert IsMin(m, s);
      }
    }
  }

  lemma MinUnique(s: set<string>, m1: string, m2: string)
    requires IsMin(m1, s) && IsMin(m2, s)
    ensures m1 == m2
  {
    if m1 != m2 {
      assert Less(m1, m2) && Less(m2, m1);
      LessAsymmetric(m1, m2);
    }
  }

  predicate StrictlyAscending(r: seq<string>) {
    forall i, j :: 0 <= i < j < |r| ==> Less(r[i], r[j])
  }

  /** The elements of `s` in ascending ordinal order, each once. */
  function SortedKeys(s: set<string>): (r: seq<string>)
    ensures StrictlyAscending(r)
    ensures forall k :: k in r <==> k in s
    ensures |r| == |s|
    decreases |s|
  {
    if s == {} then []
    else
      MinExists(s);
      forall m1, m2 | IsMin(m1, s) && IsMin(m2, s) ensures m1 == m2 { MinUnique(s, m1, m2); }
      var m :| IsMin(m, s);
      var rest := SortedKeys(s - {m});
      MinThenAscending(m, s, rest);
      [m] + rest
  }

  /** The minimum of `s` before the other elements of `s` in strictly ascending order. */
  lemma MinThenAscending(m: string, s: set<string>, rest: seq<string>)
    requires IsMin(m, s) && StrictlyAscending(rest) && forall k :: k in rest <==> k in s - {m}
    ensures StrictlyAscending([m] + rest)
    ensures forall k :: k in [m] + rest <==> k in s
  {
    var r := [m] + rest;
    forall i, j | 0 <= i < j < |r| ensures Less(r[i], r[j]) {
      assert r[j] == rest[j - 1] && r[j] in s - {m};
      if i > 0 {
        assert r[i] == rest[i - 1];
      }
    }
  }
}
