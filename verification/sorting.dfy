/**
 * Python's `sorted(xs, key=...)` for the two keys the scripts sort by: a
 * preset's name (a string) and a file path (Python orders `Path` objects by
 * their list of components).  Both are modelled as a sequence of strings
 * compared lexicographically; a name is the one-component sequence.
 *
 * `sorted` is stable, and so is the insertion sort below.
 */
module Sorting {
  import opened Text

  /** Lexicographic order on sequences of strings, each compared by code point. */
  predicate PartsLess(a: seq<string>, b: seq<string>) {
    if |a| == 0 then |b| > 0
    else if |b| == 0 then false
    else if a[0] != b[0] then StrLess(a[0], b[0])
    else PartsLess(a[1..], b[1..])
  }

  predicate PartsLessEq(a: seq<string>, b: seq<string>) {
    a == b || PartsLess(a, b)
  }

  lemma PartsLessOfNames(a: string, b: string)
    ensures PartsLess([a], [b]) <==> StrLess(a, b)
  {
    assert [a][1..] == [] && [b][1..] == [];
    if a == b {
      StrLessIrreflexive(a);
    }
  }

  lemma {:induction false} PartsLessIrreflexive(a: seq<string>)
    ensures !PartsLess(a, a)
  {
    if |a| > 0 {
      PartsLessIrreflexive(a[1..]);
    }
  }

  lemma {:induction false} PartsLessTransitive(a: seq<string>, b: seq<string>, c: seq<string>)
    requires PartsLess(a, b) && PartsLess(b, c)
    ensures PartsLess(a, c)
  {
    if |a| > 0 && |b| > 0 && |c| > 0 {
      if a[0] == b[0] && b[0] == c[0] {
        PartsLessTransitive(a[1..], b[1..], c[1..]);
      } else if a[0] != b[0] && b[0] != c[0] {
        StrLessTransitive(a[0], b[0], c[0]);
        if a[0] == c[0] {
          StrLessAsymmetric(a[0], b[0]);
        }
      }
    }
  }

  lemma {:induction false} PartsLessTotal(a: seq<string>, b: seq<string>)
    ensures a == b || PartsLess(a, b) || PartsLess(b, a)
  {
    if |a| > 0 && |b| > 0 {
      if a[0] == b[0] {
        PartsLessTotal(a[1..], b[1..]);
        if a[1..] == b[1..] {
          assert a == [a[0]] + a[1..];
          assert b == [b[0]] + b[1..];
        }
      } else {
        StrLessTotal(a[0], b[0]);
      }
    }
  }

  lemma PartsLessEqTransitive(a: seq<string>, b: seq<string>, c: seq<string>)
    requires PartsLessEq(a, b) && PartsLessEq(b, c)
    ensures PartsLessEq(a, c)
  {
    if PartsLess(a, b) && PartsLess(b, c) {
      PartsLessTransitive(a, b, c);
    }
  }

  /** Each element's key is no greater than its successor's. */
  ghost predicate SortedBy<T>(s: seq<T>, key: T -> seq<string>) {
    forall i :: 0 <= i < |s| - 1 ==> PartsLessEq(key(s[i]), key(s[i + 1]))
  }

  /** The elements whose key is `k`, in their order in `s`. */
  function WithKey<T>(s: seq<T>, key: T -> seq<string>, k: seq<string>): seq<T> {
    if |s| == 0 then []
    else (if key(s[0]) == k then [s[0]] else []) + WithKey(s[1..], key, k)
  }

  /** Insert `x` before the first element whose key is not smaller than its own. */
  function Insert<T>(x: T, s: seq<T>, key: T -> seq<string>): (r: seq<T>)
    ensures |r| == |s| + 1
    ensures r[0] == x || (|s| > 0 && r[0] == s[0])
  {
    if |s| == 0 then [x]
    else if PartsLessEq(key(x), key(s[0])) then [x] + s
    else [s[0]] + Insert(x, s[1..], key)
  }

  /** `sorted(xs, key=key)`. */
  function SortBy<T>(xs: seq<T>, key: T -> seq<string>): (r: seq<T>)
    ensures |r| == |xs|
  {
    if |xs| == 0 then [] else Insert(xs[0], SortBy(xs[1..], key), key)
  }

  lemma {:induction false} InsertSorted<T>(x: T, s: seq<T>, key: T -> seq<string>)
    requires SortedBy(s, key)
    ensures SortedBy(Insert(x, s, key), key)
    ensures multiset(Insert(x, s, key)) == multiset(s) + multiset{x}
  {
    if |s| > 0 && !PartsLessEq(key(x), key(s[0])) {
      var t := Insert(x, s[1..], key);
      assert SortedBy(s[1..], key) by {
        forall i | 0 <= i < |s[1..]| - 1
          ensures PartsLessEq(key(s[1..][i]), key(s[1..][i + 1]))
        {
          assert s[1..][i] == s[i + 1] && s[1..][i + 1] == s[i + 2];
        }
      }
      InsertSorted(x, s[1..], key);
      PartsLessTotal(key(x), key(s[0]));
      var r := [s[0]] + t;
      forall i | 0 <= i < |r| - 1 ensures PartsLessEq(key(r[i]), key(r[i + 1])) {
        if i > 0 {
          assert r[i] == t[i - 1] && r[i + 1] == t[i];
        }
      }
      assert s == [s[0]] + s[1..];
    }
  }

  lemma {:induction false} InsertWithKey<T>(x: T, s: seq<T>, key: T -> seq<string>, k: seq<string>)
    ensures WithKey(Insert(x, s, key), key, k) == (if key(x) == k then [x] else []) + WithKey(s, key, k)
  {
    if |s| > 0 && !PartsLessEq(key(x), key(s[0])) {
      InsertWithKey(x, s[1..], key, k);
      var r := [s[0]] + Insert(x, s[1..], key);
      assert r[1..] == Insert(x, s[1..], key);
      PartsLessTotal(key(x), key(s[0]));
      if key(x) == k {
        PartsLessIrreflexive(k);
        assert key(s[0]) != k;
      }
    } else if |s| > 0 {
      var r := [x] + s;
      assert r[1..] == s;
    }
  }

  /**
   * `SortBy` orders by key, keeps every element, and keeps elements with
   * equal keys in their original relative order: the three properties that
   * pin down Python's stable `sorted`.
   */
  lemma {:induction false} SortByCorrect<T>(xs: seq<T>, key: T -> seq<string>)
    ensures SortedBy(SortBy(xs, key), key)
    ensures multiset(SortBy(xs, key)) == multiset(xs)
    ensures forall k :: WithKey(SortBy(xs, key), key, k) == WithKey(xs, key, k)
  {
    if |xs| > 0 {
      SortByCorrect(xs[1..], key);
      InsertSorted(xs[0], SortBy(xs[1..], key), key);
      assert xs == [xs[0]] + xs[1..];
      forall k ensures WithKey(SortBy(xs, key), key, k) == WithKey(xs, key, k) {
        InsertWithKey(xs[0], SortBy(xs[1..], key), key, k);
      }
    }
  }

  /** Sortedness between neighbours extends to every pair of positions. */
  lemma {:induction false} SortedByPairwise<T>(s: seq<T>, key: T -> seq<string>, i: nat, j: nat)
    requires SortedBy(s, key) && i <= j < |s|
    ensures PartsLessEq(key(s[i]), key(s[j]))
    decreases j - i
  {
    if i < j {
      SortedByPairwise(s, key, i + 1, j);
      PartsLessEqTransitive(key(s[i]), key(s[i + 1]), key(s[j]));
    }
  }
}
