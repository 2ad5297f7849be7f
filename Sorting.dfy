/**
 * `Array.prototype.sort` with a comparator `(a, b) => key(b) - key(a)`: a
 * stable sort into non-increasing key order (ECMAScript 2019 requires the
 * sort to be stable). Both scripts use it: seed-data.js on the county
 * records by remote-work score, find-unnamed-providers.js on the provider
 * groups by frequency.
 */
module Sorting {

  /** Keys never increase along `s`. */
  predicate SortedDesc<T>(s: seq<T>, key: T -> int) {
    forall i, j :: 0 <= i < j < |s| ==> key(s[i]) >= key(s[j])
  }

  /** The elements of `s` whose key is `k`, in their order in `s`. */
  function WithKey<T>(s: seq<T>, key: T -> int, k: int): seq<T> {
    if s == [] then [] else (if key(s[0]) == k then [s[0]] else []) + WithKey(s[1..], key, k)
  }

  /** Puts `x`, which came before every element of `t`, in front of the first element whose key is not above its own. */
  function InsertDesc<T>(x: T, t: seq<T>, key: T -> int): seq<T> {
    if t == [] || key(t[0]) <= key(x) then [x] + t else [t[0]] + InsertDesc(x, t[1..], key)
  }

  /** The stable sort by non-increasing key, as an insertion sort from the back. */
  function SortDesc<T>(s: seq<T>, key: T -> int): seq<T> {
    if s == [] then [] else InsertDesc(s[0], SortDesc(s[1..], key), key)
  }

  lemma {:induction false} InsertDescShape<T>(x: T, t: seq<T>, key: T -> int)
    ensures |InsertDesc(x, t, key)| == |t| + 1
    ensures InsertDesc(x, t, key)[0] == x || InsertDesc(x, t, key)[0] == t[0]
    decreases |t|
  {
    if t != [] && key(t[0]) > key(x) {
      InsertDescShape(x, t[1..], key);
    }
  }

  lemma {:induction false} InsertDescSorted<T>(x: T, t: seq<T>, key: T -> int)
    requires SortedDesc(t, key)
    ensures SortedDesc(InsertDesc(x, t, key), key)
    decreases |t|
  {
    var r := InsertDesc(x, t, key);
    if t == [] || key(t[0]) <= key(x) {
      forall i, j | 0 <= i < j < |r| ensures key(r[i]) >= key(r[j]) {
        if i == 0 { assert r[j] == t[j - 1]; }
      }
    } else {
      InsertDescSorted(x, t[1..], key);
      InsertDescShape(x, t[1..], key);
      var u := InsertDesc(x, t[1..], key);
      assert key(t[0]) >= key(u[0]);
      forall i, j | 0 <= i < j < |r| ensures key(r[i]) >= key(r[j]) {
        if i == 0 {
          assert r[j] == u[j - 1];
          if j > 1 { assert key(u[0]) >= key(u[j - 1]); }
        } else {
          assert r[i] == u[i - 1] && r[j] == u[j - 1];
        }
      }
    }
  }

  lemma {:induction false} InsertDescPermutes<T>(x: T, t: seq<T>, key: T -> int)
    ensures multiset(InsertDesc(x, t, key)) == multiset(t) + multiset{x}
    decreases |t|
  {
    if t != [] && key(t[0]) > key(x) {
      InsertDescPermutes(x, t[1..], key);
      assert t == [t[0]] + t[1..];
    }
  }

  lemma {:induction false} InsertDescWithKey<T>(x: T, t: seq<T>, key: T -> int, k: int)
    requires SortedDesc(t, key)
    ensures WithKey(InsertDesc(x, t, key), key, k) == (if key(x) == k then [x] else []) + WithKey(t, key, k)
    decreases |t|
  {
    var mine: seq<T> := if key(x) == k then [x] else [];
    if t != [] && key(t[0]) > key(x) {
      assert SortedDesc(t[1..], key) by {
        forall i, j | 0 <= i < j < |t[1..]| ensures key(t[1..][i]) >= key(t[1..][j]) {
          assert t[1..][i] == t[i + 1] && t[1..][j] == t[j + 1];
        }
      }
      InsertDescWithKey(x, t[1..], key, k);
      var u := InsertDesc(x, t[1..], key);
      var r := [t[0]] + u;
      assert r[0] == t[0] && r[1..] == u;
      var head: seq<T> := if key(t[0]) == k then [t[0]] else [];
      assert WithKey(r, key, k) == head + WithKey(u, key, k);
      assert WithKey(t, key, k) == head + WithKey(t[1..], key, k);
      if key(x) == k {
        // `t[0]` outranks `x`, so it does not carry its key
        assert head == [];
        assert WithKey(r, key, k) == mine + WithKey(t[1..], key, k);
      } else {
        assert mine == [];
        assert WithKey(r, key, k) == head + WithKey(t[1..], key, k);
      }
    } else {
      var r := [x] + t;
      assert r[0] == x && r[1..] == t;
      assert WithKey(r, key, k) == mine + WithKey(t, key, k);
    }
  }

  /**
   * The sort is correct and stable: keys never increase, the result is a
   * permutation of the input, and the elements sharing a key keep their
   * input order.
   */
  lemma {:induction false} SortDescCorrect<T>(s: seq<T>, key: T -> int)
    ensures SortedDesc(SortDesc(s, key), key)
    ensures multiset(SortDesc(s, key)) == multiset(s)
    ensures forall k :: WithKey(SortDesc(s, key), key, k) == WithKey(s, key, k)
  {
    if s != [] {
      SortDescCorrect(s[1..], key);
      InsertDescSorted(s[0], SortDesc(s[1..], key), key);
      InsertDescPermutes(s[0], SortDesc(s[1..], key), key);
      forall k ensures WithKey(SortDesc(s, key), key, k) == WithKey(s, key, k) {
        InsertDescWithKey(s[0], SortDesc(s[1..], key), key, k);
      }
      assert s == [s[0]] + s[1..];
    }
  }

  /** The sum of the keys of `s`. */
  function KeySum<T>(s: seq<T>, key: T -> int): int {
    if s == [] then 0 else key(s[0]) + KeySum(s[1..], key)
  }

  lemma {:induction false} InsertDescKeySum<T>(x: T, t: seq<T>, key: T -> int)
    ensures KeySum(InsertDesc(x, t, key), key) == key(x) + KeySum(t, key)
    decreases |t|
  {
    if t != [] && key(t[0]) > key(x) {
      InsertDescKeySum(x, t[1..], key);
      var r := InsertDesc(x, t, key);
      assert r[0] == t[0] && r[1..] == InsertDesc(x, t[1..], key);
    }
  }

  /** Sorting does not change the sum of the keys. */
  lemma {:induction false} SortDescKeySum<T>(s: seq<T>, key: T -> int)
    ensures KeySum(SortDesc(s, key), key) == KeySum(s, key)
  {
    if s != [] {
      SortDescKeySum(s[1..], key);
      InsertDescKeySum(s[0], SortDesc(s[1..], key), key);
    }
  }

  /** No value occurs twice in `s`. */
  ghost predicate AllDistinct<T>(s: seq<T>) {
    forall i, j :: 0 <= i < j < |s| ==> s[i] != s[j]
  }

  /** A duplicate-free sequence holds each value at most once. */
  lemma {:induction false} DistinctCounts<T>(s: seq<T>)
    requires AllDistinct(s)
    ensures forall x :: multiset(s)[x] <= 1
  {
    if s != [] {
      DistinctCounts(s[1..]);
      assert s == [s[0]] + s[1..];
      assert s[0] !in s[1..];
    }
  }

  /** A permutation of a duplicate-free sequence is duplicate-free. */
  lemma PermutationDistinct<T>(s: seq<T>, r: seq<T>)
    requires AllDistinct(s) && multiset(r) == multiset(s)
    ensures AllDistinct(r)
  {
    DistinctCounts(s);
    forall i, j | 0 <= i < j < |r| ensures r[i] != r[j] {
      assert r == r[..j] + r[j..];
      assert r[i] in multiset(r[..j]) && r[j] in multiset(r[j..]);
      assert multiset(r)[r[j]] == multiset(r[..j])[r[j]] + multiset(r[j..])[r[j]];
    }
  }

  /** The insertion point: `x` lands after the leading elements whose key is above its own. */
  lemma {:induction false} InsertDescAt<T>(x: T, t: seq<T>, m: nat, key: T -> int)
    requires m <= |t|
    requires forall q :: 0 <= q < m ==> key(t[q]) > key(x)
    requires m == |t| || key(t[m]) <= key(x)
    ensures InsertDesc(x, t, key) == t[..m] + [x] + t[m..]
    decreases m
  {
    if m > 0 {
      InsertDescAt(x, t[1..], m - 1, key);
      assert t[1..][..m - 1] == t[1..m];
      assert t[1..][m - 1..] == t[m..];
      assert t[..m] == [t[0]] + t[1..m];
    }
  }

  /** Moves `a[i]` rightwards past the elements after it whose key is above its own. */
  method InsertInPlace<T>(a: array<T>, i: nat, key: T -> int)
    requires i < a.Length
    modifies a
    ensures a[..i] == old(a[..i])
    ensures a[i..] == InsertDesc(old(a[i]), old(a[i + 1..]), key)
  {
    ghost var t := a[i + 1..];
    var x := a[i];
    var j := i;
    while j + 1 < a.Length && key(a[j + 1]) > key(x)
      invariant i <= j < a.Length
      invariant a[..i] == old(a[..i])
      invariant a[i..j] == t[..j - i]
      invariant a[j + 1..] == t[j - i..]
      invariant forall q :: 0 <= q < j - i ==> key(t[q]) > key(x)
    {
      a[j] := a[j + 1];
      j := j + 1;
    }
    a[j] := x;
    InsertDescAt(x, t, j - i, key);
    assert a[i..] == a[i..j] + [x] + a[j + 1..];
  }

  /** `a.sort((x, y) => key(y) - key(x))`, as an in-place insertion sort. */
  method SortInPlace<T>(a: array<T>, key: T -> int)
    modifies a
    ensures a[..] == SortDesc(old(a[..]), key)
  {
    ghost var s := a[..];
    var i := a.Length;
    while i > 0
      invariant 0 <= i <= a.Length
      invariant a[..i] == s[..i]
      invariant a[i..] == SortDesc(s[i..], key)
    {
      i := i - 1;
      assert s[i..][1..] == s[i + 1..] && a[i + 1..] == SortDesc(s[i + 1..], key);
      InsertInPlace(a, i, key);
    }
  }
}
