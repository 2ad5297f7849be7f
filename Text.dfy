/**
 * The JavaScript string operations the two scripts rely on: `trim`, `padStart`,
 * `includes`, the default string order used by `Array.prototype.sort`, and the
 * first-appearance order of a `Set` built from an array.
 */
module Text {

  /** The characters `String.prototype.trim` removes: ECMAScript WhiteSpace and LineTerminator. */
  predicate IsJsWhitespace(c: char) {
    || c == '\t' || c == '\U{B}' || c == '\U{C}' || c == ' ' || c == '\U{A0}' || c == '\U{FEFF}'
    || c == '\n' || c == '\r' || c == '\U{2028}' || c == '\U{2029}'
    || c == '\U{1680}' || ('\U{2000}' <= c <= '\U{200A}') || c == '\U{202F}' || c == '\U{205F}' || c == '\U{3000}'
  }

  /** A string with no whitespace at either end. */
  predicate IsTrimmed(s: string) {
    s == [] || (!IsJsWhitespace(s[0]) && !IsJsWhitespace(s[|s| - 1]))
  }

  /** `r` is the piece of `s` at offset `k`, and everything around it is whitespace. */
  predicate WhitespaceAround(s: string, k: int, r: string) {
    && 0 <= k <= |s| - |r| && r == s[k..k + |r|]
    && (forall i :: 0 <= i < k ==> IsJsWhitespace(s[i]))
    && (forall i :: k + |r| <= i < |s| ==> IsJsWhitespace(s[i]))
  }

  /** `s.trim()`: whitespace dropped from both ends. */
  function Trim(s: string): (r: string)
    ensures IsTrimmed(r) && |r| <= |s|
  {
    if s != [] && IsJsWhitespace(s[0]) then Trim(s[1..])
    else if s != [] && IsJsWhitespace(s[|s| - 1]) then Trim(s[..|s| - 1])
    else s
  }

  /** The trimmed string is a contiguous piece of the original, and only whitespace was removed around it. */
  lemma {:induction false} TrimIsPiece(s: string)
    ensures exists k :: WhitespaceAround(s, k, Trim(s))
  {
    var r := Trim(s);
    if s != [] && IsJsWhitespace(s[0]) {
      TrimIsPiece(s[1..]);
      var k :| WhitespaceAround(s[1..], k, r);
      AroundDropFirst(s, k, r);
    } else if s != [] && IsJsWhitespace(s[|s| - 1]) {
      TrimIsPiece(s[..|s| - 1]);
      var k :| WhitespaceAround(s[..|s| - 1], k, r);
      AroundDropLast(s, k, r);
    } else {
      assert s[0..0 + |s|] == s;
      assert WhitespaceAround(s, 0, r);
    }
  }

  lemma AroundDropFirst(s: string, k: int, r: string)
    requires s != [] && IsJsWhitespace(s[0]) && WhitespaceAround(s[1..], k, r)
    ensures WhitespaceAround(s, k + 1, r)
  {
    var t := s[1..];
    assert t[k..k + |r|] == s[k + 1..k + 1 + |r|];
    forall i | 0 < i < k + 1 ensures IsJsWhitespace(s[i]) { assert s[i] == t[i - 1]; }
    forall i | k + 1 + |r| <= i < |s| ensures IsJsWhitespace(s[i]) { assert s[i] == t[i - 1]; }
  }

  lemma AroundDropLast(s: string, k: int, r: string)
    requires s != [] && IsJsWhitespace(s[|s| - 1]) && WhitespaceAround(s[..|s| - 1], k, r)
    ensures WhitespaceAround(s, k, r)
  {
    var t := s[..|s| - 1];
    assert t[k..k + |r|] == s[k..k + |r|];
    forall i | 0 <= i < k ensures IsJsWhitespace(s[i]) { assert s[i] == t[i]; }
    forall i | k + |r| <= i < |s| - 1 ensures IsJsWhitespace(s[i]) { assert s[i] == t[i]; }
  }

  /** `s.padStart(width, fill)` for a one-character `fill`. */
  function PadStart(s: string, width: nat, fill: char): (r: string)
    ensures |r| == if |s| >= width then |s| else width
    ensures r[|r| - |s|..] == s
    ensures forall i :: 0 <= i < |r| - |s| ==> r[i] == fill
    decreases width - |s|
  {
    if |s| >= width then s else PadStart([fill] + s, width, fill)
  }

  /** `s.startsWith(p)`. */
  predicate StartsWith(s: string, p: string) {
    |p| <= |s| && s[..|p|] == p
  }

  /** `s.includes(sub)`, by trying each start position left to right. */
  predicate Contains(s: string, sub: string)
    decreases |s|
  {
    StartsWith(s, sub) || (s != [] && Contains(s[1..], sub))
  }

  /** `sub` occurs in `s` starting at index `i`. */
  predicate OccursAt(s: string, sub: string, i: int) {
    0 <= i <= |s| - |sub| && s[i..i + |sub|] == sub
  }

  /** `Contains` holds exactly when `sub` occurs at some position of `s`. */
  lemma {:induction false} ContainsAt(s: string, sub: string)
    ensures Contains(s, sub) <==> exists i :: OccursAt(s, sub, i)
    decreases |s|
  {
    if StartsWith(s, sub) {
      assert OccursAt(s, sub, 0);
    }
    if s != [] {
      ContainsAt(s[1..], sub);
      if Contains(s[1..], sub) {
        var i :| OccursAt(s[1..], sub, i);
        assert OccursAt(s, sub, i + 1);
      }
      if exists i :: OccursAt(s, sub, i) {
        var i :| OccursAt(s, sub, i);
        if i > 0 {
          assert OccursAt(s[1..], sub, i - 1);
        }
      }
    } else {
      if exists i :: OccursAt(s, sub, i) {
        var i :| OccursAt(s, sub, i);
        assert i == 0 && sub == [];
      }
    }
  }

  /** Shifting the start by one character. */
  lemma OccursAtTail(s: string, sub: string, j: int)
    requires s != [] && j >= 0
    ensures OccursAt(s, sub, j + 1) <==> OccursAt(s[1..], sub, j)
  {
    var t := s[1..];
    assert |t| == |s| - 1;
    if 0 <= j <= |t| - |sub| {
      var a, b := s[j + 1..j + 1 + |sub|], t[j..j + |sub|];
      assert |a| == |b| == |sub|;
      forall q | 0 <= q < |sub| ensures a[q] == b[q] {
        assert a[q] == s[j + 1 + q] && b[q] == t[j + q] == s[j + 1 + q];
      }
      assert a == b;
    }
  }

  /** `s.indexOf(sub)`: the first position where `sub` occurs, or -1. */
  function IndexOf(s: string, sub: string): (r: int)
    ensures r >= 0 ==> OccursAt(s, sub, r) && forall j :: 0 <= j < r ==> !OccursAt(s, sub, j)
    ensures r < 0 ==> r == -1 && forall j :: !OccursAt(s, sub, j)
    decreases |s|
  {
    if StartsWith(s, sub) then
      assert OccursAt(s, sub, 0);
      0
    else if s == [] then
      assert forall j :: !OccursAt(s, sub, j);
      -1
    else
      var k := IndexOf(s[1..], sub);
      assert forall j :: j >= 1 ==> (OccursAt(s, sub, j) <==> OccursAt(s[1..], sub, j - 1)) by {
        forall j | j >= 1 ensures OccursAt(s, sub, j) <==> OccursAt(s[1..], sub, j - 1) {
          OccursAtTail(s, sub, j - 1);
        }
      }
      assert !OccursAt(s, sub, 0);
      if k < 0 then -1 else k + 1
  }

  /** `s.replace(sub, '')` with a string pattern: only the first occurrence is removed. */
  function RemoveFirst(s: string, sub: string): (r: string)
    ensures IndexOf(s, sub) < 0 ==> r == s
    ensures IndexOf(s, sub) >= 0 ==> |r| == |s| - |sub| && s == r[..IndexOf(s, sub)] + sub + r[IndexOf(s, sub)..]
    ensures forall c :: c in r ==> c in s
  {
    var i := IndexOf(s, sub);
    if i < 0 then s
    else
      var r := s[..i] + s[i + |sub|..];
      assert r[..i] == s[..i] && r[i..] == s[i + |sub|..];
      assert s == s[..i] + s[i..i + |sub|] + s[i + |sub|..];
      r
  }

  /**
   * JavaScript's `a < b` on strings: lexicographic on characters, a proper
   * prefix coming first.
   */
  predicate StrLess(a: string, b: string)
    decreases |a|
  {
    if a == [] then b != []
    else if b == [] then false
    else if a[0] != b[0] then a[0] < b[0]
    else StrLess(a[1..], b[1..])
  }

  lemma {:induction false} StrLessIrreflexive(a: string)
    ensures !StrLess(a, a)
    decreases |a|
  {
    if a != [] { StrLessIrreflexive(a[1..]); }
  }

  lemma {:induction false} StrLessTransitive(a: string, b: string, c: string)
    requires StrLess(a, b) && StrLess(b, c)
    ensures StrLess(a, c)
    decreases |a|
  {
    if a != [] && a[0] == b[0] && b[0] == c[0] {
      StrLessTransitive(a[1..], b[1..], c[1..]);
    }
  }

  lemma {:induction false} StrLessTotal(a: string, b: string)
    ensures a == b || StrLess(a, b) || StrLess(b, a)
    decreases |a|
  {
    if a != [] && b != [] && a[0] == b[0] {
      StrLessTotal(a[1..], b[1..]);
      if a[1..] == b[1..] {
        assert a == [a[0]] + a[1..] && b == [b[0]] + b[1..];
      }
    }
  }

  /** Every element strictly before the next one: sorted and duplicate-free. */
  predicate StrictlyIncreasing(s: seq<string>) {
    forall i, j :: 0 <= i < j < |s| ==> StrLess(s[i], s[j])
  }

  /** No element occurs twice. */
  predicate NoDuplicates(s: seq<string>) {
    forall i, j :: 0 <= i < j < |s| ==> s[i] != s[j]
  }

  /** The position where `x` first appears in `xs`. */
  function FirstIndex(xs: seq<string>, x: string): (r: nat)
    requires x in xs
    ensures r < |xs| && xs[r] == x
    ensures forall k :: 0 <= k < r ==> xs[k] != x
  {
    var init := xs[..|xs| - 1];
    if x in init then
      var r := FirstIndex(init, x);
      assert xs[r] == init[r];
      assert forall k :: 0 <= k < r ==> xs[k] == init[k];
      r
    else
      assert xs == init + [xs[|xs| - 1]];
      |xs| - 1
  }

  /** The elements of `new Set(xs)` in its iteration order: each element at its first appearance. */
  function Distinct(xs: seq<string>): (r: seq<string>)
    ensures NoDuplicates(r)
    ensures forall x :: x in r <==> x in xs
  {
    if xs == [] then []
    else
      var d := Distinct(xs[..|xs| - 1]);
      var x := xs[|xs| - 1];
      assert forall y :: y in xs <==> y in xs[..|xs| - 1] || y == x by {
        assert xs == xs[..|xs| - 1] + [x];
      }
      if x in d then d else d + [x]
  }

  /** `new Set(xs)` iterates in order of first appearance in `xs`. */
  lemma {:induction false} DistinctOrder(xs: seq<string>)
    ensures forall i, j :: 0 <= i < j < |Distinct(xs)| ==> FirstIndex(xs, Distinct(xs)[i]) < FirstIndex(xs, Distinct(xs)[j])
  {
    if xs != [] {
      var init := xs[..|xs| - 1];
      var x := xs[|xs| - 1];
      DistinctOrder(init);
      var d := Distinct(init);
      var r := Distinct(xs);
      assert forall y :: y in init ==> FirstIndex(xs, y) == FirstIndex(init, y) < |init|;
      if x !in d {
        assert FirstIndex(xs, x) == |init|;
        assert r == d + [x];
        forall i, j | 0 <= i < j < |r| ensures FirstIndex(xs, r[i]) < FirstIndex(xs, r[j]) {
          assert r[i] == d[i];
          if j < |d| { assert r[j] == d[j]; }
        }
      }
    }
  }

  /** Inserts `x` after every element not greater than it (the step of a stable insertion sort). */
  function InsertString(s: seq<string>, x: string): seq<string>
  {
    if s == [] || StrLess(x, s[0]) then [x] + s else [s[0]] + InsertString(s[1..], x)
  }

  /** `xs.sort()` on strings, as a stable insertion sort. */
  function SortStrings(xs: seq<string>): seq<string>
  {
    if xs == [] then [] else InsertString(SortStrings(xs[..|xs| - 1]), xs[|xs| - 1])
  }

  lemma {:induction false} InsertStringSorted(s: seq<string>, x: string)
    requires StrictlyIncreasing(s) && x !in s
    ensures StrictlyIncreasing(InsertString(s, x))
    ensures forall y :: y in InsertString(s, x) <==> y in s || y == x
    decreases |s|
  {
    if s == [] || StrLess(x, s[0]) {
      var r := [x] + s;
      forall i, j | 0 <= i < j < |r| ensures StrLess(r[i], r[j]) {
        if i == 0 && j > 1 { StrLessTransitive(x, s[0], s[j - 1]); }
      }
    } else {
      InsertStringSorted(s[1..], x);
      var t := InsertString(s[1..], x);
      var r := [s[0]] + t;
      StrLessTotal(x, s[0]);
      forall i, j | 0 <= i < j < |r| ensures StrLess(r[i], r[j]) {
        if i == 0 {
          assert r[j] in s[1..] || r[j] == x;
          if r[j] in s[1..] {
            var k :| 0 <= k < |s[1..]| && s[1..][k] == r[j];
            assert s[k + 1] == r[j];
          }
        }
      }
    }
  }

  lemma {:induction false} SortStringsSorted(xs: seq<string>)
    requires NoDuplicates(xs)
    ensures StrictlyIncreasing(SortStrings(xs))
    ensures forall y :: y in SortStrings(xs) <==> y in xs
  {
    if xs != [] {
      var init := xs[..|xs| - 1];
      assert xs == init + [xs[|xs| - 1]];
      SortStringsSorted(init);
      InsertStringSorted(SortStrings(init), xs[|xs| - 1]);
    }
  }

  /**
   * `[...new Set(xs)].sort()`: strictly increasing, so duplicate-free, and it
   * holds exactly the elements of `xs`.
   */
  function SortedUnique(xs: seq<string>): (r: seq<string>)
    ensures StrictlyIncreasing(r) && NoDuplicates(r)
    ensures forall x :: x in r <==> x in xs
  {
    var d := Distinct(xs);
    SortStringsSorted(d);
    var r := SortStrings(d);
    assert NoDuplicates(r) by {
      forall i, j | 0 <= i < j < |r| ensures r[i] != r[j] {
        StrLessIrreflexive(r[i]);
      }
    }
    r
  }
}
