/**
 * `createSlug` of scripts/seed-data.js: lower-case the text, turn every run of
 * characters outside `[a-z0-9]` into one hyphen, then drop a hyphen at either end.
 */
module Slug {

  /** The characters the slug keeps as they are: `[a-z0-9]`. */
  predicate IsAlnum(c: char) {
    ('a' <= c <= 'z') || ('0' <= c <= '9')
  }

  /**
   * `toLowerCase` on one character, for what a slug can observe: it agrees with
   * JavaScript wherever the lower-case form contains a character of `[a-z0-9]`
   * (the ASCII capitals, KELVIN SIGN and CAPITAL I WITH DOT ABOVE), and keeps
   * every other character, whose lower-case form lies outside `[a-z0-9]` as well.
   */
  function LowerChar(c: char): string
  {
    if 'A' <= c <= 'Z' then [(c as int + 32) as char]
    else if c == '\U{212A}' then "k"
    else if c == '\U{130}' then "i\U{307}"
    else [c]
  }

  /** `toLowerCase`, character by character, in the sense of `LowerChar`. */
  function Lower(s: string): string
  {
    if s == [] then [] else LowerChar(s[0]) + Lower(s[1..])
  }

  /** The `[a-z0-9]` characters of `s`, in order. */
  function Alnums(s: string): string
  {
    if s == [] then [] else (if IsAlnum(s[0]) then [s[0]] else []) + Alnums(s[1..])
  }

  /** Drops the run of separator characters at the front of `s`. */
  function DropSeparators(s: string): (r: string)
    ensures |r| <= |s|
    ensures r == [] || IsAlnum(r[0])
    ensures Alnums(r) == Alnums(s)
  {
    if s != [] && !IsAlnum(s[0]) then DropSeparators(s[1..]) else s
  }

  /** `.replace(/[^a-z0-9]+/g, '-')`: every maximal run of separators becomes one hyphen. */
  function Collapse(s: string): string
    decreases |s|
  {
    if s == [] then []
    else if IsAlnum(s[0]) then [s[0]] + Collapse(s[1..])
    else "-" + Collapse(DropSeparators(s[1..]))
  }

  /** `.replace(/(^-|-$)/g, '')`: drops one hyphen at the front and one at the back. */
  function StripEdgeHyphens(s: string): string
  {
    var t := if s != [] && s[0] == '-' then s[1..] else s;
    if t != [] && t[|t| - 1] == '-' then t[..|t| - 1] else t
  }

  /** A well-formed slug: only `[a-z0-9-]`, no hyphen at either end, no two hyphens in a row. */
  predicate IsSlug(s: string) {
    && (forall i :: 0 <= i < |s| ==> IsAlnum(s[i]) || s[i] == '-')
    && (s == [] || (s[0] != '-' && s[|s| - 1] != '-'))
    && (forall i :: 0 <= i < |s| - 1 ==> !(s[i] == '-' && s[i + 1] == '-'))
  }

  /** Only `[a-z0-9-]` and no two hyphens in a row. */
  predicate Collapsed(s: string) {
    && (forall i :: 0 <= i < |s| ==> IsAlnum(s[i]) || s[i] == '-')
    && (forall i :: 0 <= i < |s| - 1 ==> !(s[i] == '-' && s[i + 1] == '-'))
  }

  lemma {:induction false} CollapseProperties(s: string)
    ensures Collapsed(Collapse(s))
    ensures s != [] && IsAlnum(s[0]) ==> Collapse(s) != [] && Collapse(s)[0] == s[0]
    ensures Alnums(Collapse(s)) == Alnums(s)
    decreases |s|
  {
    if s != [] {
      if IsAlnum(s[0]) {
        CollapseProperties(s[1..]);
        var c := Collapse(s[1..]);
        assert ([s[0]] + c)[1..] == c;
      } else {
        var d := DropSeparators(s[1..]);
        CollapseProperties(d);
        var c := Collapse(d);
        assert ("-" + c)[1..] == c;
      }
    }
  }

  /** A run of separators followed by nothing or by an alphanumeric is dropped whole. */
  lemma {:induction false} DropSeparatorsRun(sep: string, b: string)
    requires forall i :: 0 <= i < |sep| ==> !IsAlnum(sep[i])
    requires b == [] || IsAlnum(b[0])
    ensures DropSeparators(sep + b) == b
  {
    if sep != [] {
      assert (sep + b)[1..] == sep[1..] + b;
      DropSeparatorsRun(sep[1..], b);
    } else {
      assert sep + b == b;
    }
  }

  /** In a string that ends in an alphanumeric, the leading separator run ends inside it. */
  lemma {:induction false} DropSeparatorsAppend(u: string, v: string)
    requires u != [] && IsAlnum(u[|u| - 1])
    ensures DropSeparators(u + v) == DropSeparators(u) + v
    ensures DropSeparators(u) != [] && IsAlnum(DropSeparators(u)[|DropSeparators(u)| - 1])
  {
    assert (u + v)[0] == u[0];
    if !IsAlnum(u[0]) {
      assert (u + v)[1..] == u[1..] + v;
      DropSeparatorsAppend(u[1..], v);
    }
  }

  /** Text up to an alphanumeric and the text after it are collapsed independently. */
  lemma {:induction false} CollapseAppend(x: string, y: string)
    requires x == [] || IsAlnum(x[|x| - 1])
    ensures Collapse(x + y) == Collapse(x) + Collapse(y)
    decreases |x|
  {
    if x == [] {
      assert x + y == y;
    } else {
      assert (x + y)[0] == x[0];
      assert (x + y)[1..] == x[1..] + y;
      if IsAlnum(x[0]) {
        CollapseAppend(x[1..], y);
      } else {
        DropSeparatorsAppend(x[1..], y);
        var d := DropSeparators(x[1..]);
        CollapseAppend(d, y);
      }
    }
  }

  /**
   * `/[^a-z0-9]+/g` replaces a whole separator run, in place, by exactly one
   * hyphen: the text on either side of the run is collapsed on its own.
   */
  lemma CollapseSplit(a: string, sep: string, b: string)
    requires a == [] || IsAlnum(a[|a| - 1])
    requires sep != [] && forall i :: 0 <= i < |sep| ==> !IsAlnum(sep[i])
    requires b == [] || IsAlnum(b[0])
    ensures Collapse(a + sep + b) == Collapse(a) + "-" + Collapse(b)
  {
    var y := sep + b;
    CollapseAppend(a, y);
    CollapseRun(sep, b);
    assert Collapse(a + y) == Collapse(a) + ("-" + Collapse(b));
    SeqAssoc(Collapse(a), "-", Collapse(b));
    SeqAssoc(a, sep, b);
  }

  lemma SeqAssoc(x: string, y: string, z: string)
    ensures x + y + z == x + (y + z)
  {
  }

  /** A separator run in front of an alphanumeric, or of nothing, becomes one hyphen. */
  lemma CollapseRun(sep: string, b: string)
    requires sep != [] && forall i :: 0 <= i < |sep| ==> !IsAlnum(sep[i])
    requires b == [] || IsAlnum(b[0])
    ensures Collapse(sep + b) == "-" + Collapse(b)
  {
    var y := sep + b;
    assert !IsAlnum(sep[0]);
    assert y[0] == sep[0];
    assert y[1..] == sep[1..] + b;
    DropSeparatorsRun(sep[1..], b);
  }

  /** A string of `[a-z0-9]` alone has nothing to replace. */
  lemma {:induction false} CollapseAlnums(s: string)
    requires forall i :: 0 <= i < |s| ==> IsAlnum(s[i])
    ensures Collapse(s) == s
  {
    if s != [] {
      CollapseAlnums(s[1..]);
      assert s == [s[0]] + s[1..];
    }
  }

  /** Characters `toLowerCase` leaves as they are. */
  lemma {:induction false} LowerKeeps(s: string)
    requires forall i :: 0 <= i < |s| ==> LowerChar(s[i]) == [s[i]]
    ensures Lower(s) == s
  {
    if s != [] {
      LowerKeeps(s[1..]);
      assert s == [s[0]] + s[1..];
    }
  }

  /**
   * Two lower-case words around a run of separators that `toLowerCase` keeps
   * (a space, say) give the two words joined by one hyphen: "new york" gives "new-york".
   */
  lemma CreateSlugWords(w1: string, sep: string, w2: string)
    requires w1 != [] && forall i :: 0 <= i < |w1| ==> IsAlnum(w1[i])
    requires w2 != [] && forall i :: 0 <= i < |w2| ==> IsAlnum(w2[i])
    requires sep != [] && forall i :: 0 <= i < |sep| ==> !IsAlnum(sep[i]) && LowerChar(sep[i]) == [sep[i]]
    ensures CreateSlug(w1 + sep + w2) == w1 + "-" + w2
  {
    var s := w1 + sep + w2;
    assert forall i :: 0 <= i < |s| ==> LowerChar(s[i]) == [s[i]] by {
      forall i | 0 <= i < |s| ensures LowerChar(s[i]) == [s[i]] {
        if i < |w1| { assert s[i] == w1[i]; }
        else if i < |w1| + |sep| { assert s[i] == sep[i - |w1|]; }
        else { assert s[i] == w2[i - |w1| - |sep|]; }
      }
    }
    LowerKeeps(s);
    CollapseAlnums(w1);
    CollapseAlnums(w2);
    CollapseSplit(w1, sep, w2);
    var c := w1 + "-" + w2;
    assert c[0] == w1[0] && c[|c| - 1] == w2[|w2| - 1];
  }

  /** `createSlug(str)`. */
  function CreateSlug(str: string): (r: string)
    ensures IsSlug(r)
    ensures Alnums(r) == Alnums(Lower(str))
  {
    CollapseProperties(Lower(str));
    StripEdgeHyphensProperties(Collapse(Lower(str)));
    StripEdgeHyphens(Collapse(Lower(str)))
  }

  lemma StripEdgeHyphensProperties(c: string)
    requires Collapsed(c)
    ensures IsSlug(StripEdgeHyphens(c))
    ensures Alnums(StripEdgeHyphens(c)) == Alnums(c)
    ensures exists front: string, back: string :: (front == "" || front == "-") && (back == "" || back == "-") && c == front + StripEdgeHyphens(c) + back
  {
    var t := if c != [] && c[0] == '-' then c[1..] else c;
    if c != [] && c[0] == '-' {
      DropLeadingHyphen(c);
    }
    if t != [] && t[|t| - 1] == '-' {
      DropTrailingHyphen(t);
    }
    StripEdgeHyphensEdges(c);
  }

  /** `/(^-|-$)/g` removes at most one hyphen at each end and nothing else. */
  lemma StripEdgeHyphensEdges(c: string)
    ensures exists front: string, back: string :: (front == "" || front == "-") && (back == "" || back == "-") && c == front + StripEdgeHyphens(c) + back
  {
    var t := if c != [] && c[0] == '-' then c[1..] else c;
    var front: string := StripFront(c);
    var back: string := StripBack(t);
    SeqAssoc(front, StripEdgeHyphens(c), back);
  }

  /** The hyphen, if any, that `StripEdgeHyphens` drops at the front. */
  function StripFront(c: string): (front: string)
    ensures front == "" || front == "-"
    ensures c == front + (if c != [] && c[0] == '-' then c[1..] else c)
  {
    if c != [] && c[0] == '-' then
      assert c == [c[0]] + c[1..];
      "-"
    else
      assert c == "" + c;
      ""
  }

  /** The hyphen, if any, that `StripEdgeHyphens` drops at the back. */
  function StripBack(t: string): (back: string)
    ensures back == "" || back == "-"
    ensures t == (if t != [] && t[|t| - 1] == '-' then t[..|t| - 1] else t) + back
  {
    if t != [] && t[|t| - 1] == '-' then
      assert t == t[..|t| - 1] + [t[|t| - 1]];
      "-"
    else
      assert t == t + "";
      ""
  }

  /** Dropping a leading hyphen keeps the string collapsed, leaves no hyphen in front and loses no alphanumeric. */
  lemma DropLeadingHyphen(c: string)
    requires Collapsed(c) && c != [] && c[0] == '-'
    ensures Collapsed(c[1..]) && (c[1..] == [] || c[1..][0] != '-')
    ensures Alnums(c[1..]) == Alnums(c)
  {
    if |c| > 1 {
      assert !(c[0] == '-' && c[1] == '-');
    }
    assert Alnums(c) == [] + Alnums(c[1..]);
  }

  /** Dropping a trailing hyphen from a collapsed string without a leading one leaves a slug with the same alphanumerics. */
  lemma DropTrailingHyphen(t: string)
    requires Collapsed(t) && t != [] && t[0] != '-' && t[|t| - 1] == '-'
    ensures IsSlug(t[..|t| - 1])
    ensures Alnums(t[..|t| - 1]) == Alnums(t)
  {
    var u := t[..|t| - 1];
    assert t == u + [t[|t| - 1]];
    AlnumsAppend(u, [t[|t| - 1]]);
    assert Alnums([t[|t| - 1]]) == [] + Alnums([]);
    if u != [] {
      assert u[0] == t[0];
      assert t[|t| - 2] != '-';
      assert u[|u| - 1] == t[|t| - 2];
    }
  }

  lemma {:induction false} AlnumsAppend(a: string, b: string)
    ensures Alnums(a + b) == Alnums(a) + Alnums(b)
  {
    if a != [] {
      assert (a + b)[0] == a[0];
      assert (a + b)[1..] == a[1..] + b;
      AlnumsAppend(a[1..], b);
      var h: string := if IsAlnum(a[0]) then [a[0]] else [];
      assert Alnums(a + b) == h + (Alnums(a[1..]) + Alnums(b));
      assert h + (Alnums(a[1..]) + Alnums(b)) == (h + Alnums(a[1..])) + Alnums(b);
    } else {
      assert a + b == b;
    }
  }

  lemma {:induction false} LowerOfSlugChars(s: string)
    requires forall i :: 0 <= i < |s| ==> IsAlnum(s[i]) || s[i] == '-'
    ensures Lower(s) == s
  {
    if s != [] { LowerOfSlugChars(s[1..]); }
  }

  lemma {:induction false} CollapseOfCollapsed(s: string)
    requires Collapsed(s)
    requires s == [] || s[0] != '-'
    ensures Collapse(s) == s
    decreases |s|
  {
    if s != [] {
      if |s| > 1 && s[1] == '-' {
        var d := DropSeparators(s[2..]);
        assert s[2..] == [] || s[2] != '-';
        assert d == s[2..];
        CollapseOfCollapsed(s[2..]);
        assert s == [s[0]] + "-" + s[2..];
      } else {
        CollapseOfCollapsed(s[1..]);
      }
    }
  }

  /** A slug is its own slug, so `createSlug` is idempotent. */
  lemma SlugIdempotent(str: string)
    ensures CreateSlug(CreateSlug(str)) == CreateSlug(str)
  {
    var s := CreateSlug(str);
    LowerOfSlugChars(s);
    CollapseOfCollapsed(s);
  }
}
