/**
 What "longest first" is for: in any text, an occurrence of a secret that no earlier form
 reaches into becomes exactly one marker, and the text around it is scrubbed on its own.
 */
module WholeSecrets {
  import opened SecretScrubbing

  /** `g` occurs in `a + m + b`, starting `d` positions after `m` does, and shares characters with it. */
  ghost predicate TouchesAt(a: string, m: string, b: string, g: string, d: int) {
    -|g| < d < |m| && At(a + m + b, g, |a| + d)
  }

  ghost predicate Untouched(a: string, m: string, b: string, g: string) {
    forall d :: !TouchesAt(a, m, b, g, d)
  }

  // ----- Replacing around a part that is not touched -----

  lemma UntouchedTail(a: string, m: string, b: string, g: string, n: nat)
    requires n <= |a| && Untouched(a, m, b, g)
    ensures Untouched(a[n..], m, b, g)
  {
    forall d | TouchesAt(a[n..], m, b, g, d)
      ensures TouchesAt(a, m, b, g, d)
    {
      ShiftedAt(a, m, b, g, n, |a| - n + d);
    }
  }

  lemma ShiftedAt(a: string, m: string, b: string, g: string, n: nat, p: int)
    requires n <= |a| && p >= 0
    ensures At(a[n..] + m + b, g, p) <==> At(a + m + b, g, n + p)
  {
    assert a + m + b == a[..n] + "" + (a[n..] + m + b);
    AtRight(a[..n], "", a[n..] + m + b, g, p);
  }

  lemma Regroup(a: string, b: string, c: string, d: string)
    ensures a + (b + c + d) == (a + b) + c + d
  {
  }

  /** An untouched part at the start of a text stays as it is. */
  lemma {:induction false} PassOver(m: string, b: string, g: string, r: string)
    requires g != "" && Untouched("", m, b, g)
    ensures Replace(m + b, g, r) == m + Replace(b, g, r)
    decreases |m|
  {
    if m == "" {
      assert m + b == b;
    } else {
      assert "" + m + b == m + b && !TouchesAt("", m, b, g, 0);
      assert (m + b)[1..] == m[1..] + b;
      forall d | TouchesAt("", m[1..], b, g, d)
        ensures TouchesAt("", m, b, g, d + 1)
      {
        assert "" + m + b == "" + [m[0]] + ("" + m[1..] + b);
        AtRight("", [m[0]], "" + m[1..] + b, g, d);
      }
      PassOver(m[1..], b, g, r);
      assert [m[0]] + (m[1..] + Replace(b, g, r)) == m + Replace(b, g, r);
    }
  }

  /** Replacing works on the two sides of an untouched part separately. */
  lemma {:induction false} ReplaceAround(a: string, m: string, b: string, g: string, r: string)
    requires g != "" && m != "" && Untouched(a, m, b, g)
    ensures Replace(a + m + b, g, r) == Replace(a, g, r) + m + Replace(b, g, r)
    decreases |a|
  {
    if a == "" {
      assert a + m + b == m + b && "" + m + Replace(b, g, r) == m + Replace(b, g, r);
      PassOver(m, b, g, r);
    } else {
      assert !TouchesAt(a, m, b, g, -|a|);
      var n := if At(a + m + b, g, 0) then |g| else 1;
      SplitStart(a, m, b, g, r);
      UntouchedTail(a, m, b, g, n);
      ReplaceAround(a[n..], m, b, g, r);
      Regroup(if At(a + m + b, g, 0) then r else [a[0]], Replace(a[n..], g, r), m, Replace(b, g, r));
    }
  }

  /** The first step of a replacement, when it stays within `a`. */
  lemma SplitStart(a: string, m: string, b: string, g: string, r: string)
    requires g != "" && a != "" && (At(a + m + b, g, 0) ==> |g| <= |a|)
    ensures
      var t := a + m + b;
      var n := if At(t, g, 0) then |g| else 1;
      var step := if At(t, g, 0) then r else [a[0]];
      && n <= |a|
      && Replace(t, g, r) == step + Replace(a[n..] + m + b, g, r)
      && Replace(a, g, r) == step + Replace(a[n..], g, r)
  {
    var t := a + m + b;
    var n := if At(t, g, 0) then |g| else 1;
    if |g| <= |a| {
      AtLeft(a, m, b, g, 0);
    }
    assert t[n..] == a[n..] + m + b && t[0] == a[0];
  }

  /** A marker is untouched by forms that cannot overlap it. */
  lemma MarkerUntouched(a: string, r: string, b: string, g: string)
    requires !Overlaps(g, r)
    ensures Untouched(a, r, b, g)
  {
    forall d
      ensures !TouchesAt(a, r, b, g, d)
    {
      if TouchesAt(a, r, b, g, d) {
        MeetsMarker(a, r, b, g, |a| + d);
        assert false;
      }
    }
  }

  /** No other occurrence of `f` reaches into this one from the left. */
  ghost predicate LeftFree(a: string, f: string, b: string) {
    forall d :: d < 0 ==> !TouchesAt(a, f, b, f, d)
  }

  lemma LeftFreeTail(a: string, f: string, b: string, n: nat)
    requires n <= |a| && LeftFree(a, f, b)
    ensures LeftFree(a[n..], f, b)
  {
    forall d | d < 0 && TouchesAt(a[n..], f, b, f, d)
      ensures TouchesAt(a, f, b, f, d)
    {
      ShiftedAt(a, f, b, f, n, |a| - n + d);
    }
  }

  /** Replacing a form at such an occurrence. */
  lemma {:induction false} ReplaceHere(a: string, f: string, b: string, r: string)
    requires f != "" && LeftFree(a, f, b)
    ensures Replace(a + f + b, f, r) == Replace(a, f, r) + r + Replace(b, f, r)
    decreases |a|
  {
    if a == "" {
      ReplaceFirst(f, b, r);
      assert a + f + b == f + b && Replace(a, f, r) == "";
    } else {
      assert !TouchesAt(a, f, b, f, -|a|);
      var n := if At(a + f + b, f, 0) then |f| else 1;
      SplitStart(a, f, b, f, r);
      LeftFreeTail(a, f, b, n);
      ReplaceHere(a[n..], f, b, r);
      Regroup(if At(a + f + b, f, 0) then r else [a[0]], Replace(a[n..], f, r), r, Replace(b, f, r));
    }
  }

  lemma ReplaceFirst(f: string, b: string, r: string)
    requires f != ""
    ensures Replace(f + b, f, r) == "" + r + Replace(b, f, r)
  {
    assert At(f + b, f, 0) && (f + b)[|f|..] == b;
  }

  // ----- Earlier replacements reach into nothing new -----

  /** An occurrence that reaches beyond a replaced text crosses no marker. */
  lemma {:induction false} ReachesBeyond(a: string, x: string, g: string, r: string, h: string)
    requires g != "" && r != "" && NeverRunsInto(h, r)
    requires At(Replace(a, g, r) + x, h, 0) && |h| > |Replace(a, g, r)|
    ensures Replace(a, g, r) == a
    decreases |a|
  {
    if a != "" {
      if At(a, g, 0) {
        var tail := Replace(a[|g|..], g, r);
        assert (r + tail) + x == r + (tail + x);
        StartsInMarker(r, tail + x, h);
        assert false;
      }
      var rest := Replace(a[1..], g, r);
      assert ([a[0]] + rest) + x == "" + [a[0]] + (rest + x);
      assert h == "" + [h[0]] + h[1..];
      SuffixNeverRunsInto(h, r, 1);
      assert forall i :: 0 <= i < |h| - 1 ==> (rest + x)[0 + i] == (Replace(a, g, r) + x)[0 + (i + 1)] == h[1..][i];
      ReachesBeyond(a[1..], x, g, r, h[1..]);
    }
  }

  lemma {:induction false} TouchLeft(a: string, f: string, b: string, g: string, r: string, h: string, d: int)
    requires g != "" && r != "" && !Overlaps(h, r) && TouchesAt(Replace(a, g, r), f, b, h, d)
    ensures TouchesAt(a, f, b, h, d)
    decreases |a|
  {
    if a != "" {
      var n := if At(a, g, 0) then |g| else 1;
      var rest := Replace(a[n..], g, r);
      if At(a, g, 0) {
        assert "" + r + rest == Replace(a, g, r);
        BeyondMarker("", r, rest, f, b, h, d);
        TouchLeft(a[n..], f, b, g, r, h, d);
        ShiftedAt(a, f, b, h, n, |a| - n + d);
      } else if |rest| + 1 + d == 0 {
        assert Replace(a, g, r) + f + b == Replace(a, g, r) + (f + b);
        ReachesBeyond(a, f + b, g, r, h);
      } else {
        assert Replace(a, g, r)[1..] == rest;
        ShiftedAt(Replace(a, g, r), f, b, h, 1, |rest| + d);
        TouchLeft(a[n..], f, b, g, r, h, d);
        ShiftedAt(a, f, b, h, n, |a| - n + d);
      }
    }
  }

  lemma TouchRight(a: string, f: string, b: string, g: string, r: string, h: string, d: int)
    requires g != "" && r != "" && !Overlaps(h, r) && TouchesAt(a, f, Replace(b, g, r), h, d)
    ensures TouchesAt(a, f, b, h, d)
  {
    var before := |f| - d;
    if |h| <= before {
      AtLeft(a + f, "", Replace(b, g, r), h, |a| + d);
      AtLeft(a + f, "", b, h, |a| + d);
      assert a + f + b == (a + f) + "" + b && a + f + Replace(b, g, r) == (a + f) + "" + Replace(b, g, r);
    } else {
      assert NeverRunsInto(h, r);
      SuffixNeverRunsInto(h, r, before);
      EndsIn(a + f, Replace(b, g, r), h, before);
      PrefixKept(b, g, r, h[before..]);
      EndsIn(a + f, b, h, before);
    }
  }

  /** An occurrence of `h` whose last part lies in `b`. */
  lemma EndsIn(a: string, b: string, h: string, n: nat)
    requires n <= |h| && n <= |a|
    ensures At(a + b, h, |a| - n) <==> At(a, h[..n], |a| - n) && At(b, h[n..], 0)
  {
    var p, t := |a| - n, a + b;
    assert forall i :: 0 <= i < n ==> t[p + i] == a[p + i] && h[i] == h[..n][i];
    assert forall i :: 0 <= i < |h| - n && i < |b| ==> t[p + (i + n)] == b[0 + i] && h[i + n] == h[n..][i];
    if At(a, h[..n], p) && At(b, h[n..], 0) {
      forall i | 0 <= i < |h|
        ensures t[p + i] == h[i]
      {
        if i >= n {
          assert b[0 + (i - n)] == h[n..][i - n];
        } else {
          assert a[p + i] == h[..n][i];
        }
      }
    }
    if At(t, h, p) {
      forall i | 0 <= i < |h| - n
        ensures b[0 + i] == h[n..][i]
      {
        assert t[p + (i + n)] == h[i + n];
      }
      forall i | 0 <= i < n
        ensures a[p + i] == h[..n][i]
      {
        assert t[p + i] == h[i];
      }
    }
  }

  /** What touches `f` after a marker lies after the marker. */
  lemma BeyondMarker(x: string, r: string, y: string, f: string, b: string, h: string, d: int)
    requires !Overlaps(h, r) && TouchesAt(x + r + y, f, b, h, d)
    ensures |y| + d >= 0 && TouchesAt(y, f, b, h, d)
  {
    assert (x + r + y) + f + b == x + r + (y + f + b);
    if |y| + d < 0 {
      MeetsMarker(x, r, y + f + b, h, |x| + |r| + |y| + d);
      assert false;
    }
    AtRight(x, r, y + f + b, h, |y| + d);
  }

  // ----- Scrubbing -----

  ghost predicate Separable(forms: seq<string>, r: string) {
    forall i :: 0 <= i < |forms| ==> !Overlaps(forms[i], r)
  }

  lemma {:induction false} ScrubAround(forms: seq<string>, a: string, b: string, r: string)
    requires NonEmpty(forms) && r != "" && Separable(forms, r)
    ensures Scrub(forms, a + r + b, r) == Scrub(forms, a, r) + r + Scrub(forms, b, r)
  {
    if forms != [] {
      var g := forms[0];
      MarkerUntouched(a, r, b, g);
      ReplaceAround(a, r, b, g, r);
      ScrubOneIsReplace(a + r + b, g, r);
      ScrubOneIsReplace(a, g, r);
      ScrubOneIsReplace(b, g, r);
      ScrubAround(forms[1..], Replace(a, g, r), Replace(b, g, r), r);
    }
  }

  /** No form of the list touches this occurrence of `f`, nor another occurrence of `f` from the left. */
  ghost predicate Free(earlier: seq<string>, a: string, f: string, b: string) {
    && (forall i :: 0 <= i < |earlier| ==> Untouched(a, f, b, earlier[i]))
    && LeftFree(a, f, b)
  }

  lemma StaysFree(forms: seq<string>, i: nat, a: string, f: string, b: string, r: string)
    requires 0 < i < |forms| && forms[i] == f && NonEmpty(forms) && r != "" && Separable(forms, r)
    requires Free(forms[..i], a, f, b)
    ensures Free(forms[1..][..i - 1], Replace(a, forms[0], r), f, Replace(b, forms[0], r))
  {
    var g, rest := forms[0], forms[1..][..i - 1];
    var a', b' := Replace(a, g, r), Replace(b, g, r);
    forall h, d | !Overlaps(h, r) && TouchesAt(a', f, b', h, d)
      ensures TouchesAt(a, f, b, h, d)
    {
      TouchLeft(a, f, b', g, r, h, d);
      TouchRight(a, f, b, g, r, h, d);
    }
    forall j | 0 <= j < |rest|
      ensures Untouched(a', f, b', rest[j])
    {
      assert rest[j] == forms[j + 1] == forms[..i][j + 1];
    }
  }

  /** An occurrence that no form before it in the list reaches into becomes exactly one marker. */
  lemma {:induction false} ScrubbedWhole(forms: seq<string>, i: nat, a: string, f: string, b: string, r: string)
    requires NonEmpty(forms) && r != "" && Separable(forms, r) && i < |forms| && forms[i] == f
    requires Free(forms[..i], a, f, b)
    ensures Scrub(forms, a + f + b, r) == Scrub(forms, a, r) + r + Scrub(forms, b, r)
  {
    var g := forms[0];
    var a', b' := Replace(a, g, r), Replace(b, g, r);
    ScrubOneIsReplace(a + f + b, g, r);
    ScrubOneIsReplace(a, g, r);
    ScrubOneIsReplace(b, g, r);
    if i == 0 {
      ReplaceHere(a, f, b, r);
      ScrubAround(forms[1..], a', b', r);
    } else {
      assert forms[..i][0] == g;
      ReplaceAround(a, f, b, g, r);
      StaysFree(forms, i, a, f, b, r);
      ScrubbedWhole(forms[1..], i - 1, a', f, b', r);
    }
  }

  // ----- Texts whose occurrences are nested or disjoint -----

  ghost predicate NestedOrDisjoint(p: int, n: nat, q: int, m: nat) {
    p + n <= q || q + m <= p || (p <= q && q + m <= p + n) || (q <= p && p + n <= q + m)
  }

  /** Any two occurrences of registered forms are nested or disjoint. */
  ghost predicate Laminar(forms: seq<string>, text: string) {
    forall g, h, p, q :: g in forms && h in forms && At(text, g, p) && At(text, h, q) ==>
      NestedOrDisjoint(p, |g|, q, |h|)
  }

  /** No other occurrence of a registered form contains this one. */
  ghost predicate Maximal(forms: seq<string>, a: string, f: string, b: string) {
    forall h, q :: h in forms && At(a + f + b, h, q) && q <= |a| && |a| + |f| <= q + |h| ==>
      h == f && q == |a|
  }

  lemma SameLengthInside(text: string, f: string, h: string, p: int)
    requires At(text, f, p) && At(text, h, p) && |f| == |h|
    ensures f == h
  {
    assert forall i :: 0 <= i < |f| ==> f[i] == text[p + i] == h[i];
  }

  lemma MaximalIsFree(forms: seq<string>, i: nat, a: string, f: string, b: string)
    requires NonEmpty(forms) && LongestFirst(forms) && NoDuplicates(forms) && i < |forms| && forms[i] == f
    requires Laminar(forms, a + f + b) && Maximal(forms, a, f, b)
    ensures Free(forms[..i], a, f, b)
  {
    var t := a + f + b;
    assert At(t, f, |a|);
    forall h, d | h in forms && |h| >= |f| && TouchesAt(a, f, b, h, d)
      ensures h == f && d == 0
    {
      assert NestedOrDisjoint(|a|, |f|, |a| + d, |h|);
      if |a| <= |a| + d && |a| + d + |h| <= |a| + |f| {
        SameLengthInside(t, f, h, |a|);
      }
    }
    forall j | 0 <= j < i
      ensures Untouched(a, f, b, forms[j])
    {
      assert forms[j] in forms && |forms[j]| >= |f| && forms[j] != f;
    }
  }

  /**
   In a text whose occurrences of registered forms are nested or disjoint, every maximal
   occurrence becomes exactly one marker: a secret is replaced whole, never around a shorter
   form that it contains.
   */
  lemma ReplacedWhole(forms: seq<string>, a: string, f: string, b: string, r: string)
    requires NonEmpty(forms) && LongestFirst(forms) && NoDuplicates(forms) && r != "" && Separable(forms, r)
    requires f in forms && Laminar(forms, a + f + b) && Maximal(forms, a, f, b)
    ensures Scrub(forms, a + f + b, r) == Scrub(forms, a, r) + r + Scrub(forms, b, r)
  {
    var i :| 0 <= i < |forms| && forms[i] == f;
    MaximalIsFree(forms, i, a, f, b);
    ScrubbedWhole(forms, i, a, f, b, r);
  }

  // ----- One registered form, with or without brackets -----

  /**
   The form meets the marker at `d`; and put right after the part of it that comes before
   the marker, it is found there and not earlier.
   */
  ghost predicate Survives(g: string, r: string, d: int) {
    MeetsAt(g, r, d) && (d < 0 ==> LeftFree(g[..-d], g, ""))
  }

  /** `text` is `a`, the first occurrence of `g`, and `b`. */
  ghost predicate SplitsAt(text: string, a: string, g: string, b: string, r: string)
    requires g != ""
  {
    && text == a + g + b && LeftFree(a, g, b) && !Contains(a, g)
    && Replace(text, g, r) == a + r + Replace(b, g, r)
  }

  lemma SplitsHere(text: string, g: string, r: string)
    requires g != "" && At(text, g, 0)
    ensures SplitsAt(text, "", g, text[|g|..], r)
  {
    var b := text[|g|..];
    assert text == g + b && "" + g + b == g + b;
    ReplaceFirst(g, b, r);
  }

  lemma SplitsLater(text: string, a: string, g: string, b: string, r: string)
    requires g != "" && text != "" && !At(text, g, 0) && SplitsAt(text[1..], a, g, b, r)
    ensures SplitsAt(text, [text[0]] + a, g, b, r)
  {
    assert text == [text[0]] + text[1..] == [text[0]] + a + g + b;
    FirstStaysFirst(text[0], a, g, b);
    assert [text[0]] + (a + r + Replace(b, g, r)) == [text[0]] + a + r + Replace(b, g, r);
  }

  lemma {:induction false} SplitAtFirst(text: string, g: string, r: string) returns (a: string, b: string)
    requires g != "" && Contains(text, g)
    ensures SplitsAt(text, a, g, b, r)
    decreases |text|
  {
    if At(text, g, 0) {
      a, b := "", text[|g|..];
      SplitsHere(text, g, r);
    } else {
      InTail(text, g);
      var a', b' := SplitAtFirst(text[1..], g, r);
      a, b := [text[0]] + a', b';
      SplitsLater(text, a', g, b', r);
    }
  }

  lemma InTail(text: string, g: string)
    requires Contains(text, g) && !At(text, g, 0)
    ensures text != "" && Contains(text[1..], g)
  {
    var p :| 0 <= p <= |text| && At(text, g, p);
    assert [text[0]] + text[1..] == text;
    PastChar(text[0], text[1..], g, p);
  }

  lemma FirstStaysFirst(c: char, a: string, g: string, b: string)
    requires g != "" && LeftFree(a, g, b) && !Contains(a, g) && !At([c] + a + g + b, g, 0)
    ensures LeftFree([c] + a, g, b) && !Contains([c] + a, g)
  {
    var t := [c] + a;
    assert t + g + b == [c] + (a + g + b);
    forall d | d < 0
      ensures !TouchesAt(t, g, b, g, d)
    {
      if |t| + d > 0 {
        PastChar(c, a + g + b, g, |t| + d);
        assert !TouchesAt(a, g, b, g, d);
      }
    }
    forall p | 0 <= p <= |t|
      ensures !At(t, g, p)
    {
      if p > 0 {
        PastChar(c, a, g, p);
      } else if |g| <= |t| {
        AtLeft(t, g, b, g, 0);
      }
    }
  }

  lemma LeftFreeExtends(a: string, g: string, b: string)
    requires LeftFree(a, g, "")
    ensures LeftFree(a, g, b)
  {
    forall e | e < 0 && TouchesAt(a, g, b, g, e)
      ensures TouchesAt(a, g, "", g, e)
    {
      assert a + g + b == (a + g) + "" + b && a + g + "" == a + g;
      AtLeft(a + g, "", b, g, |a| + e);
    }
  }

  lemma ReplaceLone(a: string, g: string, b: string, r: string)
    requires g != "" && |a| < |g| && |b| < |g| && LeftFree(a, g, b)
    ensures Replace(a + g + b, g, r) == a + r + b
  {
    ReplaceHere(a, g, b, r);
    ReplaceNothing(a, g, r);
    ReplaceNothing(b, g, r);
  }

  /** The form put where it meets the marker so comes back. */
  lemma SurvivorComesBack(g: string, r: string, d: int)
    requires g != "" && Survives(g, r, d)
    ensures exists text :: Contains(Replace(text, g, r), g)
  {
    var a := if d < 0 then g[..-d] else "";
    var b := if d + |g| > |r| then g[|r| - d..] else "";
    if d < 0 {
      LeftFreeExtends(a, g, b);
    }
    ReplaceLone(a, g, b, r);
    MetAgain(a, g, b, r, d);
    assert Contains(Replace(a + g + b, g, r), g);
  }

  lemma MetAgain(a: string, g: string, b: string, r: string, d: int)
    requires MeetsAt(g, r, d)
    requires a == (if d < 0 then g[..-d] else "") && b == (if d + |g| > |r| then g[|r| - d..] else "")
    ensures Contains(a + r + b, g)
  {
    var t := a + r + b;
    var p := if d < 0 then 0 else d;
    forall i | 0 <= i < |g|
      ensures t[p + i] == g[i]
    {
      if 0 <= i + d < |r| {
        assert g[i] == r[i + d];
      }
    }
    assert At(t, g, p);
  }

  lemma MustContain(text: string, g: string, r: string, p: nat)
    requires g != "" && At(Replace(text, g, r), g, p)
    ensures Contains(text, g)
  {
    if !Contains(text, g) {
      ReplaceNothing(text, g, r);
    }
  }

  lemma NotBeforeMarker(a: string, r: string, rest: string, g: string, p: nat)
    requires !Contains(a, g) && At(a + r + rest, g, p)
    ensures p + |g| > |a|
  {
    if p + |g| <= |a| {
      AtLeft(a, r, rest, g, p);
    }
  }

  lemma MetHere(a: string, g: string, b: string, r: string, rest: string, p: nat)
    requires g != "" && LeftFree(a, g, b) && At(a + r + rest, g, p)
    requires p < |a| + |r| && p + |g| > |a|
    ensures Survives(g, r, p - |a|)
  {
    MeetsMarker(a, r, rest, g, p);
    if p < |a| {
      TailOfText(a, g, b, r, rest, p);
    }
  }

  /** What comes back met a marker: the first one it reaches. */
  lemma {:induction false} ComesBackSo(text: string, g: string, r: string, p: nat) returns (d: int)
    requires g != "" && r != "" && At(Replace(text, g, r), g, p)
    ensures Survives(g, r, d)
    decreases |text|, 1
  {
    MustContain(text, g, r, p);
    var a, b := SplitAtFirst(text, g, r);
    assert |b| < |text|;
    d := ComesBackAfter(a, g, b, r, p);
  }

  lemma {:induction false} ComesBackAfter(a: string, g: string, b: string, r: string, p: nat) returns (d: int)
    requires g != "" && r != "" && LeftFree(a, g, b) && !Contains(a, g)
    requires At(a + r + Replace(b, g, r), g, p)
    ensures Survives(g, r, d)
    decreases |b| + 1, 0
  {
    var rest := Replace(b, g, r);
    NotBeforeMarker(a, r, rest, g, p);
    if p >= |a| + |r| {
      AtRight(a, r, rest, g, p - |a| - |r|);
      d := ComesBackSo(b, g, r, p - |a| - |r|);
    } else {
      MetHere(a, g, b, r, rest, p);
      d := p - |a|;
    }
  }

  /** The part before the marker is the end of a text whose first occurrence comes after it. */
  lemma TailOfText(a: string, g: string, b: string, r: string, rest: string, p: nat)
    requires g != "" && p < |a| && p + |g| > |a| && At(a + r + rest, g, p) && LeftFree(a, g, b)
    ensures LeftFree(g[..|a| - p], g, "")
  {
    var u := g[..|a| - p];
    assert u == a[p..] by {
      assert forall i :: 0 <= i < |a| - p ==> (a + r + rest)[p + i] == g[i] && (a + r + rest)[p + i] == a[p + i];
    }
    forall e | e < 0 && TouchesAt(u, g, "", g, e)
      ensures TouchesAt(a, g, b, g, e)
    {
      AtLeft(u + g, "", b, g, |u| + e);
      assert u + g + b == (u + g) + "" + b && u + g + "" == u + g;
      ShiftedAt(a, g, b, g, p, |u| + e);
    }
  }

  lemma ScrubSingle(g: string, text: string, r: string)
    requires g != ""
    ensures Scrub([g], text, r) == Replace(text, g, r)
  {
    ScrubOneIsReplace(text, g, r);
    assert [g][1..] == [];
  }

  ghost predicate GoneFromAll(g: string, r: string)
    requires g != ""
  {
    forall text :: !Contains(Scrub([g], text, r), g)
  }

  ghost predicate NeverSurvives(g: string, r: string) {
    forall d :: !Survives(g, r, d)
  }

  /**
   The only registered form is gone from every text exactly when, wherever it can meet the
   marker, it does so from the left and overlaps itself first; brackets or not.
   */
  lemma SingleFormGoneIff(g: string, r: string)
    requires g != "" && r != ""
    ensures GoneFromAll(g, r) <==> NeverSurvives(g, r)
  {
    if !NeverSurvives(g, r) {
      var d :| Survives(g, r, d);
      SurvivorComesBack(g, r, d);
      var text :| Contains(Replace(text, g, r), g);
      ScrubSingle(g, text, r);
    }
    if !GoneFromAll(g, r) {
      var text :| Contains(Scrub([g], text, r), g);
      ScrubSingle(g, text, r);
      var p :| 0 <= p <= |Replace(text, g, r)| && At(Replace(text, g, r), g, p);
      var d := ComesBackSo(text, g, r, p);
    }
  }

  /** What is left of a text without registered forms is the text. */
  lemma {:induction false} ScrubUntouched(forms: seq<string>, text: string, r: string)
    requires NonEmpty(forms) && forall i :: 0 <= i < |forms| ==> !Contains(text, forms[i])
    ensures Scrub(forms, text, r) == text
  {
    if forms != [] {
      ScrubUntouched(forms[1..], text, r);
    }
  }

  /** A secret between two stretches without registered forms: only it is replaced. */
  lemma LoneSecret(forms: seq<string>, a: string, f: string, b: string, r: string)
    requires NonEmpty(forms) && LongestFirst(forms) && NoDuplicates(forms) && r != "" && Separable(forms, r)
    requires f in forms && Laminar(forms, a + f + b) && Maximal(forms, a, f, b)
    requires forall i :: 0 <= i < |forms| ==> !Contains(a, forms[i]) && !Contains(b, forms[i])
    ensures Scrub(forms, a + f + b, r) == a + r + b
  {
    ReplacedWhole(forms, a, f, b, r);
    ScrubUntouched(forms, a, r);
    ScrubUntouched(forms, b, r);
  }

  /** Overlapping forms: the tail of the second secret stays in the log. */
  lemma OverlapCutsSecret()
    ensures Scrub(["abcd", "cdef"], "abcdef", REDACTED) == "[redacted]ef"
  {
    FirstCut();
    SecondFindsNothing();
    ScrubOneIsReplace("abcdef", "abcd", REDACTED);
    ScrubOneIsReplace("[redacted]ef", "cdef", REDACTED);
    assert ["abcd", "cdef"][1..] == ["cdef"] && ["cdef"][1..] == [];
  }

  lemma FirstCut()
    ensures Replace("abcdef", "abcd", REDACTED) == "[redacted]ef"
  {
    var text := "abcdef";
    assert At(text, "abcd", 0) && text[4..] == "ef";
    assert "ef"[1..] == "f" && "f"[1..] == "";
    assert Replace("f", "abcd", REDACTED) == ['f'] + "";
    assert Replace("ef", "abcd", REDACTED) == ['e'] + "f";
  }

  lemma SecondFindsNothing()
    ensures Replace("[redacted]ef", "cdef", REDACTED) == "[redacted]ef"
  {
    var out, f := "[redacted]ef", "cdef";
    forall q | 0 <= q <= 12
      ensures !At(out, f, q)
    {
      assert f[0] == 'c' && f[1] == 'd';
      assert q + 4 <= 12 && out[q + 0] == 'c' ==> out[q + 1] == 't';
    }
    ReplaceNothing(out, f, REDACTED);
  }
}
