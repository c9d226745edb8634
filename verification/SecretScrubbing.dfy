/**
 Literal secret scrubbing: registered forms are replaced by a marker, longest first.  When a
 form is gone from every text, and when it comes back.
 */
module SecretScrubbing {

  const REDACTED := "[redacted]"
  const INNER := "redacted"

  /** `f` occurs in `text` at position `p`. */
  predicate At(text: string, f: string, p: int) {
    0 <= p && p + |f| <= |text| && forall i :: 0 <= i < |f| ==> text[p + i] == f[i]
  }

  predicate Contains(text: string, f: string) {
    exists p :: 0 <= p <= |text| && At(text, f, p)
  }

  // ----- Replacement -----

  /** `text.replace(f, r)`: leftmost occurrences that do not overlap. */
  function Replace(text: string, f: string, r: string): string
    requires f != ""
    decreases |text|
  {
    if text == "" then ""
    else if At(text, f, 0) then r + Replace(text[|f|..], f, r)
    else [text[0]] + Replace(text[1..], f, r)
  }

  predicate NonEmpty(forms: seq<string>) {
    forall i :: 0 <= i < |forms| ==> forms[i] != ""
  }

  ghost predicate LongestFirst(forms: seq<string>) {
    forall i, j :: 0 <= i < j < |forms| ==> |forms[i]| >= |forms[j]|
  }

  ghost predicate NoDuplicates(forms: seq<string>) {
    forall i, j :: 0 <= i < j < |forms| ==> forms[i] != forms[j]
  }

  function ScrubOne(text: string, f: string, r: string): string
    requires f != ""
  {
    if Contains(text, f) then Replace(text, f, r) else text
  }

  /** The containment test only saves work. */
  lemma {:induction false} ReplaceNothing(text: string, f: string, r: string)
    requires f != "" && !Contains(text, f)
    ensures Replace(text, f, r) == text
    decreases |text|
  {
    if text != "" {
      assert !At(text, f, 0);
      NotInTail(text, f);
      ReplaceNothing(text[1..], f, r);
    }
  }

  lemma NotInTail(text: string, f: string)
    requires text != "" && !Contains(text, f)
    ensures !Contains(text[1..], f)
  {
    forall p | 0 <= p <= |text| - 1
      ensures At(text[1..], f, p) ==> At(text, f, p + 1)
    {
    }
  }

  lemma ScrubOneIsReplace(text: string, f: string, r: string)
    requires f != ""
    ensures ScrubOne(text, f, r) == Replace(text, f, r)
  {
    if !Contains(text, f) {
      ReplaceNothing(text, f, r);
    }
  }

  function Scrub(forms: seq<string>, text: string, r: string): string
    requires NonEmpty(forms)
  {
    if forms == [] then text else Scrub(forms[1..], ScrubOne(text, forms[0], r), r)
  }

  // ----- Overlap with the marker -----

  /** Placed `d` positions from the start of `r`, `g` agrees with it wherever the two meet. */
  predicate MeetsAt(g: string, r: string, d: int) {
    && -|g| < d < |r|
    && forall i :: 0 <= i < |g| && 0 <= i + d < |r| ==> g[i] == r[i + d]
  }

  /** Some occurrence of `g` could share characters with an occurrence of `r`. */
  ghost predicate Overlaps(g: string, r: string) {
    exists d :: MeetsAt(g, r, d)
  }

  /** Occurrences in the parts of a text are its occurrences there. */
  lemma AtLeft(a: string, m: string, b: string, g: string, p: int)
    requires p + |g| <= |a|
    ensures At(a + m + b, g, p) <==> At(a, g, p)
  {
    assert forall i :: 0 <= i < |a| ==> (a + m + b)[i] == a[i];
  }

  lemma AtRight(a: string, m: string, b: string, g: string, q: int)
    requires q >= 0
    ensures At(a + m + b, g, |a| + |m| + q) <==> At(b, g, q)
  {
    assert forall i :: 0 <= i < |b| ==> (a + m + b)[|a| + |m| + i] == b[i];
  }

  /** An occurrence that shares characters with a copy of the marker meets it there. */
  lemma MeetsMarker(a: string, r: string, b: string, g: string, p: int)
    requires At(a + r + b, g, p) && p < |a| + |r| && p + |g| > |a|
    ensures MeetsAt(g, r, p - |a|)
  {
    var t := a + r + b;
    forall i | 0 <= i < |g| && 0 <= i + (p - |a|) < |r|
      ensures g[i] == r[i + (p - |a|)]
    {
      assert g[i] == t[p + i];
    }
  }

  lemma ContainsPart(text: string, lo: nat, hi: nat, g: string)
    requires lo <= hi <= |text| && Contains(text[lo..hi], g)
    ensures Contains(text, g)
  {
    var part := text[lo..hi];
    var p :| 0 <= p <= |part| && At(part, g, p);
    assert forall i :: 0 <= i < |part| ==> part[i] == text[lo + i];
    assert At(text, g, lo + p);
  }

  /** Nothing of `h` from some point on agrees with the start of `r`. */
  ghost predicate NeverRunsInto(h: string, r: string) {
    forall d :: d <= 0 ==> !MeetsAt(h, r, d)
  }

  lemma SuffixNeverRunsInto(h: string, r: string, n: nat)
    requires n <= |h| && NeverRunsInto(h, r)
    ensures NeverRunsInto(h[n..], r)
  {
    forall d | d <= 0 && MeetsAt(h[n..], r, d)
      ensures MeetsAt(h, r, d - n)
    {
      forall i | 0 <= i < |h| && 0 <= i + (d - n) < |r|
        ensures h[i] == r[i + (d - n)]
      {
        assert h[n..][i - n] == h[i];
      }
    }
  }

  lemma StartsInMarker(r: string, rest: string, h: string)
    requires h != "" && r != "" && At(r + rest, h, 0)
    ensures MeetsAt(h, r, 0)
  {
    assert "" + r + rest == r + rest;
    MeetsMarker("", r, rest, h, 0);
  }

  /** What a replaced text begins with, it began with before, if that never runs into a marker. */
  lemma {:induction false} PrefixKept(text: string, f: string, r: string, h: string)
    requires f != "" && r != "" && NeverRunsInto(h, r) && At(Replace(text, f, r), h, 0)
    ensures At(text, h, 0)
    decreases |text|
  {
    if text != "" && h != "" {
      if At(text, f, 0) {
        StartsInMarker(r, Replace(text[|f|..], f, r), h);
        assert false;
      }
      var rest := Replace(text[1..], f, r);
      assert forall i :: 0 <= i < |h| - 1 ==> rest[0 + i] == Replace(text, f, r)[0 + (i + 1)] == h[i + 1] == h[1..][i];
      SuffixNeverRunsInto(h, r, 1);
      PrefixKept(text[1..], f, r, h[1..]);
      forall i | 0 <= i < |h|
        ensures text[0 + i] == h[i]
      {
        assert i > 0 ==> text[1..][0 + (i - 1)] == h[1..][i - 1];
        assert i == 0 ==> Replace(text, f, r)[0 + i] == h[i];
      }
    }
  }

  /** Where an occurrence in a replaced text comes from. */
  lemma OccurrenceIn(text: string, f: string, r: string, g: string, p: nat)
    requires f != "" && text != "" && !Overlaps(g, r) && At(Replace(text, f, r), g, p)
    requires g != "" && r != ""
    ensures At(text, f, 0) ==> p >= |r| && At(Replace(text[|f|..], f, r), g, p - |r|)
    ensures !At(text, f, 0) ==> if p == 0 then At(text, g, 0) else At(Replace(text[1..], f, r), g, p - 1)
  {
    if At(text, f, 0) {
      PastMarker(r, Replace(text[|f|..], f, r), g, p);
    } else if p == 0 {
      assert NeverRunsInto(g, r);
      PrefixKept(text, f, r, g);
    } else {
      PastChar(text[0], Replace(text[1..], f, r), g, p);
    }
  }

  lemma PastMarker(r: string, rest: string, g: string, p: nat)
    requires g != "" && !Overlaps(g, r) && At(r + rest, g, p)
    ensures p >= |r| && At(rest, g, p - |r|)
  {
    assert "" + r + rest == r + rest;
    if p < |r| {
      MeetsMarker("", r, rest, g, p);
      assert false;
    }
    AtRight("", r, rest, g, p - |r|);
  }

  lemma PastChar(c: char, rest: string, g: string, p: nat)
    requires p > 0
    ensures At([c] + rest, g, p) <==> At(rest, g, p - 1)
  {
    assert "" + [c] + rest == [c] + rest;
    AtRight("", [c], rest, g, p - 1);
  }

  /** Replacing never creates an occurrence of a form that cannot overlap the marker. */
  lemma {:induction false} ReplaceCreatesNothing(text: string, f: string, r: string, g: string)
    requires f != "" && g != "" && r != "" && !Overlaps(g, r) && Contains(Replace(text, f, r), g)
    ensures Contains(text, g)
    decreases |text|
  {
    if text != "" {
      var p :| 0 <= p <= |Replace(text, f, r)| && At(Replace(text, f, r), g, p);
      OccurrenceIn(text, f, r, g, p);
      if At(text, f, 0) {
        ReplaceCreatesNothing(text[|f|..], f, r, g);
        assert text[|f|..] == text[|f|..|text|];
        ContainsPart(text, |f|, |text|, g);
      } else if p > 0 {
        ReplaceCreatesNothing(text[1..], f, r, g);
        assert text[1..] == text[1..|text|];
        ContainsPart(text, 1, |text|, g);
      }
    }
  }

  /** Replacing removes every occurrence of a form that cannot overlap the marker. */
  lemma {:induction false} ReplaceRemoves(text: string, f: string, r: string)
    requires f != "" && r != "" && !Overlaps(f, r)
    ensures !Contains(Replace(text, f, r), f)
    decreases |text|
  {
    if text != "" {
      ReplaceRemoves(if At(text, f, 0) then text[|f|..] else text[1..], f, r);
      forall p | 0 <= p <= |Replace(text, f, r)|
        ensures !At(Replace(text, f, r), f, p)
      {
        if At(Replace(text, f, r), f, p) {
          OccurrenceIn(text, f, r, f, p);
          assert false;
        }
      }
    }
  }

  lemma {:induction false} ScrubCreatesNothing(forms: seq<string>, text: string, r: string, g: string)
    requires NonEmpty(forms) && g != "" && r != "" && !Overlaps(g, r) && Contains(Scrub(forms, text, r), g)
    ensures Contains(text, g)
  {
    if forms != [] {
      ScrubCreatesNothing(forms[1..], ScrubOne(text, forms[0], r), r, g);
      if Contains(text, forms[0]) {
        ReplaceCreatesNothing(text, forms[0], r, g);
      }
    }
  }

  /**
   Whatever the other forms are and whatever the later replacements rewrite, a registered
   form that cannot overlap the marker is gone from the scrubbed text.
   */
  lemma {:induction false} ScrubRemoves(forms: seq<string>, text: string, r: string, g: string)
    requires NonEmpty(forms) && r != "" && g in forms && !Overlaps(g, r)
    ensures !Contains(Scrub(forms, text, r), g)
  {
    var next := ScrubOne(text, forms[0], r);
    if forms[0] == g {
      if Contains(text, g) {
        ReplaceRemoves(text, g, r);
      }
      if Contains(Scrub(forms, text, r), g) {
        ScrubCreatesNothing(forms[1..], next, r, g);
      }
    } else {
      ScrubRemoves(forms[1..], next, r, g);
    }
  }

  // ----- The exact condition for forms without brackets -----

  predicate BracketFree(f: string) {
    '[' !in f && ']' !in f
  }

  lemma OverlapIsInside(f: string, d: int)
    requires f != "" && BracketFree(f) && MeetsAt(f, REDACTED, d)
    ensures At(INNER, f, d - 1)
  {
    var first := f[if d <= 0 then -d else 0];
    var last := f[if d + |f| >= 10 then 9 - d else 0];
    assert first in f && last in f;
    assert d > 0 && d + |f| < 10;
    forall i | 0 <= i < |f|
      ensures INNER[d - 1 + i] == f[i]
    {
      assert f[i] == REDACTED[i + d];
    }
  }

  lemma InsideIsOverlap(f: string, p: int)
    requires f != "" && At(INNER, f, p)
    ensures MeetsAt(f, REDACTED, p + 1)
  {
    forall i | 0 <= i < |f|
      ensures f[i] == REDACTED[i + p + 1]
    {
      assert f[i] == INNER[p + i];
    }
  }

  lemma BracketFreeOverlap(f: string)
    requires f != "" && BracketFree(f)
    ensures Overlaps(f, REDACTED) <==> Contains(INNER, f)
  {
    if Overlaps(f, REDACTED) {
      var d :| MeetsAt(f, REDACTED, d);
      OverlapIsInside(f, d);
    }
    if Contains(INNER, f) {
      var p :| 0 <= p <= |INNER| && At(INNER, f, p);
      InsideIsOverlap(f, p);
    }
  }

  lemma {:induction false} MarkerAppears(text: string, f: string, r: string, p: nat)
    requires f != "" && At(text, f, p)
    ensures Contains(Replace(text, f, r), r)
    decreases |text|
  {
    if At(text, f, 0) {
      var rest := Replace(text[|f|..], f, r);
      assert At(r + rest, r, 0);
    } else {
      assert [text[0]] + text[1..] == text;
      PastChar(text[0], text[1..], f, p);
      MarkerAppears(text[1..], f, r, p - 1);
      OneMoreChar(text[0], Replace(text[1..], f, r), r);
    }
  }

  lemma OneMoreChar(c: char, rest: string, r: string)
    requires Contains(rest, r)
    ensures Contains([c] + rest, r)
  {
    var p :| 0 <= p <= |rest| && At(rest, r, p);
    PastChar(c, rest, r, p + 1);
  }

  /** Scrubbing one form leaves a marker behind wherever there was one. */
  lemma MarkerSurvives(text: string, f: string, r: string)
    requires f != "" && Contains(text, r)
    ensures Contains(ScrubOne(text, f, r), r)
  {
    if Contains(text, f) {
      var p :| 0 <= p <= |text| && At(text, f, p);
      MarkerAppears(text, f, r, p);
    }
  }

  lemma {:induction false} MarkerSurvivesScrub(forms: seq<string>, text: string, r: string)
    requires NonEmpty(forms) && Contains(text, r)
    ensures Contains(Scrub(forms, text, r), r)
  {
    if forms != [] {
      MarkerSurvives(text, forms[0], r);
      MarkerSurvivesScrub(forms[1..], ScrubOne(text, forms[0], r), r);
    }
  }

  lemma ContainsTrans(a: string, b: string, c: string)
    requires Contains(a, b) && Contains(b, c)
    ensures Contains(a, c)
  {
    var p :| 0 <= p <= |a| && At(a, b, p);
    assert a[p..p + |b|] == b;
    ContainsPart(a, p, p + |b|, c);
  }

  ghost predicate ScrubsClean(forms: seq<string>)
    requires NonEmpty(forms)
  {
    forall text, g :: g in forms ==> !Contains(Scrub(forms, text, REDACTED), g)
  }

  /** The marker is a text that keeps whatever hides in it. */
  lemma MarkerKeeps(forms: seq<string>, g: string)
    requires NonEmpty(forms) && Contains(REDACTED, g)
    ensures Contains(Scrub(forms, REDACTED, REDACTED), g)
  {
    var r := REDACTED;
    assert At(r, r, 0);
    MarkerSurvivesScrub(forms, r, r);
    ContainsTrans(Scrub(forms, r, r), r, g);
  }

  /** A form that hides inside the marker is not scrubbed from every text. */
  lemma HiddenInMarker(forms: seq<string>, g: string)
    requires NonEmpty(forms) && g in forms && Contains(REDACTED, g)
    ensures !ScrubsClean(forms)
  {
    MarkerKeeps(forms, g);
  }

  lemma InnerIsInMarker(g: string)
    requires Contains(INNER, g)
    ensures Contains(REDACTED, g)
  {
    assert REDACTED[1..9] == INNER;
    ContainsPart(REDACTED, 1, 9, g);
  }

  /** Every text comes out without this form. */
  ghost predicate AlwaysGone(forms: seq<string>, g: string)
    requires NonEmpty(forms)
  {
    forall text :: !Contains(Scrub(forms, text, REDACTED), g)
  }

  /**
   A registered form without brackets is gone from every text iff it does not hide in the
   marker, whatever other forms are registered, with brackets or not.
   */
  lemma AlwaysGoneIff(forms: seq<string>, g: string)
    requires NonEmpty(forms) && g in forms && BracketFree(g)
    ensures AlwaysGone(forms, g) <==> !Contains(INNER, g)
  {
    if Contains(INNER, g) {
      InnerIsInMarker(g);
      MarkerKeeps(forms, g);
    } else {
      BracketFreeOverlap(g);
      forall text
        ensures !Contains(Scrub(forms, text, REDACTED), g)
      {
        ScrubRemoves(forms, text, REDACTED, g);
      }
    }
  }

  /** So bracket-free forms are all gone from every text iff none hides in the marker. */
  lemma ScrubsCleanIff(forms: seq<string>)
    requires NonEmpty(forms) && forall f :: f in forms ==> BracketFree(f)
    ensures ScrubsClean(forms) <==> forall g :: g in forms ==> !Contains(INNER, g)
  {
    forall g | g in forms
      ensures AlwaysGone(forms, g) <==> !Contains(INNER, g)
    {
      AlwaysGoneIff(forms, g);
    }
    assert ScrubsClean(forms) <==> forall g :: g in forms ==> AlwaysGone(forms, g);
  }

  // ----- Forms with brackets -----

  /** A form that meets the marker's edge can come back: "]x" in "]xx". */
  lemma EdgeFormSurvives()
    ensures Scrub(["]x"], "]xx", REDACTED) == "[redacted]x"
    ensures Overlaps("]x", REDACTED) && Contains("[redacted]x", "]x")
  {
    var text := "]xx";
    assert At(text, "]x", 0) && text[2..] == "x" && "x"[1..] == "";
    assert Replace("x", "]x", REDACTED) == ['x'] + Replace("", "]x", REDACTED) == "x";
    assert Replace(text, "]x", REDACTED) == REDACTED + "x" == "[redacted]x";
    ScrubOneIsReplace(text, "]x", REDACTED);
    assert ["]x"][1..] == [];
    assert MeetsAt("]x", REDACTED, 9);
    assert At("[redacted]x", "]x", 9);
  }

  lemma DoubleBracketAt(t: string, p: int)
    ensures At(t, "[[", p) <==> 0 <= p && p + 1 < |t| && t[p] == '[' && t[p + 1] == '['
  {
    var f := "[[";
    assert f[0] == '[' && f[1] == '[';
  }

  /** Yet meeting the edge is not always fatal: "[[" is gone from every text. */
  lemma {:induction false} DoubleBracketGone(text: string)
    ensures !Contains(Replace(text, "[[", REDACTED), "[[")
    ensures Overlaps("[[", REDACTED)
    decreases |text|
  {
    var r := REDACTED;
    assert MeetsAt("[[", r, -1);
    if text != "" {
      DoubleBracketAt(text, 0);
      if At(text, "[[", 0) {
        DoubleBracketGone(text[2..]);
        AfterMarker(Replace(text[2..], "[[", r));
      } else {
        DoubleBracketGone(text[1..]);
        FirstOfReplaced(text[1..]);
        AfterChar(text[0], Replace(text[1..], "[[", r));
      }
    }
  }

  lemma FirstOfReplaced(text: string)
    ensures (Replace(text, "[[", REDACTED) == "") == (text == "")
    ensures text != "" ==> Replace(text, "[[", REDACTED)[0] == text[0]
  {
    DoubleBracketAt(text, 0);
  }

  lemma AfterChar(c: char, b: string)
    requires !Contains(b, "[[") && (c == '[' && b != "" ==> b[0] != '[')
    ensures !Contains([c] + b, "[[")
  {
    forall p | 0 <= p <= |[c] + b|
      ensures !At([c] + b, "[[", p)
    {
      DoubleBracketAt([c] + b, p);
      DoubleBracketAt(b, p - 1);
      assert 0 < p <= |b| ==> !At(b, "[[", p - 1);
    }
  }

  lemma AfterMarker(b: string)
    requires !Contains(b, "[[")
    ensures !Contains(REDACTED + b, "[[")
  {
    forall p | 0 <= p <= |REDACTED + b|
      ensures !At(REDACTED + b, "[[", p)
    {
      DoubleBracketAt(REDACTED + b, p);
      DoubleBracketAt(b, p - 10);
      assert 10 <= p <= |b| + 10 ==> !At(b, "[[", p - 10);
    }
  }
}
