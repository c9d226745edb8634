/**
 Literal secrets in the log: the forms a secret is registered in, reference counted over
 overlapping scopes.
 */
module SecretScopes {
  import opened Options
  import opened Bytes
  import opened Text
  import Utf8
  import opened SecretScrubbing

  const SECRET_MIN_LITERAL_BYTES: nat := 4

  // ----- The forms of a secret -----

  datatype Secret = TextSecret(text: string) | ByteSecret(raw: seq<Byte>)

  function RawOf(s: Secret): seq<Byte> {
    if s.TextSecret? then Utf8.Encode(s.text) else s.raw
  }

  function TextOf(s: Secret): Option<string> {
    if s.TextSecret? then Some(s.text) else Utf8.Decode(s.raw)
  }

  function BytesReprChar(b: Byte, quote: char): string {
    var c := b as char;
    if c == '\\' || c == quote then ['\\', c]
    else if c == '\t' then "\\t"
    else if c == '\n' then "\\n"
    else if c == '\r' then "\\r"
    else if 0x20 <= b < 0x7F then [c]
    else "\\x" + Lower(HexUpper([b]))
  }

  /** The body of `repr(raw)` inside a quote. */
  function BytesRepr(raw: seq<Byte>, quote: char): string {
    if raw == [] then "" else BytesReprChar(raw[0], quote) + BytesRepr(raw[1..], quote)
  }

  /** The body of `repr(text)` inside a quote; `charRepr` is the interpreter's own for one character. */
  function StrRepr(text: string, quote: char, charRepr: char -> string): string {
    if text == "" then ""
    else
      var c := text[0];
      (if c == '\\' || c == quote then ['\\', c]
       else if c == '\'' || c == '"' then [c]
       else charRepr(c)) + StrRepr(text[1..], quote, charRepr)
  }

  function HexForms(raw: seq<Byte>): set<string> {
    {Lower(HexUpper(raw)), HexUpper(raw)}
  }

  function FormsOf(s: Secret, charRepr: char -> string): set<string> {
    var raw := RawOf(s);
    if |raw| < SECRET_MIN_LITERAL_BYTES then {}
    else
      HexForms(raw) + {BytesRepr(raw, '\''), BytesRepr(raw, '"')}
      + (match TextOf(s)
         case None => {}
         case Some(text) => {text, StrRepr(text, '\'', charRepr), StrRepr(text, '"', charRepr)})
      - {""}
  }

  function AllForms(secrets: seq<Secret>, charRepr: char -> string): set<string> {
    if secrets == [] then {}
    else AllForms(secrets[..|secrets| - 1], charRepr) + FormsOf(secrets[|secrets| - 1], charRepr)
  }

  lemma NoEmptyForm(s: Secret, charRepr: char -> string)
    ensures "" !in FormsOf(s, charRepr)
  {
  }

  lemma {:induction false} AllFormsNonEmpty(secrets: seq<Secret>, charRepr: char -> string)
    ensures "" !in AllForms(secrets, charRepr)
  {
    if secrets != [] {
      AllFormsNonEmpty(secrets[..|secrets| - 1], charRepr);
      NoEmptyForm(secrets[|secrets| - 1], charRepr);
    }
  }

  /** A scope registers every form of each of its secrets. */
  lemma {:induction false} EveryFormRegistered(secrets: seq<Secret>, charRepr: char -> string, i: nat)
    requires i < |secrets|
    ensures FormsOf(secrets[i], charRepr) <= AllForms(secrets, charRepr)
  {
    if i < |secrets| - 1 {
      EveryFormRegistered(secrets[..|secrets| - 1], charRepr, i);
    }
  }

  lemma HexFormDigits(raw: seq<Byte>, hex: string)
    requires hex in HexForms(raw)
    ensures |hex| == 2 * |raw| && forall i :: 0 <= i < |hex| ==> IsHexDigit(hex[i])
  {
    HexUpperChars(raw);
  }

  /** Eight or more hex digits can share no character with the marker. */
  lemma HexCannotOverlap(hex: string)
    requires |hex| >= 8 && forall i :: 0 <= i < |hex| ==> IsHexDigit(hex[i])
    ensures !Overlaps(hex, REDACTED)
  {
    assert IsHexDigit(hex[0]) && !IsHexDigit(INNER[0]);
    forall p | 0 <= p <= |INNER|
      ensures !At(INNER, hex, p)
    {
      assert p == 0 && |hex| == 8 ==> INNER[p + 0] != hex[0];
    }
    BracketFreeOverlap(hex);
  }

  /**
   Both hex forms of a secret of four bytes or more are registered, and are gone from every
   text, whatever else is registered; a shorter secret registers nothing.
   */
  lemma HexFormAlwaysScrubbed(forms: seq<string>, s: Secret, charRepr: char -> string, text: string)
    requires NonEmpty(forms) && forall f :: f in FormsOf(s, charRepr) ==> f in forms
    ensures |RawOf(s)| >= SECRET_MIN_LITERAL_BYTES ==>
      forall hex :: hex in HexForms(RawOf(s)) ==>
        hex in FormsOf(s, charRepr) && !Contains(Scrub(forms, text, REDACTED), hex)
    ensures |RawOf(s)| < SECRET_MIN_LITERAL_BYTES <==> FormsOf(s, charRepr) == {}
  {
    if |RawOf(s)| >= SECRET_MIN_LITERAL_BYTES {
      forall hex | hex in HexForms(RawOf(s))
        ensures hex in FormsOf(s, charRepr) && !Contains(Scrub(forms, text, REDACTED), hex)
      {
        HexFormDigits(RawOf(s), hex);
        assert hex in FormsOf(s, charRepr);
        HexCannotOverlap(hex);
        ScrubRemoves(forms, text, REDACTED, hex);
      }
      assert HexUpper(RawOf(s)) in HexForms(RawOf(s));
    }
  }

  // ----- Reference-counted scopes -----

  /** How many open scopes register a form. */
  function ScopesOf(open: seq<set<string>>, form: string): nat {
    if open == [] then 0
    else ScopesOf(open[..|open| - 1], form) + (if form in open[|open| - 1] then 1 else 0)
  }

  lemma ScopeOpened(open: seq<set<string>>, forms: set<string>, form: string)
    ensures ScopesOf(open + [forms], form) == ScopesOf(open, form) + (if form in forms then 1 else 0)
  {
    assert (open + [forms])[..|open|] == open;
  }

  lemma {:induction false} ScopeClosed(open: seq<set<string>>, i: nat, form: string)
    requires i < |open|
    ensures ScopesOf(open[..i] + open[i + 1..], form) == ScopesOf(open, form) - (if form in open[i] then 1 else 0)
    ensures form in open[i] ==> ScopesOf(open, form) > 0
  {
    var n := |open| - 1;
    if i == n {
      assert open[..i] + open[i + 1..] == open[..n];
    } else {
      ScopeClosed(open[..n], i, form);
      var rest := open[..i] + open[i + 1..];
      assert open[..n][..i] == open[..i] && open[..n][i + 1..] == open[i + 1..n];
      assert rest == (open[..i] + open[i + 1..n]) + [open[n]];
      assert rest[..|rest| - 1] == open[..n][..i] + open[..n][i + 1..];
    }
  }

  lemma InsertedInOrder(forms: seq<string>, f: string, i: nat)
    requires LongestFirst(forms) && NoDuplicates(forms) && f !in forms && i <= |forms|
    requires forall j :: 0 <= j < i ==> |forms[j]| >= |f|
    requires i < |forms| ==> |forms[i]| < |f|
    ensures
      var r := forms[..i] + [f] + forms[i..];
      LongestFirst(r) && NoDuplicates(r)
  {
    var r := forms[..i] + [f] + forms[i..];
    forall a, b | 0 <= a < b < |r|
      ensures |r[a]| >= |r[b]| && r[a] != r[b]
    {
      assert r[a] == (if a < i then forms[a] else if a == i then f else forms[a - 1]);
      assert r[b] == (if b < i then forms[b] else if b == i then f else forms[b - 1]);
    }
  }

  method Insert(forms: seq<string>, f: string) returns (r: seq<string>)
    requires LongestFirst(forms) && NoDuplicates(forms) && NonEmpty(forms) && f !in forms && f != ""
    ensures LongestFirst(r) && NoDuplicates(r) && NonEmpty(r)
    ensures forall g :: g in r <==> g in forms || g == f
  {
    var i := 0;
    while i < |forms| && |forms[i]| >= |f|
      invariant 0 <= i <= |forms|
      invariant forall j :: 0 <= j < i ==> |forms[j]| >= |f|
    {
      i := i + 1;
    }
    InsertedInOrder(forms, f, i);
    r := forms[..i] + [f] + forms[i..];
    assert forms == forms[..i] + forms[i..];
  }

  function CountOf(counts: map<string, nat>, f: string): nat {
    if f in counts then counts[f] else 0
  }

  class Registry {
    var counts: map<string, nat>
    var snapshot: seq<string>
    /** The scopes not yet left, in order of entry; threads may leave them in any order. */
    ghost var open: seq<set<string>>

    /** Every form's count is its number of open scopes, and the snapshot is those forms. */
    ghost predicate Valid()
      reads this
    {
      && (forall f :: CountOf(counts, f) == ScopesOf(open, f))
      && (forall f :: f in counts ==> counts[f] > 0 && f != "")
      && (forall f :: f in snapshot <==> f in counts)
      && LongestFirst(snapshot) && NoDuplicates(snapshot) && NonEmpty(snapshot)
    }

    constructor ()
      ensures Valid() && open == []
    {
      counts, snapshot, open := map[], [], [];
    }

    method RefreshSnapshot()
      requires forall f :: f in counts ==> f != ""
      modifies this`snapshot
      ensures forall f :: f in snapshot <==> f in counts
      ensures LongestFirst(snapshot) && NoDuplicates(snapshot) && NonEmpty(snapshot)
    {
      var todo := counts.Keys;
      snapshot := [];
      while todo != {}
        invariant todo <= counts.Keys
        invariant LongestFirst(snapshot) && NoDuplicates(snapshot) && NonEmpty(snapshot)
        invariant forall f :: f in snapshot <==> f in counts.Keys && f !in todo
        decreases |todo|
      {
        var f :| f in todo;
        todo := todo - {f};
        snapshot := Insert(snapshot, f);
      }
    }

    /** Open a scope for the secrets; the forms are what leaving it gives back. */
    method Enter(secrets: seq<Secret>, charRepr: char -> string) returns (forms: set<string>)
      requires Valid()
      modifies this
      ensures forms == AllForms(secrets, charRepr)
      ensures forall k :: 0 <= k < |secrets| ==> FormsOf(secrets[k], charRepr) <= forms
      ensures Valid() && open == old(open) + [forms]
    {
      forms := {};
      var k := 0;
      while k < |secrets|
        invariant 0 <= k <= |secrets| && forms == AllForms(secrets[..k], charRepr)
        invariant open == old(open) && counts == old(counts)
      {
        assert secrets[..k + 1][..k] == secrets[..k];
        forms := forms + FormsOf(secrets[k], charRepr);
        k := k + 1;
      }
      assert secrets[..k] == secrets;
      AllFormsNonEmpty(secrets, charRepr);
      forall i | 0 <= i < |secrets|
        ensures FormsOf(secrets[i], charRepr) <= forms
      {
        EveryFormRegistered(secrets, charRepr, i);
      }
      Register(forms);
    }

    method Register(forms: set<string>)
      requires Valid() && "" !in forms
      modifies this
      ensures Valid() && open == old(open) + [forms]
    {
      var todo := forms;
      while todo != {}
        invariant todo <= forms && open == old(open)
        invariant forall f :: f in counts ==> counts[f] > 0 && f != ""
        invariant forall f ::
          CountOf(counts, f) == CountOf(old(counts), f) + (if f in forms && f !in todo then 1 else 0)
        decreases |todo|
      {
        var f :| f in todo;
        todo := todo - {f};
        counts := counts[f := CountOf(counts, f) + 1];
      }
      open := open + [forms];
      forall f
        ensures ScopesOf(open, f) == ScopesOf(old(open), f) + (if f in forms then 1 else 0)
      {
        ScopeOpened(old(open), forms, f);
      }
      RefreshSnapshot();
    }

    method Exit(forms: set<string>, ghost i: nat)
      requires Valid() && i < |open| && open[i] == forms
      modifies this
      ensures Valid() && open == old(open)[..i] + old(open)[i + 1..]
    {
      forall f
        ensures ScopesOf(open[..i] + open[i + 1..], f) == ScopesOf(open, f) - (if f in forms then 1 else 0)
        ensures f in forms ==> ScopesOf(open, f) > 0
      {
        ScopeClosed(open, i, f);
      }
      var todo := forms;
      while todo != {}
        invariant todo <= forms && open == old(open)
        invariant forall f :: f in counts ==> counts[f] > 0 && f != ""
        invariant forall f ::
          CountOf(counts, f) == CountOf(old(counts), f) - (if f in forms && f !in todo then 1 else 0)
        decreases |todo|
      {
        var f :| f in todo;
        todo := todo - {f};
        var count := CountOf(counts, f) - 1;
        if count <= 0 {
          counts := counts - {f};
        } else {
          counts := counts[f := count];
        }
      }
      open := open[..i] + open[i + 1..];
      RefreshSnapshot();
    }

    method ScrubLiterals(text: string) returns (r: string)
      requires Valid()
      ensures r == Scrub(snapshot, text, REDACTED)
      ensures forall g :: ScopesOf(open, g) > 0 && !Overlaps(g, REDACTED) ==> !Contains(r, g)
    {
      r := text;
      var i := 0;
      assert snapshot[0..] == snapshot;
      while i < |snapshot|
        invariant 0 <= i <= |snapshot|
        invariant Scrub(snapshot, text, REDACTED) == Scrub(snapshot[i..], r, REDACTED)
      {
        ScrubFrom(snapshot, i, r);
        if Contains(r, snapshot[i]) {
          r := Replace(r, snapshot[i], REDACTED);
        }
        i := i + 1;
      }
      OpenFormsGone(snapshot, text);
    }
  }

  lemma ScrubFrom(forms: seq<string>, i: nat, text: string)
    requires NonEmpty(forms) && i < |forms|
    ensures Scrub(forms[i..], text, REDACTED)
      == Scrub(forms[i + 1..], ScrubOne(text, forms[i], REDACTED), REDACTED)
  {
    assert forms[i..][1..] == forms[i + 1..];
  }

  lemma OpenFormsGone(forms: seq<string>, text: string)
    requires NonEmpty(forms)
    ensures forall g :: g in forms && !Overlaps(g, REDACTED) ==> !Contains(Scrub(forms, text, REDACTED), g)
  {
    forall g | g in forms && !Overlaps(g, REDACTED)
      ensures !Contains(Scrub(forms, text, REDACTED), g)
    {
      ScrubRemoves(forms, text, REDACTED, g);
    }
  }
}
