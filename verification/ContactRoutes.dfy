/**
 Stored contact routes: normalization of legacy rows, explicit hop lists, splitting, and the
 route a contact effectively uses.
 */
module ContactRoutes {
  import opened Options
  import opened Text
  import PacketFraming

  /** A hex path, its hop count (-1 for flood) and its hash mode. */
  datatype Route = Route(path: string, len: int, mode: int)

  const FLOOD := Route("", -1, -1)

  /** The packed wire byte some rows hold instead of a hop count. */
  function Packed(len: int): int {
    len % 256
  }

  function KnownMode(mode: Option<int>): int {
    if mode.Some? && 0 <= mode.value <= 2 then mode.value else 0
  }

  /** Bytes of a path: the hop count times one, two or three bytes per hop. */
  function WireLen(hops: int, mode: int): int
    requires 0 <= mode <= 2
  {
    if mode == 0 then hops else if mode == 1 then 2 * hops else 3 * hops
  }

  /** How many hops a number of bytes makes, and whether none is left over. */
  function HopsIn(bytes: nat, mode: int): nat
    requires 0 <= mode <= 2
  {
    if mode == 0 then bytes else if mode == 1 then bytes / 2 else bytes / 3
  }

  predicate WholeHops(bytes: nat, mode: int)
    requires 0 <= mode <= 2
  {
    WireLen(HopsIn(bytes, mode), mode) == bytes
  }

  /** Cut an overlong path; lower the hop count of a short one if whole hops are there. */
  function Fit(path: string, len: int, mode: int): Route
    requires 0 <= mode <= 2
  {
    var actual := |path| / 2;
    var expected := WireLen(len, mode);
    if path == "" then Route(path, len, mode)
    else if 0 <= expected < actual then Route(path[..expected * 2], len, mode)
    else if actual < expected && WholeHops(actual, mode) then Route(path, HopsIn(actual, mode), mode)
    else Route(path, len, mode)
  }

  function Normalize(path: Option<string>, len: Option<int>, mode: Option<int>): Route {
    var p := if path.Some? then path.value else "";
    var n := if len.Some? then len.value else -1;
    if -1 <= n <= 63 then
      if n == -1 then FLOOD else Fit(p, n, KnownMode(mode))
    else
      var packed := Packed(n);
      if packed == 0xFF then FLOOD
      else if packed / 64 != 3 then Fit(p, packed % 64, packed / 64)
      else Fit(p, n, KnownMode(mode))
  }

  function Again(r: Route): Route {
    Normalize(Some(r.path), Some(r.len), Some(r.mode))
  }

  predicate ReservedByte(n: int) {
    0xC0 <= Packed(n) < 0xFF
  }

  /**
   The rows normalization does not settle: an out-of-range count whose low byte uses the
   reserved mode, with a path of more than 63 whole hops, fewer than that count.
   */
  predicate Unsettled(path: Option<string>, len: Option<int>, mode: Option<int>) {
    && path.Some? && path.value != "" && len.Some? && len.value > 63 && ReservedByte(len.value)
    && var m, actual := KnownMode(mode), |path.value| / 2;
       && actual < WireLen(len.value, m) && WholeHops(actual, m)
       && HopsIn(actual, m) > 63 && !ReservedByte(HopsIn(actual, m))
  }

  lemma FitTwice(path: string, len: int, mode: int)
    requires 0 <= mode <= 2
    ensures var r := Fit(path, len, mode); r.mode == mode && Fit(r.path, r.len, mode) == r
    ensures 0 <= len <= 63 ==> 0 <= Fit(path, len, mode).len <= 63
  {
  }

  /** Normalizing twice is normalizing once, exactly off the unsettled rows. */
  lemma IdempotentIff(path: Option<string>, len: Option<int>, mode: Option<int>)
    ensures
      var once := Normalize(path, len, mode);
      Again(once) == once <==> !Unsettled(path, len, mode)
  {
    var p := if path.Some? then path.value else "";
    var n := if len.Some? then len.value else -1;
    var packed := Packed(n);
    if 0 <= n <= 63 {
      FitTwice(p, n, KnownMode(mode));
    } else if n != -1 && packed / 64 != 3 {
      FitTwice(p, packed % 64, packed / 64);
    } else if n != -1 && packed != 0xFF {
      FitTwice(p, n, KnownMode(mode));
    }
  }

  /** Such rows exist: 64 one-byte hops stored with a count of 200. */
  lemma UnsettledRow(path: string)
    requires |path| == 128
    ensures Normalize(Some(path), Some(200), Some(0)) == Route(path, 64, 0)
    ensures Again(Route(path, 64, 0)) == Route("", 0, 1)
  {
  }

  /** In particular for counts -1..63 and for packed bytes of a known mode. */
  lemma OrdinaryRowsSettle(path: Option<string>, len: Option<int>, mode: Option<int>)
    requires len.None? || -1 <= len.value <= 63 || !ReservedByte(len.value)
    ensures Again(Normalize(path, len, mode)) == Normalize(path, len, mode)
  {
    IdempotentIff(path, len, mode);
  }

  // ----- Explicit hop lists -----

  /** `bytes.fromhex` accepts pairs of digits, with spaces between pairs. */
  predicate FromHexAccepts(s: string) {
    if s == "" then true
    else if IsSpace(s[0]) then FromHexAccepts(s[1..])
    else |s| >= 2 && IsHexDigit(s[0]) && IsHexDigit(s[1]) && FromHexAccepts(s[2..])
  }

  /** `text.split(",")`, stripped, lower-cased, without the empty pieces. */
  function Hops(text: string, piece: string): seq<string>
    decreases |text|
  {
    var done := Strip(piece);
    var hop := if done == "" then [] else [Lower(done)];
    if text == "" then hop
    else if text[0] == ',' then hop + Hops(text[1..], "")
    else Hops(text[1..], piece + [text[0]])
  }

  function Join(hops: seq<string>): string {
    if hops == [] then "" else hops[0] + Join(hops[1..])
  }

  predicate SameWidth(hops: seq<string>, width: nat) {
    forall i :: 0 <= i < |hops| ==> |hops[i]| == width
  }

  predicate AllHex(hops: seq<string>) {
    forall i :: 0 <= i < |hops| ==> FromHexAccepts(hops[i])
  }

  function ParseExplicit(text: string): Option<Route> {
    var hops := Hops(text, "");
    if hops == [] then None
    else
      var width := |hops[0]|;
      if width != 2 && width != 4 && width != 6 then None
      else if !SameWidth(hops, width) || !AllHex(hops) then None
      else if |hops| * (width / 2) > PacketFraming.MAX_PATH_SIZE then None
      else Some(Route(Join(hops), |hops|, width / 2 - 1))
  }

  function Chunks(s: string, n: nat): seq<string>
    requires n > 0
    decreases |s|
  {
    if |s| == 0 then []
    else if |s| <= n then [s]
    else [s[..n]] + Chunks(s[n..], n)
  }

  function SplitPath(path: string, hopCount: int): seq<string> {
    if path == "" || hopCount <= 0 then []
    else
      var perHop := |path| / hopCount;
      if perHop < 2 || perHop % 2 != 0 || perHop * hopCount != |path| then Chunks(path, 2)
      else Chunks(path, perHop)
  }

  lemma {:induction false} JoinLength(hops: seq<string>, width: nat)
    requires SameWidth(hops, width)
    ensures |Join(hops)| == |hops| * width
  {
    if hops != [] {
      JoinLength(hops[1..], width);
      assert |hops| * width == width + (|hops| - 1) * width;
    }
  }

  lemma {:induction false} ChunksOfJoin(hops: seq<string>, width: nat)
    requires width > 0 && SameWidth(hops, width)
    ensures Chunks(Join(hops), width) == hops
  {
    if hops != [] {
      ChunksOfJoin(hops[1..], width);
      JoinLength(hops, width);
      var all := Join(hops);
      assert all[..width] == hops[0] && all[width..] == Join(hops[1..]);
      if |all| <= width {
        assert hops[1..] == [] && all == hops[0];
        assert hops == [hops[0]];
      } else {
        assert hops == [hops[0]] + hops[1..];
      }
    }
  }

  /** A route of whole hops splits back to them. */
  lemma SplitOfJoin(hops: seq<string>, width: nat)
    requires hops != [] && (width == 2 || width == 4 || width == 6) && SameWidth(hops, width)
    ensures SplitPath(Join(hops), |hops|) == hops
  {
    JoinLength(hops, width);
    ChunksOfJoin(hops, width);
    SplitExact(Join(hops), |hops|, width);
  }

  lemma SplitExact(path: string, n: nat, w: nat)
    requires n > 0 && (w == 2 || w == 4 || w == 6) && |path| == n * w
    ensures SplitPath(path, n) == Chunks(path, w)
  {
    ExactQuotient(n, w);
    assert |path| / n == w && w * n == |path|;
  }

  lemma ExactQuotient(n: nat, w: nat)
    requires n > 0
    ensures n * w / n == w
  {
    var m := n * w;
    var q := m / n;
    assert n * q <= m < n * q + n;
    if q < w {
      Grows(n, q + 1, w);
    } else {
      Grows(n, w, q);
      if q > w {
        Grows(n, w + 1, q);
      }
    }
  }

  lemma Grows(n: nat, x: nat, y: nat)
    requires x <= y
    ensures n * x <= n * y && n * (x + 1) == n * x + n
  {
    assert n * y == n * x + n * (y - x);
  }

  /**
   An accepted explicit route splits back to the hops that were typed; normalization leaves
   it alone exactly when it has at most 63 hops, so sixty-four one-byte hops do not survive.
   */
  lemma ExplicitRoutes(text: string)
    requires ParseExplicit(text).Some?
    ensures
      var r := ParseExplicit(text).value;
      && SplitPath(r.path, r.len) == Hops(text, "")
      && 1 <= r.len <= 64 && 0 <= r.mode <= 2
      && (Again(r) == r <==> r.len <= 63)
      && (r.len == 64 ==> r.mode == 0 && Again(r) == Route("", 0, 1))
  {
    var hops := Hops(text, "");
    var width := |hops[0]|;
    var r := ParseExplicit(text).value;
    SplitOfJoin(hops, width);
    JoinLength(hops, width);
    assert |r.path| / 2 == WireLen(r.len, r.mode);
  }

  /** The hop "aa", typed `n` times with commas. */
  function Typed(n: nat): string {
    if n == 0 then "" else "aa," + Typed(n - 1)
  }

  function SameHops(n: nat): seq<string> {
    seq(n, i => "aa")
  }

  lemma {:induction false} HopsOfTyped(n: nat)
    ensures Hops(Typed(n), "") == SameHops(n)
  {
    if n > 0 {
      var rest := Typed(n - 1);
      var text := Typed(n);
      assert text[1..] == "a," + rest && text[1..][1..] == "," + rest && text[1..][1..][1..] == rest;
      assert Strip("aa") == "aa" && Lower("aa") == "aa";
      assert text[0] == 'a' && ("a," + rest)[0] == 'a' && ("," + rest)[0] == ',';
      calc {
        Hops(text, "");
        { assert "" + ['a'] == "a"; }
        Hops("a," + rest, "a");
        { assert "a" + ['a'] == "aa"; }
        Hops("," + rest, "aa");
        ["aa"] + Hops(rest, "");
      }
      HopsOfTyped(n - 1);
      assert SameHops(n) == ["aa"] + SameHops(n - 1);
    }
  }

  lemma {:induction false} TypedIsHex(n: nat)
    ensures AllHex(SameHops(n)) && SameWidth(SameHops(n), 2)
  {
    assert FromHexAccepts("aa") by {
      assert "aa"[2..] == "";
    }
  }

  lemma ParseTyped(n: nat)
    requires 1 <= n <= 64
    ensures ParseExplicit(Typed(n)) == Some(Route(Join(SameHops(n)), n, 0))
  {
    HopsOfTyped(n);
    TypedIsHex(n);
    var hops := SameHops(n);
    assert hops[0] == "aa" && |hops[0]| == 2 && |hops| * (2 / 2) == n;
  }

  /**
   Up to 64 one-byte hops can be typed.  Up to 63 are left alone by normalization; of 64
   nothing is left.
   */
  lemma TypedHops(n: nat)
    requires 1 <= n <= 64
    ensures
      var r := ParseExplicit(Typed(n));
      && r.Some? && r.value.len == n && SplitPath(r.value.path, n) == SameHops(n)
      && Again(r.value) == if n <= 63 then r.value else Route("", 0, 1)
  {
    ParseTyped(n);
    HopsOfTyped(n);
    ExplicitRoutes(Typed(n));
  }

  // ----- Effective route -----

  datatype Source = Override | Direct | FloodRoute

  class Contact {
    var directPath: Option<string>
    var directLen: int
    var directMode: int
    var overridePath: Option<string>
    var overrideLen: Option<int>
    var overrideMode: Option<int>
    var directRoute: Option<Route>
    var routeOverride: Option<Route>
    var effectiveRoute: Route
    var effectiveSource: Source

    constructor (
      directPath: Option<string>, directLen: int, directMode: int,
      overridePath: Option<string>, overrideLen: Option<int>, overrideMode: Option<int>)
      // The effective route: the normalized override, else the direct route, else flood --
      // exactly when the row that decides it is one that normalization settles.
      ensures
        var direct := Normalize(directPath, Some(directLen), Some(directMode));
        var expected :=
          if overrideLen.Some? then Normalize(overridePath, overrideLen, overrideMode)
          else if direct.len >= 0 then direct else FLOOD;
        var settled :=
          if overrideLen.Some? then !Unsettled(overridePath, overrideLen, overrideMode)
          else !Unsettled(directPath, Some(directLen), Some(directMode));
        && (effectiveRoute == expected <==> settled)
        && (effectiveSource == if overrideLen.Some? then Override else if direct.len >= 0 then Direct else FloodRoute)
        && routeOverride
             == (if overrideLen.Some? then Some(Normalize(overridePath, overrideLen, overrideMode)) else None)
        && directRoute == (if direct.len >= 0 then Some(direct) else None)
    {
      var direct := Normalize(directPath, Some(directLen), Some(directMode));
      this.directPath := if direct.path == "" then None else Some(direct.path);
      this.directLen, this.directMode := direct.len, direct.mode;
      if overrideLen.Some? {
        var o := Normalize(overridePath, overrideLen, overrideMode);
        this.overridePath := if o.path == "" then None else Some(o.path);
        this.overrideLen, this.overrideMode := Some(o.len), Some(o.mode);
        routeOverride := Some(o);
      } else {
        this.overridePath, this.overrideLen, this.overrideMode := None, None, None;
        routeOverride := None;
      }
      directRoute := if direct.len >= 0 then Some(direct) else None;
      new;
      effectiveRoute := EffectiveRouteTuple();
      effectiveSource := if HasRouteOverride() then Override else if directRoute.Some? then Direct else FloodRoute;
      if overrideLen.Some? {
        IdempotentIff(overridePath, overrideLen, overrideMode);
      } else {
        IdempotentIff(directPath, Some(directLen), Some(directMode));
      }
    }

    predicate HasRouteOverride()
      reads this
    {
      overrideLen.Some?
    }

    function EffectiveRouteTuple(): Route
      reads this
    {
      if HasRouteOverride() then Normalize(overridePath, overrideLen, overrideMode)
      else if directLen >= 0 then Normalize(directPath, Some(directLen), Some(directMode))
      else FLOOD
    }
  }
}
