/**
 Layered telemetry alert rules: the field-wise merge, what a node's rules resolve to, and
 PATCH documents.
 */
module AlertRules {
  import opened Options
  import opened Text

  datatype Op = Lt | Gt

  datatype Spec = Spec(
    enabled: Option<bool>,
    op: Option<Op>,
    threshold: Option<real>,
    hysteresis: Option<real>)

  const UNSET := Spec(None, None, None, None)

  /** `battery`, `lpp:temperature`, `lpp:temperature:1`. */
  datatype RuleId = Named(name: string) | LppType(typeName: string) | LppChannel(typeName: string, channel: int)

  const BATTERY := Named("battery")
  const NOISE := Named("noise")
  const RSSI := Named("rssi")
  const SNR := Named("snr")
  const TX_QUEUE := Named("tx_queue")
  const SILENCE := Named("silence")
  const GPS_LOST := Named("gps_lost")

  type Rules = map<RuleId, Spec>

  /** The later value wins where it is set. */
  function Over<T>(base: Option<T>, patch: Option<T>): Option<T> {
    if patch.None? then base else patch
  }

  function Merge(base: Spec, patch: Spec): Spec {
    Spec(Over(base.enabled, patch.enabled), Over(base.op, patch.op),
         Over(base.threshold, patch.threshold), Over(base.hysteresis, patch.hysteresis))
  }

  function Get(rules: Rules, id: RuleId): Spec {
    if id in rules then rules[id] else UNSET
  }

  // ----- Merge algebra -----

  lemma MergeMonoid(a: Spec, b: Spec, c: Spec)
    ensures Merge(Merge(a, b), c) == Merge(a, Merge(b, c))
    ensures Merge(UNSET, a) == a && Merge(a, UNSET) == a
    ensures Merge(Merge(a, b), b) == Merge(a, b)
  {
  }

  /** The reference: the last set value of a list, for one field. */
  function LastSet<T>(values: seq<Option<T>>): Option<T> {
    if values == [] then None
    else if values[|values| - 1].Some? then values[|values| - 1]
    else LastSet(values[..|values| - 1])
  }

  function MergeAll(layers: seq<Spec>): Spec {
    if layers == [] then UNSET else Merge(MergeAll(layers[..|layers| - 1]), layers[|layers| - 1])
  }

  function Field<T>(layers: seq<Spec>, field: Spec -> Option<T>): seq<Option<T>> {
    seq(|layers|, i requires 0 <= i < |layers| => field(layers[i]))
  }

  /** Merging a stack of layers takes, field by field, the last value that is set. */
  lemma {:induction false} MergeAllIsLastSet(layers: seq<Spec>)
    ensures MergeAll(layers).enabled == LastSet(Field(layers, (s: Spec) => s.enabled))
    ensures MergeAll(layers).op == LastSet(Field(layers, (s: Spec) => s.op))
    ensures MergeAll(layers).threshold == LastSet(Field(layers, (s: Spec) => s.threshold))
    ensures MergeAll(layers).hysteresis == LastSet(Field(layers, (s: Spec) => s.hysteresis))
  {
    if layers != [] {
      var init := layers[..|layers| - 1];
      MergeAllIsLastSet(init);
      FieldSnoc(layers, (s: Spec) => s.enabled);
      FieldSnoc(layers, (s: Spec) => s.op);
      FieldSnoc(layers, (s: Spec) => s.threshold);
      FieldSnoc(layers, (s: Spec) => s.hysteresis);
    }
  }

  lemma FieldSnoc<T>(layers: seq<Spec>, field: Spec -> Option<T>)
    requires layers != []
    ensures
      var init, last := layers[..|layers| - 1], layers[|layers| - 1];
      LastSet(Field(layers, field)) == Over(LastSet(Field(init, field)), field(last))
  {
    var all := Field(layers, field);
    assert all[..|all| - 1] == Field(layers[..|layers| - 1], field);
  }

  // ----- Per-node resolution -----

  datatype NodeOverride = NodeOverride(alerting: Option<bool>, rules: Rules)

  datatype Channels = Channels(push: bool, email: bool, webhook: bool)

  datatype AlertRules = AlertRules(channels: Channels, rules: Rules, overrides: map<string, NodeOverride>)

  datatype Resolved = Resolved(alerting: bool, rules: Rules)

  /** Merge every rule of `patch` into `base`. */
  function Layer(base: Rules, patch: Rules): Rules {
    map id | id in base.Keys + patch.Keys :: Merge(Get(base, id), Get(patch, id))
  }

  function Resolve(rules: AlertRules, key: string): Resolved {
    if key !in rules.overrides then Resolved(true, rules.rules)
    else
      var o := rules.overrides[key];
      Resolved(o.alerting.None? || o.alerting.value, Layer(rules.rules, o.rules))
  }

  lemma LayerAt(base: Rules, patch: Rules, id: RuleId)
    ensures Get(Layer(base, patch), id) == Merge(Get(base, id), Get(patch, id))
    ensures id in Layer(base, patch) <==> id in base || id in patch
  {
  }

  lemma LayerStep(base: Rules, seen: Rules, id: RuleId, s: Spec)
    requires id !in seen
    ensures Layer(base, seen)[id := Merge(Get(Layer(base, seen), id), s)] == Layer(base, seen[id := s])
  {
    LayerAt(base, seen, id);
    MergeMonoid(Get(base, id), UNSET, s);
  }

  lemma LayerNothing(base: Rules)
    ensures Layer(base, map[]) == base
  {
    forall id | id in base
      ensures Layer(base, map[])[id] == base[id]
    {
      MergeMonoid(base[id], UNSET, UNSET);
    }
  }

  /** The loop behind both node overrides and PATCH rules. */
  method LayerRules(base: Rules, patch: Rules) returns (merged: Rules)
    ensures merged == Layer(base, patch)
  {
    merged := base;
    LayerNothing(base);
    var todo := patch.Keys;
    ghost var seen: Rules := map[];
    while todo != {}
      invariant todo <= patch.Keys && seen == patch - todo
      invariant merged == Layer(base, seen)
      decreases |todo|
    {
      var id :| id in todo;
      LayerStep(base, seen, id, patch[id]);
      todo := todo - {id};
      merged := merged[id := Merge(Get(merged, id), patch[id])];
      seen := seen[id := patch[id]];
    }
    assert seen == patch;
  }

  method ResolveNodeRules(rules: AlertRules, publicKey: string) returns (r: Resolved)
    ensures r == Resolve(rules, Lower(publicKey))
  {
    var key := Lower(publicKey);
    if key !in rules.overrides {
      return Resolved(true, rules.rules);
    }
    var o := rules.overrides[key];
    var merged := LayerRules(rules.rules, o.rules);
    return Resolved(o.alerting.None? || o.alerting.value, merged);
  }

  /** The rule of one LPP channel of a node: its type's rule, then its own. */
  function LppRule(node: Rules, typeName: string, channel: int): Option<Spec> {
    var byType, byChannel := LppType(typeName), LppChannel(typeName, channel);
    if byChannel in node then Some(Merge(Get(node, byType), node[byChannel]))
    else if byType in node then Some(node[byType])
    else None
  }

  function NodeRules(rules: AlertRules, key: string): Rules {
    if key in rules.overrides then rules.overrides[key].rules else map[]
  }

  /**
   The effective rule of an LPP channel is, field by field, the last set value of: global
   type, node type, global channel, node channel.
   */
  lemma EffectiveLppRule(rules: AlertRules, key: string, typeName: string, channel: int)
    ensures
      var t, ch := LppType(typeName), LppChannel(typeName, channel);
      var node := NodeRules(rules, key);
      var effective := LppRule(Resolve(rules, key).rules, typeName, channel);
      && (effective.None? <==> t !in rules.rules && t !in node && ch !in rules.rules && ch !in node)
      && (effective.Some? ==>
            effective.value == MergeAll([Get(rules.rules, t), Get(node, t), Get(rules.rules, ch), Get(node, ch)]))
  {
    var t, ch := LppType(typeName), LppChannel(typeName, channel);
    var node := NodeRules(rules, key);
    var a, b, c, d := Get(rules.rules, t), Get(node, t), Get(rules.rules, ch), Get(node, ch);
    LayerAt(rules.rules, node, t);
    LayerAt(rules.rules, node, ch);
    FourLayers(a, b, c, d);
  }

  lemma MergeAllSnoc(layers: seq<Spec>, s: Spec)
    ensures MergeAll(layers + [s]) == Merge(MergeAll(layers), s)
  {
    assert (layers + [s])[..|layers|] == layers;
  }

  lemma FourLayers(a: Spec, b: Spec, c: Spec, d: Spec)
    ensures MergeAll([a, b, c]) == Merge(Merge(a, b), c)
    ensures MergeAll([a, b, c, d]) == Merge(Merge(a, b), Merge(c, d))
  {
    MergeAllSnoc([], a);
    MergeAllSnoc([a], b);
    MergeAllSnoc([a, b], c);
    MergeAllSnoc([a, b, c], d);
    assert [] + [a] == [a] && [a] + [b] == [a, b] && [a, b] + [c] == [a, b, c] && [a, b, c] + [d] == [a, b, c, d];
  }

  // ----- PATCH documents -----

  const MISSES_MIN := 1
  const MISSES_MAX := 4

  /** A whole number of misses between one and four. */
  function ClampMisses(t: real): int {
    if t < 2.0 then MISSES_MIN else if t >= 4.0 then MISSES_MAX else t.Floor
  }

  const DEFAULTS: Rules := map[
    BATTERY := Spec(Some(true), Some(Lt), Some(3.5), Some(0.2)),
    NOISE := Spec(Some(true), Some(Gt), Some(-90.0), Some(3.0)),
    RSSI := Spec(Some(false), Some(Lt), Some(-120.0), Some(5.0)),
    SNR := Spec(Some(false), Some(Lt), Some(0.0), Some(2.0)),
    TX_QUEUE := Spec(Some(false), Some(Gt), Some(10.0), Some(2.0)),
    SILENCE := Spec(Some(true), None, Some(2.0), None),
    GPS_LOST := Spec(Some(true), None, None, None),
    LppType("temperature") := Spec(Some(false), Some(Gt), Some(50.0), Some(1.0))]

  datatype ChannelPatch = ChannelPatch(push: Option<bool>, email: Option<bool>, webhook: Option<bool>)

  datatype KeyedOverride = KeyedOverride(key: string, value: NodeOverride)

  /** Omitted or null, or the entries of the document in order. */
  datatype OverridePatch = Omitted | Entries(entries: seq<KeyedOverride>)

  datatype Patch = Patch(channels: Option<ChannelPatch>, rules: Option<Rules>, overrides: OverridePatch)

  function ClampSilence(id: RuleId, s: Spec): Spec {
    if id == SILENCE && s.threshold.Some? then s.(threshold := Some(ClampMisses(s.threshold.value) as real)) else s
  }

  /** Fill in the defaults below the given rules; only the silence threshold is clamped. */
  function Coerce(rules: Rules, defaults: Rules): Rules {
    map id | id in defaults.Keys + rules.Keys :: ClampSilence(id, Merge(Get(defaults, id), Get(rules, id)))
  }

  function MergeChannels(stored: Channels, patch: Option<ChannelPatch>): Channels {
    match patch
    case None => stored
    case Some(p) =>
      Channels(if p.push.Some? then p.push.value else stored.push,
               if p.email.Some? then p.email.value else stored.email,
               if p.webhook.Some? then p.webhook.value else stored.webhook)
  }

  function MergeOverride(base: NodeOverride, patch: NodeOverride): NodeOverride {
    NodeOverride(Over(base.alerting, patch.alerting), Layer(base.rules, patch.rules))
  }

  const NO_OVERRIDE := NodeOverride(None, map[])

  function OverrideOf(m: map<string, NodeOverride>, key: string): NodeOverride {
    if key in m then m[key] else NO_OVERRIDE
  }

  /** Merge the entries by public key, or put them in place of what was there. */
  function PutEntries(m: map<string, NodeOverride>, entries: seq<KeyedOverride>, replace: bool)
    : map<string, NodeOverride>
  {
    if entries == [] then m
    else
      var before := PutEntries(m, entries[..|entries| - 1], replace);
      var e := entries[|entries| - 1];
      var key := Lower(e.key);
      before[key := if replace then e.value else MergeOverride(OverrideOf(before, key), e.value)]
  }

  /** A document with channels and rules is complete: its overrides replace the stored map. */
  function MergeOverrides(stored: map<string, NodeOverride>, patch: Patch): map<string, NodeOverride> {
    match patch.overrides
    case Omitted => stored
    case Entries(entries) =>
      if entries == [] then map[]
      else if patch.channels.Some? && patch.rules.Some? then PutEntries(map[], entries, true)
      else PutEntries(stored, entries, false)
  }

  function MergePatch(stored: AlertRules, patch: Patch, defaults: Rules): AlertRules {
    AlertRules(
      MergeChannels(stored.channels, patch.channels),
      Coerce(if patch.rules.Some? then Layer(stored.rules, patch.rules.value) else stored.rules, defaults),
      MergeOverrides(stored.overrides, patch))
  }

  /** Each rule after a PATCH: the last set value of default, stored and patched, clamped. */
  lemma PatchedRule(stored: AlertRules, patch: Patch, defaults: Rules, id: RuleId)
    ensures
      var p := if patch.rules.Some? then patch.rules.value else map[];
      Get(MergePatch(stored, patch, defaults).rules, id)
        == ClampSilence(id, MergeAll([Get(defaults, id), Get(stored.rules, id), Get(p, id)]))
  {
    var p := if patch.rules.Some? then patch.rules.value else map[];
    var d, s, q := Get(defaults, id), Get(stored.rules, id), Get(p, id);
    FourLayers(d, s, q, UNSET);
    LayerAt(stored.rules, p, id);
    MergeMonoid(d, s, q);
  }

  /** Re-applying a layer over its own clamped result changes nothing. */
  lemma SpecTwice(id: RuleId, d: Spec, s: Spec, q: Spec)
    ensures
      var once := ClampSilence(id, MergeAll([d, s, q]));
      ClampSilence(id, MergeAll([d, once, q])) == once
  {
    FourLayers(d, s, q, UNSET);
    FourLayers(d, ClampSilence(id, MergeAll([d, s, q])), q, UNSET);
  }

  lemma PatchedKeys(stored: AlertRules, patch: Patch, defaults: Rules)
    ensures
      var p: Rules := if patch.rules.Some? then patch.rules.value else map[];
      MergePatch(stored, patch, defaults).rules.Keys == defaults.Keys + stored.rules.Keys + p.Keys
  {
  }

  lemma RuleTwice(stored: AlertRules, patch: Patch, defaults: Rules, id: RuleId)
    ensures
      var once := MergePatch(stored, patch, defaults);
      Get(MergePatch(once, patch, defaults).rules, id) == Get(once.rules, id)
  {
    var p: Rules := if patch.rules.Some? then patch.rules.value else map[];
    PatchedRule(stored, patch, defaults, id);
    PatchedRule(MergePatch(stored, patch, defaults), patch, defaults, id);
    SpecTwice(id, Get(defaults, id), Get(stored.rules, id), Get(p, id));
  }

  lemma SameRules(a: Rules, b: Rules)
    requires a.Keys == b.Keys && forall id :: Get(a, id) == Get(b, id)
    ensures a == b
  {
    forall id | id in a
      ensures a[id] == b[id]
    {
      assert Get(a, id) == Get(b, id);
    }
  }

  lemma RulesTwice(stored: AlertRules, patch: Patch, defaults: Rules)
    ensures
      var once := MergePatch(stored, patch, defaults);
      MergePatch(once, patch, defaults).rules == once.rules
  {
    var once := MergePatch(stored, patch, defaults);
    PatchedKeys(stored, patch, defaults);
    PatchedKeys(once, patch, defaults);
    forall id
      ensures Get(once.rules, id) == Get(MergePatch(once, patch, defaults).rules, id)
    {
      RuleTwice(stored, patch, defaults, id);
    }
    SameRules(once.rules, MergePatch(once, patch, defaults).rules);
  }

  // Overrides: after the entries, each touched key carries the last set value of every field.

  /** What the entries say about one key, merged in order. */
  function Said(entries: seq<KeyedOverride>, key: string): NodeOverride {
    if entries == [] then NO_OVERRIDE
    else
      var before, e := Said(entries[..|entries| - 1], key), entries[|entries| - 1];
      if Lower(e.key) == key then MergeOverride(before, e.value) else before
  }

  predicate Mentions(entries: seq<KeyedOverride>, key: string) {
    exists i :: 0 <= i < |entries| && Lower(entries[i].key) == key
  }

  lemma LayerAssocAt(a: Rules, b: Rules, c: Rules, id: RuleId)
    ensures Get(Layer(Layer(a, b), c), id) == Get(Layer(a, Layer(b, c)), id)
  {
    LayerAt(a, b, id);
    LayerAt(Layer(a, b), c, id);
    LayerAt(b, c, id);
    LayerAt(a, Layer(b, c), id);
    MergeMonoid(Get(a, id), Get(b, id), Get(c, id));
  }

  lemma LayerKeys(a: Rules, b: Rules)
    ensures Layer(a, b).Keys == a.Keys + b.Keys
  {
  }

  lemma LayerAssoc(a: Rules, b: Rules, c: Rules)
    ensures Layer(Layer(a, b), c) == Layer(a, Layer(b, c))
  {
    var l, r := Layer(Layer(a, b), c), Layer(a, Layer(b, c));
    assert l.Keys == r.Keys by {
      LayerKeys(a, b);
      LayerKeys(Layer(a, b), c);
      LayerKeys(b, c);
      LayerKeys(a, Layer(b, c));
    }
    forall id
      ensures Get(l, id) == Get(r, id)
    {
      LayerAssocAt(a, b, c, id);
    }
    SameRules(l, r);
  }

  lemma OverrideAssoc(a: NodeOverride, b: NodeOverride, c: NodeOverride)
    ensures MergeOverride(MergeOverride(a, b), c) == MergeOverride(a, MergeOverride(b, c))
  {
    LayerAssoc(a.rules, b.rules, c.rules);
  }

  lemma OverrideUnit(a: NodeOverride)
    ensures MergeOverride(a, NO_OVERRIDE) == a && MergeOverride(NO_OVERRIDE, a) == a
    ensures MergeOverride(a, a) == a
  {
    forall id
      ensures Get(Layer(a.rules, map[]), id) == Get(a.rules, id)
      ensures Get(Layer(map[], a.rules), id) == Get(a.rules, id)
      ensures Get(Layer(a.rules, a.rules), id) == Get(a.rules, id)
    {
      LayerAt(a.rules, map[], id);
      LayerAt(map[], a.rules, id);
      LayerAt(a.rules, a.rules, id);
    }
    assert Layer(a.rules, map[]) == a.rules;
    assert Layer(map[], a.rules) == a.rules;
    assert Layer(a.rules, a.rules) == a.rules;
  }

  /** Merging the entries into a map puts, over each mentioned key, all they say about it. */
  lemma {:induction false} EntriesMerge(m: map<string, NodeOverride>, entries: seq<KeyedOverride>, key: string)
    ensures
      var after := PutEntries(m, entries, false);
      && (key in after <==> key in m || Mentions(entries, key))
      && (key in after ==> after[key] == MergeOverride(OverrideOf(m, key), Said(entries, key)))
  {
    if entries == [] {
      OverrideUnit(OverrideOf(m, key));
    } else {
      var init, e := entries[..|entries| - 1], entries[|entries| - 1];
      EntriesMerge(m, init, key);
      assert Mentions(entries, key) <==> Mentions(init, key) || Lower(e.key) == key by {
        assert forall i :: 0 <= i < |init| ==> init[i] == entries[i];
      }
      OverrideAssoc(OverrideOf(m, key), Said(init, key), e.value);
      if !(key in m || Mentions(init, key)) {
        SaidNothing(init, key);
        OverrideUnit(NO_OVERRIDE);
      }
    }
  }

  lemma {:induction false} SaidNothing(entries: seq<KeyedOverride>, key: string)
    requires !Mentions(entries, key)
    ensures Said(entries, key) == NO_OVERRIDE
  {
    if entries != [] {
      var init := entries[..|entries| - 1];
      assert forall i :: 0 <= i < |init| ==> init[i] == entries[i];
      SaidNothing(init, key);
    }
  }

  lemma OverridesTwice(m: map<string, NodeOverride>, entries: seq<KeyedOverride>)
    ensures
      var once := PutEntries(m, entries, false);
      PutEntries(once, entries, false) == once
  {
    var once := PutEntries(m, entries, false);
    var twice := PutEntries(once, entries, false);
    forall key
      ensures key in twice <==> key in once
      ensures key in once ==> twice[key] == once[key]
    {
      EntriesMerge(m, entries, key);
      EntriesMerge(once, entries, key);
      if key in once {
        OverrideAssoc(OverrideOf(m, key), Said(entries, key), Said(entries, key));
        OverrideUnit(Said(entries, key));
      }
    }
  }

  /** Applying the same PATCH twice is applying it once. */
  lemma PatchIdempotent(stored: AlertRules, patch: Patch, defaults: Rules)
    ensures
      var once := MergePatch(stored, patch, defaults);
      MergePatch(once, patch, defaults) == once
  {
    RulesTwice(stored, patch, defaults);
    if patch.overrides.Entries? {
      OverridesTwice(stored.overrides, patch.overrides.entries);
    }
  }

  // ----- Legacy documents -----

  /** A threshold of the older document shape: not there, or there, maybe null. */
  datatype Legacy = Absent | Given(value: Option<real>)

  datatype Thresholds = Thresholds(batteryVoltsMin: Legacy, noiseFloorMaxDbm: Legacy, missesBeforeAlert: Legacy)

  /** An override and a document as they arrive, with thresholds of either shape. */
  datatype RawOverride = RawOverride(alerting: Option<bool>, rules: Rules, legacy: Thresholds)

  datatype RawKeyed = RawKeyed(key: string, value: RawOverride)

  datatype RawOverrides = RawOmitted | RawEntries(entries: seq<RawKeyed>)

  datatype RawPatch = RawPatch(
    channels: Option<ChannelPatch>, rules: Option<Rules>, overrides: RawOverrides, legacy: Thresholds)

  function AbsorbOne(rules: Rules, id: RuleId, legacy: Legacy): Rules {
    if legacy.Absent? then rules else rules[id := Get(rules, id).(threshold := legacy.value)]
  }

  function AbsorbAll(rules: Rules, t: Thresholds): Rules {
    AbsorbOne(AbsorbOne(AbsorbOne(rules, BATTERY, t.batteryVoltsMin), NOISE, t.noiseFloorMaxDbm),
              SILENCE, t.missesBeforeAlert)
  }

  function AbsorbOverride(raw: RawOverride): NodeOverride {
    NodeOverride(raw.alerting, AbsorbAll(raw.rules, raw.legacy))
  }

  function AbsorbEntries(entries: seq<RawKeyed>): seq<KeyedOverride> {
    seq(|entries|, i requires 0 <= i < |entries| =>
      KeyedOverride(entries[i].key, AbsorbOverride(entries[i].value)))
  }

  /** The validators in front of every document: a legacy threshold becomes part of its rule. */
  function Absorb(raw: RawPatch): Patch {
    var rules := AbsorbAll(if raw.rules.Some? then raw.rules.value else map[], raw.legacy);
    Patch(raw.channels,
          if rules != map[] then Some(rules) else raw.rules,
          match raw.overrides
          case RawOmitted => Omitted
          case RawEntries(entries) => Entries(AbsorbEntries(entries)))
  }

  function LegacyThreshold(t: Thresholds, id: RuleId): Legacy {
    if id == BATTERY then t.batteryVoltsMin
    else if id == NOISE then t.noiseFloorMaxDbm
    else if id == SILENCE then t.missesBeforeAlert
    else Absent
  }

  /** Each rule of a document: its own fields, with the threshold a legacy field puts in its place. */
  lemma AbsorbedRule(rules: Rules, t: Thresholds, id: RuleId)
    ensures
      var legacy := LegacyThreshold(t, id);
      Get(AbsorbAll(rules, t), id)
        == if legacy.Given? then Get(rules, id).(threshold := legacy.value) else Get(rules, id)
  {
  }

  function SetThreshold(s: Spec, legacy: Legacy): Spec {
    s.(threshold := Over(s.threshold, if legacy.Given? then legacy.value else None))
  }

  /** A legacy PATCH updates only the three thresholds it names, and only those it sets. */
  lemma LegacyPatch(stored: AlertRules, raw: RawPatch, defaults: Rules, id: RuleId)
    requires raw.channels.None? && raw.rules.None? && raw.overrides.RawOmitted?
    ensures
      var after := MergePatch(stored, Absorb(raw), defaults);
      var kept := Merge(Get(defaults, id), Get(stored.rules, id));
      && after.channels == stored.channels && after.overrides == stored.overrides
      && Get(after.rules, id) == ClampSilence(id, SetThreshold(kept, LegacyThreshold(raw.legacy, id)))
  {
    AbsorbedRule(map[], raw.legacy, id);
    PatchedRule(stored, Absorb(raw), defaults, id);
    var d, s, legacy := Get(defaults, id), Get(stored.rules, id), LegacyThreshold(raw.legacy, id);
    FourLayers(d, s, if legacy.Given? then UNSET.(threshold := legacy.value) else UNSET, UNSET);
  }

  /** So does a legacy override, on what is stored for its node. */
  lemma LegacyOverride(stored: NodeOverride, raw: RawOverride, id: RuleId)
    requires raw.alerting.None? && raw.rules == map[]
    ensures
      var after := MergeOverride(stored, AbsorbOverride(raw));
      && after.alerting == stored.alerting
      && Get(after.rules, id) == SetThreshold(Get(stored.rules, id), LegacyThreshold(raw.legacy, id))
  {
    AbsorbedRule(map[], raw.legacy, id);
    LayerAt(stored.rules, AbsorbOverride(raw).rules, id);
  }

  // ----- PATCH as the program applies it -----

  lemma CoerceIsClampedLayer(rules: Rules, defaults: Rules)
    ensures
      var merged := Layer(defaults, rules);
      Coerce(rules, defaults)
        == if SILENCE in merged then merged[SILENCE := ClampSilence(SILENCE, merged[SILENCE])] else merged
  {
  }

  method CoerceRules(rules: Rules, defaults: Rules) returns (filled: Rules)
    ensures filled == Coerce(rules, defaults)
  {
    filled := LayerRules(defaults, rules);
    CoerceIsClampedLayer(rules, defaults);
    var silence := Get(filled, SILENCE);
    if silence.threshold.Some? {
      var clamped := ClampMisses(silence.threshold.value) as real;
      filled := filled[SILENCE := Merge(silence, UNSET.(threshold := Some(clamped)))];
    }
  }

  method MergeByKey(stored: map<string, NodeOverride>, entries: seq<KeyedOverride>, replace: bool)
    returns (merged: map<string, NodeOverride>)
    ensures merged == PutEntries(stored, entries, replace)
  {
    merged := stored;
    var i := 0;
    while i < |entries|
      invariant 0 <= i <= |entries|
      invariant merged == PutEntries(stored, entries[..i], replace)
    {
      var key, value := Lower(entries[i].key), entries[i].value;
      if !replace {
        var existing := OverrideOf(merged, key);
        var rules := LayerRules(existing.rules, value.rules);
        value := NodeOverride(if value.alerting.Some? then value.alerting else existing.alerting, rules);
      }
      merged := merged[key := value];
      assert entries[..i + 1][..i] == entries[..i];
      i := i + 1;
    }
    assert entries[..i] == entries;
  }

  method PatchChannels(stored: Channels, patch: Option<ChannelPatch>) returns (channels: Channels)
    ensures channels == MergeChannels(stored, patch)
  {
    channels := stored;
    if patch.Some? {
      var p := patch.value;
      if p.push.Some? {
        channels := channels.(push := p.push.value);
      }
      if p.email.Some? {
        channels := channels.(email := p.email.value);
      }
      if p.webhook.Some? {
        channels := channels.(webhook := p.webhook.value);
      }
    }
  }

  method MergeTelemetryAlertRules(stored: AlertRules, patch: Patch, defaults: Rules) returns (merged: AlertRules)
    ensures merged == MergePatch(stored, patch, defaults)
  {
    var channels := PatchChannels(stored.channels, patch.channels);
    var rules := stored.rules;
    if patch.rules.Some? {
      rules := LayerRules(rules, patch.rules.value);
    }
    var overrides := stored.overrides;
    if patch.overrides.Entries? {
      var entries := patch.overrides.entries;
      if entries == [] {
        overrides := map[];
      } else if patch.channels.Some? && patch.rules.Some? {
        overrides := MergeByKey(map[], entries, true);
      } else {
        overrides := MergeByKey(overrides, entries, false);
      }
    }
    var filled := CoerceRules(rules, defaults);
    return AlertRules(channels, filled, overrides);
  }

  /** A document as it arrives, legacy thresholds included. */
  method ApplyDocument(stored: AlertRules, raw: RawPatch, defaults: Rules) returns (merged: AlertRules)
    ensures merged == MergePatch(stored, Absorb(raw), defaults)
  {
    merged := MergeTelemetryAlertRules(stored, Absorb(raw), defaults);
  }
}
