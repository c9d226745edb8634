/**
 Telemetry alert evaluation after each poll of one node: hysteresis gauges, LPP gauges, the
 run of misses and the lost GPS fix, each with its own stored latch row.
 */
module TelemetryLatches {
  import opened Options
  import opened AlertRules

  datatype Row = Row(misses: nat, firedAt: Option<int>, lastValue: Option<real>)

  type Rows = map<RuleId, Row>

  /** An LPP sample; `value` is none unless it is a number of a scalar type. */
  datatype Sensor = Sensor(typeName: string, channel: int, value: Option<real>)

  /** The numeric gauges present, the LPP samples, and whether one of them has a GPS fix. */
  datatype Snapshot = Snapshot(gauges: map<RuleId, real>, sensors: seq<Sensor>, hasFix: bool)

  datatype Outcome = Busy | Miss | Success

  /** One poll, with the settings and the clock at that time. */
  datatype Poll = Poll(
    outcome: Outcome,
    tracked: bool,
    alerting: bool,
    rules: Rules,
    snapshot: Option<Snapshot>,
    allowGps: bool,
    historyHadFix: bool,
    now: int)

  const GAUGE_IDS := [BATTERY, NOISE, RSSI, SNR, TX_QUEUE]

  function RowOf(rows: Rows, id: RuleId): Option<Row> {
    if id in rows then Some(rows[id]) else None
  }

  /** A stored time of zero reads as "not fired". */
  predicate Latched(row: Option<Row>) {
    row.Some? && row.value.firedAt.Some? && row.value.firedAt.value != 0
  }

  predicate IsEnabled(s: Spec, fallback: Option<bool>) {
    if s.enabled.Some? then s.enabled.value else fallback == Some(true)
  }

  // ----- One gauge -----

  datatype Reading = Reading(value: real, op: Op, threshold: real, hysteresis: real, now: int)

  predicate InAlarm(r: Reading) {
    if r.op.Lt? then r.value < r.threshold else r.value > r.threshold
  }

  predicate Rearms(r: Reading) {
    if r.op.Lt? then r.value >= r.threshold + r.hysteresis else r.value <= r.threshold - r.hysteresis
  }

  predicate GaugeFires(row: Option<Row>, r: Reading) {
    !Latched(row) && InAlarm(r)
  }

  function GaugeRow(row: Option<Row>, r: Reading): Row {
    if Latched(row) then Row(0, if Rearms(r) then None else row.value.firedAt, Some(r.value))
    else Row(0, if InAlarm(r) then Some(r.now) else None, Some(r.value))
  }

  function ReadingOf(s: Spec, value: real, now: int): Option<Reading> {
    if s.threshold.None? || s.op.None? then None
    else Some(Reading(value, s.op.value, s.threshold.value,
                      if s.hysteresis.Some? then s.hysteresis.value else 0.0, now))
  }

  /** Which gauges a successful poll evaluates, and with what. */
  datatype Evaluated = Evaluated(id: RuleId, reading: Reading)

  function StatusReading(p: Poll, id: RuleId): Option<Reading> {
    if p.snapshot.None? || id !in p.rules || id !in p.snapshot.value.gauges then None
    else
      var spec, value := p.rules[id], p.snapshot.value.gauges[id];
      var fallback := if id in DEFAULTS then DEFAULTS[id].enabled else None;
      if !IsEnabled(spec, fallback) || (id == BATTERY && value <= 0.0) then None
      else ReadingOf(spec, value, p.now)
  }

  function StatusReadings(p: Poll, ids: seq<RuleId>): seq<Evaluated> {
    if ids == [] then []
    else
      (match StatusReading(p, ids[0])
       case Some(r) => [Evaluated(ids[0], r)]
       case None => []) + StatusReadings(p, ids[1..])
  }

  datatype Sample = Sample(id: RuleId, value: real)

  /** The dictionary of scalar samples: a later sample of a channel replaces its value. */
  function Put(samples: seq<Sample>, s: Sample): seq<Sample> {
    if samples == [] then [s]
    else if samples[0].id == s.id then [s] + samples[1..]
    else [samples[0]] + Put(samples[1..], s)
  }

  function Present(sensors: seq<Sensor>): seq<Sample> {
    if sensors == [] then []
    else
      var before, last := Present(sensors[..|sensors| - 1]), sensors[|sensors| - 1];
      if last.value.None? then before
      else Put(before, Sample(LppChannel(last.typeName, last.channel), last.value.value))
  }

  function LppReading(p: Poll, s: Sample): Option<Reading> {
    if !s.id.LppChannel? then None
    else
      match LppRule(p.rules, s.id.typeName, s.id.channel)
      case None => None
      case Some(spec) => if IsEnabled(spec, None) then ReadingOf(spec, s.value, p.now) else None
  }

  function LppReadings(p: Poll, samples: seq<Sample>): seq<Evaluated> {
    if samples == [] then []
    else
      (match LppReading(p, samples[0])
       case Some(r) => [Evaluated(samples[0].id, r)]
       case None => []) + LppReadings(p, samples[1..])
  }

  function Readings(p: Poll): seq<Evaluated> {
    StatusReadings(p, GAUGE_IDS)
    + (if p.allowGps && p.snapshot.Some? then LppReadings(p, Present(p.snapshot.value.sensors)) else [])
  }

  // ----- One poll -----

  /** The rows after a poll and the rules that raised an alert. */
  datatype Eval = Eval(rows: Rows, fired: set<RuleId>)

  function Apply(e: Eval, g: Evaluated): Eval {
    var row := RowOf(e.rows, g.id);
    Eval(e.rows[g.id := GaugeRow(row, g.reading)], if GaugeFires(row, g.reading) then e.fired + {g.id} else e.fired)
  }

  function ApplyAll(e: Eval, gs: seq<Evaluated>): Eval
    decreases |gs|
  {
    if gs == [] then e else ApplyAll(Apply(e, gs[0]), gs[1..])
  }

  predicate SilenceEnabled(p: Poll) {
    IsEnabled(Get(p.rules, SILENCE), Some(true))
  }

  function SilenceThreshold(p: Poll): int {
    var t := Get(p.rules, SILENCE).threshold;
    ClampMisses(if t.Some? then t.value else 2.0)
  }

  function MissesBefore(rows: Rows): nat {
    if SILENCE in rows then rows[SILENCE].misses else 0
  }

  predicate SilenceFires(rows: Rows, p: Poll) {
    SilenceEnabled(p) && MissesBefore(rows) + 1 >= SilenceThreshold(p) && !Latched(RowOf(rows, SILENCE))
  }

  function ApplyMiss(rows: Rows, p: Poll): Eval {
    var misses := MissesBefore(rows) + 1;
    var firedAt :=
      if Latched(RowOf(rows, SILENCE)) then rows[SILENCE].firedAt
      else if SilenceFires(rows, p) then Some(p.now) else None;
    Eval(rows[SILENCE := Row(misses, firedAt, Some(misses as real))],
         if SilenceFires(rows, p) then {SILENCE} else {})
  }

  predicate GpsEvaluated(p: Poll) {
    p.allowGps && IsEnabled(Get(p.rules, GPS_LOST), Some(true))
  }

  predicate HasFix(p: Poll) {
    p.snapshot.Some? && p.snapshot.value.hasFix
  }

  /** What the stored row, or else the history, says about a fix before this poll. */
  predicate HadFix(row: Option<Row>, p: Poll) {
    if row.Some? && row.value.lastValue.Some? then row.value.lastValue.value >= 1.0 else p.historyHadFix
  }

  function ApplyGps(e: Eval, p: Poll): Eval {
    var row := RowOf(e.rows, GPS_LOST);
    if HasFix(p) then e.(rows := e.rows[GPS_LOST := Row(0, None, Some(1.0))])
    else if HadFix(row, p) && !Latched(row) then
      Eval(e.rows[GPS_LOST := Row(0, Some(p.now), Some(0.0))], e.fired + {GPS_LOST})
    else
      e.(rows := e.rows[GPS_LOST := Row(0, if Latched(row) then row.value.firedAt else None, Some(0.0))])
  }

  predicate Counts(p: Poll) {
    !p.outcome.Busy? && p.tracked && p.alerting
  }

  function Step(rows: Rows, p: Poll): Eval {
    if !Counts(p) then Eval(rows, {})
    else if p.outcome.Miss? then ApplyMiss(rows, p)
    else
      var reset := rows[SILENCE := Row(0, None, Some(0.0))];
      var gauged := ApplyAll(Eval(reset, {}), Readings(p));
      if GpsEvaluated(p) then ApplyGps(gauged, p) else gauged
  }

  // ----- Each rule touches its own row only -----

  ghost predicate DistinctIds(gs: seq<Evaluated>) {
    forall i, j :: 0 <= i < j < |gs| ==> gs[i].id != gs[j].id
  }

  function ReadingFor(gs: seq<Evaluated>, id: RuleId): Option<Reading> {
    if gs == [] then None
    else if gs[0].id == id then Some(gs[0].reading)
    else ReadingFor(gs[1..], id)
  }

  lemma {:induction false} NotEvaluated(gs: seq<Evaluated>, id: RuleId)
    ensures ReadingFor(gs, id).None? <==> forall i :: 0 <= i < |gs| ==> gs[i].id != id
  {
    if gs != [] {
      NotEvaluated(gs[1..], id);
      assert forall i :: 1 <= i < |gs| ==> gs[i] == gs[1..][i - 1];
    }
  }

  lemma {:induction false} EvaluatedAtPoll(gs: seq<Evaluated>, id: RuleId, now: int)
    requires forall i :: 0 <= i < |gs| ==> gs[i].reading.now == now
    ensures ReadingFor(gs, id).Some? ==> ReadingFor(gs, id).value.now == now
  {
    if gs != [] {
      EvaluatedAtPoll(gs[1..], id, now);
    }
  }

  lemma {:induction false} StatusNow(p: Poll, ids: seq<RuleId>)
    ensures forall i :: 0 <= i < |StatusReadings(p, ids)| ==> StatusReadings(p, ids)[i].reading.now == p.now
  {
    if ids != [] {
      StatusNow(p, ids[1..]);
    }
  }

  lemma {:induction false} LppNow(p: Poll, samples: seq<Sample>)
    ensures forall i :: 0 <= i < |LppReadings(p, samples)| ==> LppReadings(p, samples)[i].reading.now == p.now
  {
    if samples != [] {
      LppNow(p, samples[1..]);
    }
  }

  lemma ReadingsNow(p: Poll, id: RuleId)
    ensures ReadingFor(Readings(p), id).Some? ==> ReadingFor(Readings(p), id).value.now == p.now
  {
    StatusNow(p, GAUGE_IDS);
    if p.snapshot.Some? {
      LppNow(p, Present(p.snapshot.value.sensors));
    }
    EvaluatedAtPoll(Readings(p), id, p.now);
  }

  lemma {:induction false} ApplyAllAt(e: Eval, gs: seq<Evaluated>, id: RuleId)
    requires DistinctIds(gs)
    ensures
      var after := ApplyAll(e, gs);
      match ReadingFor(gs, id)
      case None => RowOf(after.rows, id) == RowOf(e.rows, id) && (id in after.fired <==> id in e.fired)
      case Some(r) =>
        && RowOf(after.rows, id) == Some(GaugeRow(RowOf(e.rows, id), r))
        && (id in after.fired <==> id in e.fired || GaugeFires(RowOf(e.rows, id), r))
    decreases |gs|
  {
    if gs != [] {
      ApplyAllAt(Apply(e, gs[0]), gs[1..], id);
      if gs[0].id == id {
        NotEvaluated(gs[1..], id);
      }
    }
  }

  ghost predicate DistinctSamples(samples: seq<Sample>) {
    && (forall i, j :: 0 <= i < j < |samples| ==> samples[i].id != samples[j].id)
    && (forall i :: 0 <= i < |samples| ==> samples[i].id.LppChannel?)
  }

  lemma {:induction false} PutDistinct(samples: seq<Sample>, s: Sample)
    requires DistinctSamples(samples) && s.id.LppChannel?
    ensures DistinctSamples(Put(samples, s))
    ensures forall i :: 0 <= i < |Put(samples, s)| ==>
      Put(samples, s)[i].id == s.id || exists j :: 0 <= j < |samples| && samples[j].id == Put(samples, s)[i].id
  {
    if samples != [] && samples[0].id != s.id {
      var tail := Put(samples[1..], s);
      PutDistinct(samples[1..], s);
      assert forall j :: 0 <= j < |samples[1..]| ==> samples[1..][j] == samples[j + 1];
      assert forall i :: 0 <= i < |tail| ==> tail[i].id != samples[0].id;
    }
  }

  lemma {:induction false} PresentDistinct(sensors: seq<Sensor>)
    ensures DistinctSamples(Present(sensors))
  {
    if sensors != [] {
      var before, last := sensors[..|sensors| - 1], sensors[|sensors| - 1];
      PresentDistinct(before);
      if last.value.Some? {
        PutDistinct(Present(before), Sample(LppChannel(last.typeName, last.channel), last.value.value));
      }
    }
  }

  lemma {:induction false} LppReadingsDistinct(p: Poll, samples: seq<Sample>)
    requires DistinctSamples(samples)
    ensures DistinctIds(LppReadings(p, samples))
    ensures forall i :: 0 <= i < |LppReadings(p, samples)| ==>
      exists j :: 0 <= j < |samples| && LppReadings(p, samples)[i].id == samples[j].id
  {
    if samples != [] {
      var rest := samples[1..];
      LppReadingsDistinct(p, rest);
      assert forall j :: 0 <= j < |rest| ==> rest[j] == samples[j + 1];
      var tail := LppReadings(p, rest);
      forall i | 0 <= i < |tail|
        ensures tail[i].id != samples[0].id
        ensures exists j :: 0 <= j < |samples| && tail[i].id == samples[j].id
      {
        var j :| 0 <= j < |rest| && tail[i].id == rest[j].id;
        assert tail[i].id == samples[j + 1].id;
      }
    }
  }

  lemma {:induction false} StatusReadingsDistinct(p: Poll, ids: seq<RuleId>)
    requires forall i, j :: 0 <= i < j < |ids| ==> ids[i] != ids[j]
    ensures DistinctIds(StatusReadings(p, ids))
    ensures forall i :: 0 <= i < |StatusReadings(p, ids)| ==> StatusReadings(p, ids)[i].id in ids
  {
    if ids != [] {
      StatusReadingsDistinct(p, ids[1..]);
      assert ids[0] !in ids[1..];
    }
  }

  /** Status gauges have names, LPP gauges channels, and neither is the silence or GPS rule. */
  ghost predicate StatusOnly(gs: seq<Evaluated>) {
    forall i :: 0 <= i < |gs| ==> gs[i].id.Named? && gs[i].id != SILENCE && gs[i].id != GPS_LOST
  }

  ghost predicate LppOnly(gs: seq<Evaluated>) {
    forall i :: 0 <= i < |gs| ==> gs[i].id.LppChannel?
  }

  lemma StatusPart(p: Poll)
    ensures DistinctIds(StatusReadings(p, GAUGE_IDS)) && StatusOnly(StatusReadings(p, GAUGE_IDS))
  {
    StatusReadingsDistinct(p, GAUGE_IDS);
    assert forall id :: id in GAUGE_IDS ==> id.Named? && id != SILENCE && id != GPS_LOST;
  }

  lemma LppPart(p: Poll, sensors: seq<Sensor>)
    ensures DistinctIds(LppReadings(p, Present(sensors))) && LppOnly(LppReadings(p, Present(sensors)))
  {
    PresentDistinct(sensors);
    LppReadingsDistinct(p, Present(sensors));
  }

  lemma Together(a: seq<Evaluated>, b: seq<Evaluated>)
    requires DistinctIds(a) && StatusOnly(a) && DistinctIds(b) && LppOnly(b)
    ensures DistinctIds(a + b)
    ensures ReadingFor(a + b, SILENCE).None? && ReadingFor(a + b, GPS_LOST).None?
  {
    NotEvaluated(a + b, SILENCE);
    NotEvaluated(a + b, GPS_LOST);
  }

  lemma ReadingsDistinct(p: Poll)
    ensures DistinctIds(Readings(p))
    ensures ReadingFor(Readings(p), SILENCE).None? && ReadingFor(Readings(p), GPS_LOST).None?
  {
    StatusPart(p);
    if p.allowGps && p.snapshot.Some? {
      LppPart(p, p.snapshot.value.sensors);
      Together(StatusReadings(p, GAUGE_IDS), LppReadings(p, Present(p.snapshot.value.sensors)));
    } else {
      Together(StatusReadings(p, GAUGE_IDS), []);
    }
  }

  // ----- Two alerts, and what lies between -----

  /** The poll that may clear a rule's latch. */
  ghost predicate Clears(p: Poll, id: RuleId) {
    && Counts(p) && p.outcome.Success?
    && (if id == SILENCE then true
        else if id == GPS_LOST then GpsEvaluated(p) && HasFix(p)
        else var r := ReadingFor(Readings(p), id); r.Some? && Rearms(r.value))
  }

  /** Within one poll: an alert needs an open latch and closes it; only a clearing poll opens it. */
  lemma LatchStep(rows: Rows, p: Poll, id: RuleId)
    requires p.now != 0
    ensures
      var e := Step(rows, p);
      && (id in e.fired ==> !Latched(RowOf(rows, id)) && Latched(RowOf(e.rows, id)))
      && (Latched(RowOf(rows, id)) && !Latched(RowOf(e.rows, id)) ==> Clears(p, id))
  {
    if Counts(p) && p.outcome.Success? {
      ReadingsDistinct(p);
      ReadingsNow(p, id);
      var reset := rows[SILENCE := Row(0, None, Some(0.0))];
      ApplyAllAt(Eval(reset, {}), Readings(p), id);
    }
  }

  function RowsAfter(rows: Rows, polls: seq<Poll>): Rows
    decreases |polls|
  {
    if polls == [] then rows else RowsAfter(Step(rows, polls[0]).rows, polls[1..])
  }

  predicate Fires(rows: Rows, polls: seq<Poll>, i: nat, id: RuleId)
    requires i < |polls|
  {
    id in Step(RowsAfter(rows, polls[..i]), polls[i]).fired
  }

  lemma FiresTail(rows: Rows, polls: seq<Poll>, i: nat, id: RuleId)
    requires 0 < i < |polls|
    ensures Fires(rows, polls, i, id) == Fires(Step(rows, polls[0]).rows, polls[1..], i - 1, id)
  {
    assert polls[..i][1..] == polls[1..][..i - 1];
  }

  lemma {:induction false} ClearedBeforeAlert(rows: Rows, polls: seq<Poll>, j: nat, id: RuleId) returns (m: nat)
    requires j < |polls| && Latched(RowOf(rows, id)) && Fires(rows, polls, j, id)
    requires forall i :: 0 <= i < |polls| ==> polls[i].now != 0
    ensures m < j && Clears(polls[m], id)
    decreases |polls|
  {
    assert polls[..0] == [];
    LatchStep(rows, polls[0], id);
    if j == 0 {
      assert false;
    }
    FiresTail(rows, polls, j, id);
    var next := Step(rows, polls[0]).rows;
    if Latched(RowOf(next, id)) {
      m := ClearedBeforeAlert(next, polls[1..], j - 1, id);
      m := m + 1;
    } else {
      m := 0;
    }
  }

  /**
   Between two alerts of one rule of a node there is a poll that clears it: a re-arming
   reading for a gauge, a fix for the lost GPS, a success for the silence rule.
   */
  lemma {:induction false} ClearedBetweenAlerts(rows: Rows, polls: seq<Poll>, i: nat, j: nat, id: RuleId)
    requires i < j < |polls| && Fires(rows, polls, i, id) && Fires(rows, polls, j, id)
    requires forall k :: 0 <= k < |polls| ==> polls[k].now != 0
    ensures exists m :: i < m < j && Clears(polls[m], id)
    decreases i
  {
    FiresTail(rows, polls, j, id);
    var next, rest := Step(rows, polls[0]).rows, polls[1..];
    if i == 0 {
      assert polls[..0] == [];
      LatchStep(rows, polls[0], id);
      var m := ClearedBeforeAlert(next, rest, j - 1, id);
      assert rest[m] == polls[m + 1];
    } else {
      FiresTail(rows, polls, i, id);
      ClearedBetweenAlerts(next, rest, i - 1, j - 1, id);
      var m :| i - 1 < m < j - 1 && Clears(rest[m], id);
      assert rest[m] == polls[m + 1];
    }
  }

  // ----- Exactly when a gauge or the GPS rule alerts -----

  ghost predicate IsGauge(id: RuleId) {
    id != SILENCE && id != GPS_LOST
  }

  /** The poll evaluates the gauge, and its reading is in alarm. */
  ghost predicate AlarmAt(p: Poll, id: RuleId) {
    && Counts(p) && p.outcome.Success?
    && ReadingFor(Readings(p), id).Some? && InAlarm(ReadingFor(Readings(p), id).value)
  }

  /** After a success: each rule's row, from its own row before and the poll. */
  lemma SuccessRow(rows: Rows, p: Poll, id: RuleId)
    requires Counts(p) && p.outcome.Success? && IsGauge(id)
    ensures
      var row, after := RowOf(rows, id), Step(rows, p);
      match ReadingFor(Readings(p), id)
      case None => RowOf(after.rows, id) == row && id !in after.fired
      case Some(r) => RowOf(after.rows, id) == Some(GaugeRow(row, r)) && (id in after.fired <==> GaugeFires(row, r))
  {
    ReadingsDistinct(p);
    ApplyAllAt(Eval(rows[SILENCE := Row(0, None, Some(0.0))], {}), Readings(p), id);
  }

  lemma SilenceRow(rows: Rows, p: Poll)
    requires Counts(p) && p.outcome.Success?
    ensures RowOf(Step(rows, p).rows, SILENCE) == Some(Row(0, None, Some(0.0)))
    ensures SILENCE !in Step(rows, p).fired
  {
    ReadingsDistinct(p);
    ApplyAllAt(Eval(rows[SILENCE := Row(0, None, Some(0.0))], {}), Readings(p), SILENCE);
  }

  /** One poll: the latch is closed by an alert and opened by a clearing poll, and only so. */
  lemma LatchExact(rows: Rows, p: Poll, id: RuleId)
    requires p.now != 0
    ensures
      var e := Step(rows, p);
      Latched(RowOf(e.rows, id)) <==> id in e.fired || (Latched(RowOf(rows, id)) && !Clears(p, id))
  {
    if Counts(p) && p.outcome.Success? {
      if id == SILENCE {
        SilenceRow(rows, p);
      } else if id == GPS_LOST {
        GpsLatch(rows, p);
      } else {
        ReadingsNow(p, id);
        SuccessRow(rows, p, id);
      }
    }
  }

  lemma GpsLatch(rows: Rows, p: Poll)
    requires Counts(p) && p.outcome.Success? && p.now != 0
    ensures
      var e := Step(rows, p);
      Latched(RowOf(e.rows, GPS_LOST)) <==>
        GPS_LOST in e.fired || (Latched(RowOf(rows, GPS_LOST)) && !Clears(p, GPS_LOST))
  {
    ReadingsDistinct(p);
    ApplyAllAt(Eval(rows[SILENCE := Row(0, None, Some(0.0))], {}), Readings(p), GPS_LOST);
  }

  lemma GaugeFiresIff(rows: Rows, p: Poll, id: RuleId)
    requires IsGauge(id)
    ensures id in Step(rows, p).fired <==> AlarmAt(p, id) && !Latched(RowOf(rows, id))
  {
    if Counts(p) && p.outcome.Success? {
      SuccessRow(rows, p, id);
    }
  }

  ghost predicate NoneOf(cleared: seq<bool>, from: int, to: int)
    requires 0 <= from && to <= |cleared|
  {
    forall m :: from <= m < to ==> !cleared[m]
  }

  /** Before poll `j` an alert stands: none of the polls since then cleared it. */
  ghost predicate Stands(latched: bool, fired: seq<bool>, cleared: seq<bool>, j: nat)
    requires j <= |fired| == |cleared|
  {
    || (latched && NoneOf(cleared, 0, j))
    || exists i :: 0 <= i < j && fired[i] && NoneOf(cleared, i + 1, j)
  }

  lemma StandsStep(latched: bool, fired: seq<bool>, cleared: seq<bool>, j: nat)
    requires j < |fired| == |cleared|
    ensures Stands(latched, fired, cleared, j + 1) <==> fired[j] || (Stands(latched, fired, cleared, j) && !cleared[j])
  {
    if fired[j] {
      assert NoneOf(cleared, j + 1, j + 1);
    }
    if Stands(latched, fired, cleared, j) && !cleared[j] {
      if i :| 0 <= i < j && fired[i] && NoneOf(cleared, i + 1, j) {
        assert NoneOf(cleared, i + 1, j + 1);
      }
    }
    if Stands(latched, fired, cleared, j + 1) && !fired[j] {
      if i :| 0 <= i < j + 1 && fired[i] && NoneOf(cleared, i + 1, j + 1) {
        assert i < j && NoneOf(cleared, i + 1, j);
      } else {
        assert NoneOf(cleared, 0, j + 1);
      }
    }
  }

  ghost function AlertsOf(rows: Rows, polls: seq<Poll>, id: RuleId): seq<bool> {
    seq(|polls|, i requires 0 <= i < |polls| => Fires(rows, polls, i, id))
  }

  ghost function ClearsOf(polls: seq<Poll>, id: RuleId): seq<bool> {
    seq(|polls|, i requires 0 <= i < |polls| => Clears(polls[i], id))
  }

  ghost predicate Standing(rows: Rows, polls: seq<Poll>, j: nat, id: RuleId)
    requires j <= |polls|
  {
    Stands(Latched(RowOf(rows, id)), AlertsOf(rows, polls, id), ClearsOf(polls, id), j)
  }

  lemma {:induction false} RowsAfterSnoc(rows: Rows, polls: seq<Poll>, j: nat)
    requires j < |polls|
    ensures RowsAfter(rows, polls[..j + 1]) == Step(RowsAfter(rows, polls[..j]), polls[j]).rows
    decreases j
  {
    if j == 0 {
      assert polls[..1][1..] == [] && polls[..0] == [];
    } else {
      assert polls[..j + 1][1..] == polls[1..][..j] && polls[..j][1..] == polls[1..][..j - 1];
      RowsAfterSnoc(Step(rows, polls[0]).rows, polls[1..], j - 1);
    }
  }

  /** The stored latch is closed exactly while an alert stands. */
  lemma {:induction false} LatchedIffStanding(rows: Rows, polls: seq<Poll>, j: nat, id: RuleId)
    requires j <= |polls| && forall k :: 0 <= k < |polls| ==> polls[k].now != 0
    ensures Latched(RowOf(RowsAfter(rows, polls[..j]), id)) <==> Standing(rows, polls, j, id)
    decreases j
  {
    if j == 0 {
      assert polls[..0] == [];
    } else {
      LatchedIffStanding(rows, polls, j - 1, id);
      RowsAfterSnoc(rows, polls, j - 1);
      LatchExact(RowsAfter(rows, polls[..j - 1]), polls[j - 1], id);
      StandsStep(Latched(RowOf(rows, id)), AlertsOf(rows, polls, id), ClearsOf(polls, id), j - 1);
    }
  }

  /** In every run a gauge alerts at a poll iff its reading is in alarm and no alert stands. */
  lemma GaugeAlertsIff(rows: Rows, polls: seq<Poll>, j: nat, id: RuleId)
    requires j < |polls| && IsGauge(id) && forall k :: 0 <= k < |polls| ==> polls[k].now != 0
    ensures Fires(rows, polls, j, id) <==> AlarmAt(polls[j], id) && !Standing(rows, polls, j, id)
  {
    LatchedIffStanding(rows, polls, j, id);
    GaugeFiresIff(RowsAfter(rows, polls[..j]), polls[j], id);
  }

  // The same from the readings alone, when no reading both alarms and re-arms.

  ghost predicate NonNegativeHysteresis(p: Poll, id: RuleId) {
    ReadingFor(Readings(p), id).Some? ==> ReadingFor(Readings(p), id).value.hysteresis >= 0.0
  }

  ghost function AlarmsOf(polls: seq<Poll>, id: RuleId): seq<bool> {
    seq(|polls|, i requires 0 <= i < |polls| => AlarmAt(polls[i], id))
  }

  /** An alarm, or a closed latch at the start, that no poll since then cleared. */
  ghost predicate AlarmStands(rows: Rows, polls: seq<Poll>, j: nat, id: RuleId)
    requires j <= |polls|
  {
    Stands(Latched(RowOf(rows, id)), AlarmsOf(polls, id), ClearsOf(polls, id), j)
  }

  lemma {:induction false} SameStanding(latched: bool, fired: seq<bool>, alarm: seq<bool>, cleared: seq<bool>, j: nat)
    requires j <= |fired| == |alarm| == |cleared|
    requires forall i :: 0 <= i < |fired| ==> (fired[i] <==> alarm[i] && !Stands(latched, fired, cleared, i))
    requires forall i :: 0 <= i < |alarm| ==> !(alarm[i] && cleared[i])
    ensures Stands(latched, fired, cleared, j) <==> Stands(latched, alarm, cleared, j)
  {
    if j > 0 {
      SameStanding(latched, fired, alarm, cleared, j - 1);
      StandsStep(latched, fired, cleared, j - 1);
      StandsStep(latched, alarm, cleared, j - 1);
    }
  }

  lemma NotBoth(p: Poll, id: RuleId)
    requires IsGauge(id) && NonNegativeHysteresis(p, id)
    ensures !(AlarmAt(p, id) && Clears(p, id))
  {
  }

  /**
   With non-negative hysteresis: a gauge alerts at a poll iff its reading is in alarm, the
   latch was open or has been cleared, and every earlier alarm was followed by a clearing poll.
   */
  lemma GaugeAlertsFromReadings(rows: Rows, polls: seq<Poll>, j: nat, id: RuleId)
    requires j < |polls| && IsGauge(id)
    requires forall k :: 0 <= k < |polls| ==> polls[k].now != 0 && NonNegativeHysteresis(polls[k], id)
    ensures Fires(rows, polls, j, id) <==> AlarmAt(polls[j], id) && !AlarmStands(rows, polls, j, id)
  {
    var fired, alarm, cleared := AlertsOf(rows, polls, id), AlarmsOf(polls, id), ClearsOf(polls, id);
    forall i | 0 <= i < |polls|
      ensures fired[i] <==> alarm[i] && !Stands(Latched(RowOf(rows, id)), fired, cleared, i)
      ensures !(alarm[i] && cleared[i])
    {
      GaugeAlertsIff(rows, polls, i, id);
      NotBoth(polls[i], id);
    }
    SameStanding(Latched(RowOf(rows, id)), fired, alarm, cleared, j);
    GaugeAlertsIff(rows, polls, j, id);
  }

  ghost predicate GpsPoll(p: Poll) {
    Counts(p) && p.outcome.Success? && GpsEvaluated(p)
  }

  /** Whether the last poll that evaluated the GPS rule had a fix. */
  ghost function LastFix(polls: seq<Poll>): Option<bool> {
    if polls == [] then None
    else
      var last := polls[|polls| - 1];
      if GpsPoll(last) then Some(HasFix(last)) else LastFix(polls[..|polls| - 1])
  }

  lemma GpsStep(rows: Rows, p: Poll)
    ensures
      var e, row := Step(rows, p), RowOf(rows, GPS_LOST);
      && (GPS_LOST in e.fired <==> GpsPoll(p) && !HasFix(p) && HadFix(row, p) && !Latched(row))
      && (if !GpsPoll(p) then RowOf(e.rows, GPS_LOST) == row
          else if HasFix(p) then RowOf(e.rows, GPS_LOST) == Some(Row(0, None, Some(1.0)))
          else GPS_LOST in e.rows && e.rows[GPS_LOST].lastValue == Some(0.0))
  {
    if Counts(p) && p.outcome.Success? {
      ReadingsDistinct(p);
      var reset := rows[SILENCE := Row(0, None, Some(0.0))];
      ApplyAllAt(Eval(reset, {}), Readings(p), GPS_LOST);
    }
  }

  /** What the stored GPS row says. */
  lemma {:induction false} GpsRow(rows: Rows, polls: seq<Poll>, j: nat)
    requires j <= |polls|
    ensures
      var row := RowOf(RowsAfter(rows, polls[..j]), GPS_LOST);
      match LastFix(polls[..j])
      case None => row == RowOf(rows, GPS_LOST)
      case Some(true) => row == Some(Row(0, None, Some(1.0)))
      case Some(false) => row.Some? && row.value.lastValue == Some(0.0)
    decreases j
  {
    if j == 0 {
      assert polls[..0] == [];
    } else {
      GpsRow(rows, polls, j - 1);
      RowsAfterSnoc(rows, polls, j - 1);
      GpsStep(RowsAfter(rows, polls[..j - 1]), polls[j - 1]);
      assert polls[..j][..j - 1] == polls[..j - 1];
    }
  }

  /**
   In every run, from any stored row, the GPS rule alerts at a poll iff it finds no fix and
   the last one before it did; if there was none, iff the row says so and no alert stands.
   */
  lemma GpsAlertsIff(rows: Rows, polls: seq<Poll>, j: nat)
    requires j < |polls|
    ensures Fires(rows, polls, j, GPS_LOST) <==>
      && GpsPoll(polls[j]) && !HasFix(polls[j])
      && (match LastFix(polls[..j])
          case Some(fix) => fix
          case None => HadFix(RowOf(rows, GPS_LOST), polls[j]) && !Latched(RowOf(rows, GPS_LOST)))
  {
    GpsRow(rows, polls, j);
    GpsStep(RowsAfter(rows, polls[..j]), polls[j]);
  }

  // ----- Runs of misses -----

  /** A run of counted misses under one enabled silence rule. */
  ghost predicate SteadyMisses(polls: seq<Poll>, threshold: int) {
    forall i :: 0 <= i < |polls| ==>
      && Counts(polls[i]) && polls[i].outcome.Miss? && polls[i].now != 0
      && SilenceEnabled(polls[i]) && SilenceThreshold(polls[i]) == threshold
  }

  lemma {:induction false} MissesFrom(rows: Rows, polls: seq<Poll>, threshold: int, i: nat)
    requires SteadyMisses(polls, threshold) && i < |polls|
    requires Latched(RowOf(rows, SILENCE)) <==> MissesBefore(rows) >= threshold
    ensures Fires(rows, polls, i, SILENCE) <==> MissesBefore(rows) + i + 1 == threshold
    decreases i
  {
    if i == 0 {
      assert polls[..0] == [];
    } else {
      FiresTail(rows, polls, i, SILENCE);
      MissesFrom(Step(rows, polls[0]).rows, polls[1..], threshold, i - 1);
    }
  }

  /** After a success, the silence alert comes at exactly the threshold-th miss, and only then. */
  lemma SilenceAtThreshold(rows: Rows, success: Poll, polls: seq<Poll>, threshold: int, i: nat)
    requires Counts(success) && success.outcome.Success?
    requires SteadyMisses(polls, threshold) && i < |polls|
    ensures Fires(Step(rows, success).rows, polls, i, SILENCE) <==> i + 1 == threshold
  {
    var after := Step(rows, success).rows;
    SilenceRow(rows, success);
    assert SilenceThreshold(polls[i]) == threshold;
    MissesFrom(after, polls, threshold, i);
  }

  // ----- Busy polls -----

  function WithoutBusy(polls: seq<Poll>): seq<Poll> {
    if polls == [] then []
    else (if polls[0].outcome.Busy? then [] else [polls[0]]) + WithoutBusy(polls[1..])
  }

  /** The alerts raised, poll by poll, skipping polls that raise none. */
  function Alerts(rows: Rows, polls: seq<Poll>): seq<set<RuleId>>
    decreases |polls|
  {
    if polls == [] then []
    else
      var e := Step(rows, polls[0]);
      (if e.fired == {} then [] else [e.fired]) + Alerts(e.rows, polls[1..])
  }

  /** A busy radio is not a miss: deleting all busy polls changes no row and no alert. */
  lemma {:induction false} BusyChangesNothing(rows: Rows, polls: seq<Poll>)
    ensures RowsAfter(rows, polls) == RowsAfter(rows, WithoutBusy(polls))
    ensures Alerts(rows, polls) == Alerts(rows, WithoutBusy(polls))
    decreases |polls|
  {
    if polls != [] {
      var rest := polls[1..];
      BusyChangesNothing(Step(rows, polls[0]).rows, rest);
      if polls[0].outcome.Busy? {
        assert WithoutBusy(polls) == WithoutBusy(rest);
        assert Alerts(rows, polls) == Alerts(rows, rest);
      } else {
        assert WithoutBusy(polls)[1..] == WithoutBusy(rest);
      }
    }
  }

  // ----- The evaluation as the program runs it -----

  lemma StatusFrom(p: Poll, ids: seq<RuleId>, i: nat, e: Eval)
    requires i < |ids|
    ensures
      var r := StatusReading(p, ids[i]);
      ApplyAll(e, StatusReadings(p, ids[i..]))
        == ApplyAll(if r.Some? then Apply(e, Evaluated(ids[i], r.value)) else e, StatusReadings(p, ids[i + 1..]))
  {
    assert ids[i..][1..] == ids[i + 1..];
    var rest, r := StatusReadings(p, ids[i + 1..]), StatusReading(p, ids[i]);
    if r.Some? {
      assert ([Evaluated(ids[i], r.value)] + rest)[1..] == rest;
    } else {
      assert [] + rest == rest;
    }
  }

  lemma LppFrom(p: Poll, samples: seq<Sample>, i: nat, e: Eval)
    requires i < |samples|
    ensures
      var r := LppReading(p, samples[i]);
      ApplyAll(e, LppReadings(p, samples[i..]))
        == ApplyAll(if r.Some? then Apply(e, Evaluated(samples[i].id, r.value)) else e,
                    LppReadings(p, samples[i + 1..]))
  {
    assert samples[i..][1..] == samples[i + 1..];
    var rest, r := LppReadings(p, samples[i + 1..]), LppReading(p, samples[i]);
    if r.Some? {
      assert ([Evaluated(samples[i].id, r.value)] + rest)[1..] == rest;
    } else {
      assert [] + rest == rest;
    }
  }

  method CollectSamples(sensors: seq<Sensor>) returns (present: seq<Sample>)
    ensures present == Present(sensors)
  {
    present := [];
    var k := 0;
    while k < |sensors|
      invariant 0 <= k <= |sensors| && present == Present(sensors[..k])
    {
      var s := sensors[k];
      assert sensors[..k + 1][..k] == sensors[..k];
      if s.value.Some? {
        present := Put(present, Sample(LppChannel(s.typeName, s.channel), s.value.value));
      }
      k := k + 1;
    }
    assert sensors[..k] == sensors;
  }

  class AlertState {
    var rows: Rows
    /** The rules that raised an alert in the latest poll. */
    var dispatched: set<RuleId>

    function Now(): Eval
      reads this
    {
      Eval(rows, dispatched)
    }

    method ApplySilence(p: Poll, increment: bool)
      modifies this
      ensures increment ==>
        Now() == Eval(ApplyMiss(old(rows), p).rows, old(dispatched) + ApplyMiss(old(rows), p).fired)
      ensures !increment ==>
        Now() == Eval(old(rows)[SILENCE := Row(0, None, Some(0.0))], old(dispatched))
    {
      var spec := Get(p.rules, SILENCE);
      var threshold := ClampMisses(if spec.threshold.Some? then spec.threshold.value else 2.0);
      var enabled := if spec.enabled.Some? then spec.enabled.value else true;
      var state := RowOf(rows, SILENCE);
      var misses := if state.Some? then state.value.misses else 0;
      var latched := Latched(state);
      if increment {
        misses := misses + 1;
        var fire := enabled && misses >= threshold && !latched;
        var firedAt := if latched then state.value.firedAt else if fire then Some(p.now) else None;
        rows := rows[SILENCE := Row(misses, firedAt, Some(misses as real))];
        if fire {
          dispatched := dispatched + {SILENCE};
        }
        return;
      }
      rows := rows[SILENCE := Row(0, None, Some(0.0))];
    }

    method ApplyGauge(id: RuleId, r: Reading)
      modifies this
      ensures Now() == Apply(old(Now()), Evaluated(id, r))
    {
      var state := RowOf(rows, id);
      var inAlarm := if r.op.Lt? then r.value < r.threshold else r.value > r.threshold;
      var rearmed := if r.op.Lt? then r.value >= r.threshold + r.hysteresis else r.value <= r.threshold - r.hysteresis;
      if Latched(state) {
        rows := rows[id := Row(0, if rearmed then None else state.value.firedAt, Some(r.value))];
        return;
      }
      if inAlarm {
        rows := rows[id := Row(0, Some(r.now), Some(r.value))];
        dispatched := dispatched + {id};
        return;
      }
      rows := rows[id := Row(0, None, Some(r.value))];
    }

    method ApplyStatusGauges(p: Poll)
      modifies this
      ensures Now() == ApplyAll(old(Now()), StatusReadings(p, GAUGE_IDS))
    {
      ghost var all := ApplyAll(Now(), StatusReadings(p, GAUGE_IDS));
      assert GAUGE_IDS[0..] == GAUGE_IDS;
      var i := 0;
      while i < |GAUGE_IDS|
        invariant 0 <= i <= |GAUGE_IDS|
        invariant all == ApplyAll(Now(), StatusReadings(p, GAUGE_IDS[i..]))
      {
        StatusFrom(p, GAUGE_IDS, i, Now());
        var r := StatusReading(p, GAUGE_IDS[i]);
        if r.Some? {
          ApplyGauge(GAUGE_IDS[i], r.value);
        }
        i := i + 1;
      }
    }

    method ApplyLppGauges(p: Poll)
      requires p.snapshot.Some?
      modifies this
      ensures Now() == ApplyAll(old(Now()), LppReadings(p, Present(p.snapshot.value.sensors)))
    {
      var present := CollectSamples(p.snapshot.value.sensors);
      ghost var all := ApplyAll(Now(), LppReadings(p, present));
      assert present[0..] == present;
      var i := 0;
      while i < |present|
        invariant 0 <= i <= |present|
        invariant all == ApplyAll(Now(), LppReadings(p, present[i..]))
      {
        LppFrom(p, present, i, Now());
        var r := LppReading(p, present[i]);
        if r.Some? {
          ApplyGauge(present[i].id, r.value);
        }
        i := i + 1;
      }
    }

    method ApplyGpsLost(p: Poll)
      modifies this
      ensures Now() == if IsEnabled(Get(p.rules, GPS_LOST), Some(true)) then ApplyGps(old(Now()), p) else old(Now())
    {
      if !IsEnabled(Get(p.rules, GPS_LOST), Some(true)) {
        return;
      }
      var state := RowOf(rows, GPS_LOST);
      var previously :=
        if state.Some? && state.value.lastValue.Some? then state.value.lastValue.value >= 1.0 else p.historyHadFix;
      if HasFix(p) {
        rows := rows[GPS_LOST := Row(0, None, Some(1.0))];
        return;
      }
      if previously && !Latched(state) {
        rows := rows[GPS_LOST := Row(0, Some(p.now), Some(0.0))];
        dispatched := dispatched + {GPS_LOST};
        return;
      }
      rows := rows[GPS_LOST := Row(0, if Latched(state) then state.value.firedAt else None, Some(0.0))];
    }

    method NoteTelemetryPoll(p: Poll)
      modifies this
      ensures Now() == Step(old(rows), p)
    {
      dispatched := {};
      if p.outcome.Busy? || !p.tracked || !p.alerting {
        return;
      }
      if p.outcome.Miss? {
        ApplySilence(p, true);
        return;
      }
      ApplySilence(p, false);
      ghost var start, status := Now(), StatusReadings(p, GAUGE_IDS);
      ApplyStatusGauges(p);
      if p.allowGps {
        if p.snapshot.Some? {
          ApplyLppGauges(p);
          ApplyAllAppend(start, status, LppReadings(p, Present(p.snapshot.value.sensors)));
        } else {
          assert status + [] == status;
        }
        ApplyGpsLost(p);
      } else {
        assert status + [] == status;
      }
    }
  }

  lemma {:induction false} ApplyAllAppend(e: Eval, a: seq<Evaluated>, b: seq<Evaluated>)
    ensures ApplyAll(e, a + b) == ApplyAll(ApplyAll(e, a), b)
    decreases |a|
  {
    if a == [] {
      assert a + b == b;
    } else {
      assert (a + b)[1..] == a[1..] + b;
      ApplyAllAppend(Apply(e, a[0]), a[1..], b);
    }
  }
}
