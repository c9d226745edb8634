/**
 The guards of the radio clock recovery (`sync_radio_time_outcome`).

 The process keeps three latches; the specification keeps none.  `ActionsOf`
 says, from the history of actions alone, what one call does to the radio, and
 `History` is the whole run.  The class shows that the latches implement it.
 */
module ClockGuards {
  import opened Options
  import opened Text

  const SKEW_THRESHOLD := 30
  const WRAP_MIN_AHEAD := 365 * 86400
  const WRAP_MIN_AHEAD_OF_BUILD := 10 * 365 * 86400
  const HOST_CLOCK_FLOOR := 1767225600
  const RADIO_KEY_UNKNOWN := "unknown"

  datatype SelfInfo = NoSelfInfo | SelfInfo(publicKey: Option<string>)
  datatype SetReply = Accepted | Refused | SetRaised
  datatype WrapReply = Fixed | NotFixed | WrapRaised
  datatype Outcome = Synced | Rejected | Rebooted

  /** One call, with everything the radio, the settings and the host clock will answer. */
  datatype Call = Call(
    conn: int,
    info: SelfInfo,
    now: int,
    allowWraparound: bool,
    autoWraparound: bool,
    setReply: SetReply,
    radioTime: Option<int>,
    rebootSent: bool,
    wrap: WrapReply)

  /** What the recovery did to a radio: a reboot that went out, or a wraparound it started. */
  datatype Action =
    | Reboot(key: string, now: int)
    | Wrap(key: string, now: int, conn: int, radioTime: int)

  function HostClockFloor(buildEpoch: int): int {
    if buildEpoch > HOST_CLOCK_FLOOR then buildEpoch else HOST_CLOCK_FLOOR
  }

  function RadioKey(info: SelfInfo): string {
    if info.SelfInfo? && info.publicKey.Some? && info.publicKey.value != ""
    then Lower(info.publicKey.value)
    else RADIO_KEY_UNKNOWN
  }

  // ----- Specification over the history -----

  predicate RebootedBefore(log: seq<Action>, key: string) {
    exists i :: 0 <= i < |log| && log[i].Reboot? && log[i].key == key
  }

  predicate WrappedBefore(log: seq<Action>, key: string) {
    exists i :: 0 <= i < |log| && log[i].Wrap? && log[i].key == key
  }

  /** The connection of the most recent wraparound of any radio. */
  function LastWrapConn(log: seq<Action>): Option<int> {
    if log == [] then None
    else if log[|log| - 1].Wrap? then Some(log[|log| - 1].conn)
    else LastWrapConn(log[..|log| - 1])
  }

  /** The radio refused the time, is (or may be) ahead, and the host clock is plausible. */
  predicate Stuck(floor: int, c: Call) {
    && c.setReply.Refused?
    && (c.radioTime.Some? ==> c.radioTime.value - c.now > SKEW_THRESHOLD)
    && c.now >= floor
  }

  predicate RebootDue(floor: int, log: seq<Action>, c: Call) {
    Stuck(floor, c) && !RebootedBefore(log, RadioKey(c.info))
  }

  predicate WrapDue(floor: int, log: seq<Action>, c: Call) {
    && Stuck(floor, c)
    && RebootedBefore(log, RadioKey(c.info))
    && !WrappedBefore(log, RadioKey(c.info))
    && LastWrapConn(log) != Some(c.conn)
    && RadioKey(c.info) != RADIO_KEY_UNKNOWN
    && c.allowWraparound && c.autoWraparound
    && c.radioTime.Some?
    && c.radioTime.value - c.now > WRAP_MIN_AHEAD
    && c.radioTime.value - floor > WRAP_MIN_AHEAD_OF_BUILD
  }

  function ActionsOf(floor: int, log: seq<Action>, c: Call): seq<Action> {
    if RebootDue(floor, log, c) then
      if c.rebootSent then [Reboot(RadioKey(c.info), c.now)] else []
    else if WrapDue(floor, log, c) then
      [Wrap(RadioKey(c.info), c.now, c.conn, c.radioTime.value)]
    else []
  }

  function OutcomeOf(floor: int, log: seq<Action>, c: Call): Outcome {
    if c.setReply.Accepted? then Synced
    else if RebootDue(floor, log, c) then (if c.rebootSent then Rebooted else Rejected)
    else if WrapDue(floor, log, c) && c.wrap.Fixed? then Synced
    else Rejected
  }

  /** Every action of a whole run of calls, whatever radios and connections it spans. */
  function History(floor: int, calls: seq<Call>): seq<Action> {
    if calls == [] then []
    else
      var before := History(floor, calls[..|calls| - 1]);
      before + ActionsOf(floor, before, calls[|calls| - 1])
  }

  // ----- Safety of whole runs -----

  ghost predicate OncePerRadio(log: seq<Action>) {
    forall i, j :: 0 <= i < j < |log| && log[i].key == log[j].key ==>
      log[i].Reboot? && log[j].Wrap?
  }

  ghost predicate WrapsFollowReboots(log: seq<Action>) {
    forall j :: 0 <= j < |log| && log[j].Wrap? ==> RebootedBefore(log[..j], log[j].key)
  }

  ghost predicate NeverTwiceInARow(log: seq<Action>) {
    forall j :: 0 <= j < |log| && log[j].Wrap? ==> LastWrapConn(log[..j]) != Some(log[j].conn)
  }

  ghost predicate Plausible(floor: int, a: Action) {
    && a.now >= floor
    && (a.Wrap? ==>
      && a.key != RADIO_KEY_UNKNOWN
      && a.radioTime - a.now > WRAP_MIN_AHEAD
      && a.radioTime - floor > WRAP_MIN_AHEAD_OF_BUILD)
  }

  ghost predicate Safe(floor: int, log: seq<Action>) {
    && OncePerRadio(log)
    && WrapsFollowReboots(log)
    && NeverTwiceInARow(log)
    && forall i :: 0 <= i < |log| ==> Plausible(floor, log[i])
  }

  lemma SafeStep(floor: int, log: seq<Action>, c: Call)
    requires Safe(floor, log)
    ensures Safe(floor, log + ActionsOf(floor, log, c))
  {
    var acts := ActionsOf(floor, log, c);
    var next := log + acts;
    forall j | 0 <= j < |next| && next[j].Wrap?
      ensures RebootedBefore(next[..j], next[j].key)
      ensures LastWrapConn(next[..j]) != Some(next[j].conn)
    {
      assert next[..j] == log[..j];
      assert j == |log| ==> log[..j] == log;
    }
  }

  /**
   Over every run: a radio key has at most one reboot and at most one wraparound, in that
   order; "unknown" is never wrapped; nothing happens below the floor; the margins hold;
   and no connection gets two wraparounds in a row.
   */
  lemma {:induction false} HistorySafe(floor: int, calls: seq<Call>)
    ensures Safe(floor, History(floor, calls))
  {
    if calls != [] {
      HistorySafe(floor, calls[..|calls| - 1]);
      SafeStep(floor, History(floor, calls[..|calls| - 1]), calls[|calls| - 1]);
    }
  }

  function ActionsOn(log: seq<Action>, key: string): seq<Action> {
    if log == [] then []
    else
      ActionsOn(log[..|log| - 1], key) +
      (if log[|log| - 1].key == key then [log[|log| - 1]] else [])
  }

  lemma Appended(log: seq<Action>, a: Action)
    ensures LastWrapConn(log + [a]) == if a.Wrap? then Some(a.conn) else LastWrapConn(log)
    ensures forall k :: RebootedBefore(log + [a], k) <==> RebootedBefore(log, k) || (a.Reboot? && a.key == k)
    ensures forall k :: WrappedBefore(log + [a], k) <==> WrappedBefore(log, k) || (a.Wrap? && a.key == k)
  {
    var next := log + [a];
    assert next[..|log|] == log && next[|log|] == a;
    assert forall i :: 0 <= i < |log| ==> next[i] == log[i];
  }

  lemma {:induction false} ActionsOnShape(log: seq<Action>, key: string)
    requires OncePerRadio(log) && WrapsFollowReboots(log)
    ensures
      var acts := ActionsOn(log, key);
      && (RebootedBefore(log, key) <==> acts != [])
      && (WrappedBefore(log, key) <==> |acts| == 2)
      && |acts| <= 2
      && (acts != [] ==> acts[0].Reboot?)
      && (|acts| == 2 ==> acts[1].Wrap?)
  {
    if log != [] {
      var init, last := log[..|log| - 1], log[|log| - 1];
      InitSafe(log);
      ActionsOnShape(init, key);
      assert log == init + [last];
      Appended(init, last);
      if last.key == key {
        LastOfItsKey(log);
      }
    }
  }

  lemma InitSafe(log: seq<Action>)
    requires log != [] && OncePerRadio(log) && WrapsFollowReboots(log)
    ensures OncePerRadio(log[..|log| - 1]) && WrapsFollowReboots(log[..|log| - 1])
  {
    var init := log[..|log| - 1];
    assert forall j :: 0 <= j < |init| ==> init[..j] == log[..j];
  }

  lemma LastOfItsKey(log: seq<Action>)
    requires log != [] && OncePerRadio(log) && WrapsFollowReboots(log)
    ensures
      var init, last := log[..|log| - 1], log[|log| - 1];
      && !WrappedBefore(init, last.key)
      && (last.Wrap? <==> RebootedBefore(init, last.key))
  {
  }

  /** All a run ever does to one radio: nothing, a reboot, or a reboot and then a wraparound. */
  lemma RadioActionsBounded(floor: int, calls: seq<Call>, key: string)
    ensures
      var acts := ActionsOn(History(floor, calls), key);
      || acts == []
      || (|acts| == 1 && acts[0].Reboot?)
      || (|acts| == 2 && acts[0].Reboot? && acts[1].Wrap? && key != RADIO_KEY_UNKNOWN)
  {
    var log := History(floor, calls);
    HistorySafe(floor, calls);
    ActionsOnShape(log, key);
    if WrappedBefore(log, key) {
      var i :| 0 <= i < |log| && log[i].Wrap? && log[i].key == key;
      assert Plausible(floor, log[i]);
    }
  }

  // ----- Once per connection -----

  /** The call each action of the history came from. */
  function Origins(floor: int, calls: seq<Call>): seq<nat> {
    if calls == [] then []
    else
      var n := |calls| - 1;
      var acts := ActionsOf(floor, History(floor, calls[..n]), calls[n]);
      Origins(floor, calls[..n]) + (if acts == [] then [] else [n])
  }

  /** Actions come from different calls, in order, and a wraparound from its own connection. */
  ghost predicate Traced(log: seq<Action>, origins: seq<nat>, calls: seq<Call>) {
    && |origins| == |log|
    && (forall i :: 0 <= i < |log| ==> origins[i] < |calls|)
    && (forall i, j :: 0 <= i < j < |log| ==> origins[i] < origins[j])
    && (forall i :: 0 <= i < |log| && log[i].Wrap? ==> calls[origins[i]].conn == log[i].conn)
  }

  lemma TracedSnoc(log: seq<Action>, origins: seq<nat>, calls: seq<Call>, c: Call, a: Action)
    requires Traced(log, origins, calls) && (a.Wrap? ==> a.conn == c.conn)
    ensures Traced(log + [a], origins + [|calls|], calls + [c])
  {
  }

  lemma TracedMore(log: seq<Action>, origins: seq<nat>, calls: seq<Call>, c: Call)
    requires Traced(log, origins, calls)
    ensures Traced(log, origins, calls + [c])
  {
  }

  lemma AtMostOneAction(floor: int, log: seq<Action>, c: Call)
    ensures
      var acts := ActionsOf(floor, log, c);
      acts == [] || (acts == [acts[0]] && (acts[0].Wrap? ==> acts[0].conn == c.conn))
  {
  }

  lemma {:induction false} HistoryTraced(floor: int, calls: seq<Call>)
    ensures Traced(History(floor, calls), Origins(floor, calls), calls)
  {
    if calls != [] {
      var init, c := calls[..|calls| - 1], calls[|calls| - 1];
      HistoryTraced(floor, init);
      assert calls == init + [c];
      TracedStep(floor, init, c);
    }
  }

  lemma TracedStep(floor: int, init: seq<Call>, c: Call)
    requires Traced(History(floor, init), Origins(floor, init), init)
    ensures Traced(History(floor, init + [c]), Origins(floor, init + [c]), init + [c])
  {
    var log, origins := History(floor, init), Origins(floor, init);
    assert (init + [c])[..|init|] == init;
    AtMostOneAction(floor, log, c);
    var acts := ActionsOf(floor, log, c);
    if acts == [] {
      TracedMore(log, origins, init, c);
    } else {
      TracedSnoc(log, origins, init, c, acts[0]);
    }
  }

  /** A wraparound on `a`, a later one on another connection, and a still later one on `a` again. */
  ghost predicate ReturnsAt(log: seq<Action>, i: int, j: int, k: int) {
    && 0 <= i < j < k < |log| && log[i].Wrap? && log[j].Wrap? && log[k].Wrap?
    && log[i].conn == log[k].conn != log[j].conn
  }

  ghost predicate WrapsReturn(log: seq<Action>) {
    exists i, j, k :: ReturnsAt(log, i, j, k)
  }

  ghost predicate OneWrapPerConnection(log: seq<Action>) {
    forall i, k :: 0 <= i < k < |log| && log[i].Wrap? && log[k].Wrap? ==> log[i].conn != log[k].conn
  }

  lemma {:induction false} LastWrapBetween(log: seq<Action>, i: nat) returns (j: nat)
    requires i < |log| && log[i].Wrap?
    ensures i <= j < |log| && log[j].Wrap? && LastWrapConn(log) == Some(log[j].conn)
  {
    var n := |log| - 1;
    if log[n].Wrap? {
      j := n;
    } else {
      j := LastWrapBetween(log[..n], i);
    }
  }

  /** If no wrap is on the connection of the wrap before it, a second wrap means coming back. */
  lemma SecondWrapReturns(log: seq<Action>)
    requires NeverTwiceInARow(log)
    ensures OneWrapPerConnection(log) <==> !WrapsReturn(log)
  {
    if !OneWrapPerConnection(log) {
      var i, k :| 0 <= i < k < |log| && log[i].Wrap? && log[k].Wrap? && log[i].conn == log[k].conn;
      var j := LastWrapBetween(log[..k], i);
      assert log[..k][j] == log[j];
      assert LastWrapConn(log[..k]) != Some(log[k].conn);
      assert ReturnsAt(log, i, j, k);
    }
  }

  // The connections of the calls decide.

  function ConnsOf(calls: seq<Call>): seq<int> {
    seq(|calls|, i requires 0 <= i < |calls| => calls[i].conn)
  }

  /**
   A connection comes back after another one, late enough for three radios to have been
   rebooted: one before its first wraparound, two before the other's, three before its second.
   */
  ghost predicate ComesBackAt(conns: seq<int>, i: int, j: int, k: int) {
    1 <= i < j < k < |conns| && 3 <= j && 5 <= k && conns[i] == conns[k] != conns[j]
  }

  ghost predicate ComesBack(conns: seq<int>) {
    exists i, j, k :: ComesBackAt(conns, i, j, k)
  }

  lemma FiveDistinct(a: nat, b: nat, c: nat, d: nat, e: nat, n: nat)
    requires a < n && b < n && c < n && d < n && e < n
    requires a != b && a != c && a != d && a != e && b != c && b != d && b != e && c != d && c != e && d != e
    ensures n >= 5
  {
  }

  lemma RebootOf(log: seq<Action>, p: nat) returns (q: nat)
    requires p < |log| && log[p].Wrap? && WrapsFollowReboots(log)
    ensures q < p && log[q].Reboot? && log[q].key == log[p].key
  {
    assert RebootedBefore(log[..p], log[p].key);
    q :| 0 <= q < |log[..p]| && log[..p][q].Reboot? && log[..p][q].key == log[p].key;
  }

  /** Three wraparounds need three radios and their reboots before them. */
  lemma RoomForReboots(log: seq<Action>, i: nat, j: nat, k: nat)
    requires OncePerRadio(log) && WrapsFollowReboots(log)
    requires i < j < k < |log| && log[i].Wrap? && log[j].Wrap? && log[k].Wrap?
    ensures i >= 1 && j >= 3 && k >= 5
  {
    assert log[i].key != log[j].key && log[j].key != log[k].key && log[i].key != log[k].key;
    var ri := RebootOf(log, i);
    var rj := RebootOf(log, j);
    var rk := RebootOf(log, k);
    FiveDistinct(ri, rj, rk, i, j, k);
    assert ri != rj && ri != i && rj != i;
  }

  lemma {:induction false} Increasing(origins: seq<nat>, p: nat)
    requires p < |origins| && forall i, j :: 0 <= i < j < |origins| ==> origins[i] < origins[j]
    ensures origins[p] >= p
  {
    if p > 0 {
      Increasing(origins, p - 1);
    }
  }

  /** A second wraparound of a connection comes from calls that come back. */
  lemma WrapsReturnFromCalls(log: seq<Action>, origins: seq<nat>, calls: seq<Call>, i: nat, j: nat, k: nat)
    requires Traced(log, origins, calls) && OncePerRadio(log) && WrapsFollowReboots(log) && ReturnsAt(log, i, j, k)
    ensures ComesBack(ConnsOf(calls))
  {
    RoomForReboots(log, i, j, k);
    Increasing(origins, i);
    Increasing(origins, j);
    Increasing(origins, k);
    assert origins[i] < origins[j] < origins[k];
    assert ComesBackAt(ConnsOf(calls), origins[i], origins[j], origins[k]);
  }

  lemma WrapsOnce(floor: int, calls: seq<Call>)
    requires !ComesBack(ConnsOf(calls))
    ensures OneWrapPerConnection(History(floor, calls))
  {
    var log := History(floor, calls);
    HistorySafe(floor, calls);
    SecondWrapReturns(log);
    HistoryTraced(floor, calls);
    if WrapsReturn(log) {
      var i, j, k :| ReturnsAt(log, i, j, k);
      WrapsReturnFromCalls(log, Origins(floor, calls), calls, i, j, k);
    }
  }

  /** A call of radio `key` that finds it stuck decades ahead of the host. */
  function FarAhead(floor: int, conn: int, key: string): Call {
    Call(conn, SelfInfo(Some(key)), floor, true, true, Refused,
         Some(floor + WRAP_MIN_AHEAD_OF_BUILD + 1), true, Fixed)
  }

  /** A call that the radio accepts does nothing. */
  function Idle(conn: int): Call {
    Call(conn, NoSelfInfo, 0, false, false, Accepted, None, false, NotFixed)
  }

  /** Three known radios with different keys. */
  const A := "a"
  const B := "b"
  const C := "c"

  /** When the second and the third radio are rebooted; the first one is at the first call. */
  function SecondReboot(i: int): int {
    if i == 1 then 2 else 1
  }

  function ThirdReboot(i: int, j: int): int {
    if 3 <= i then 2 else if j == 3 then 4 else 3
  }

  /** The radio that is found stuck at a call, if any. */
  function RadioAt(i: int, j: int, k: int, m: int): Option<string> {
    if m == 0 || m == i then Some(A)
    else if m == SecondReboot(i) || m == j then Some(B)
    else if m == ThirdReboot(i, j) || m == k then Some(C)
    else None
  }

  function CallAt(floor: int, conns: seq<int>, i: int, j: int, k: int, m: nat): Call
    requires m < |conns|
  {
    match RadioAt(i, j, k, m)
    case Some(key) => FarAhead(floor, conns[m], key)
    case None => Idle(conns[m])
  }

  function Scenario(floor: int, conns: seq<int>, i: int, j: int, k: int): seq<Call> {
    seq(|conns|, m requires 0 <= m < |conns| => CallAt(floor, conns, i, j, k, m))
  }

  ghost predicate WrappedOn(log: seq<Action>, key: string, conn: int) {
    exists p :: 0 <= p < |log| && log[p].Wrap? && log[p].key == key && log[p].conn == conn
  }

  /** Where the scenario stands before call `m`. */
  ghost predicate Reached(log: seq<Action>, conns: seq<int>, i: int, j: int, k: int, m: int)
    requires ComesBackAt(conns, i, j, k)
  {
    && (RebootedBefore(log, A) <==> m > 0) && (WrappedBefore(log, A) <==> m > i)
    && (RebootedBefore(log, B) <==> m > SecondReboot(i)) && (WrappedBefore(log, B) <==> m > j)
    && (RebootedBefore(log, C) <==> m > ThirdReboot(i, j)) && (WrappedBefore(log, C) <==> m > k)
    && (m <= k ==> LastWrapConn(log) == if m <= i then None else if m <= j then Some(conns[i]) else Some(conns[j]))
    && (m > i ==> WrappedOn(log, A, conns[i])) && (m > k ==> WrappedOn(log, C, conns[k]))
  }

  lemma StillWrappedOn(log: seq<Action>, a: Action, key: string, conn: int)
    ensures WrappedOn(log + [a], key, conn) <==>
      WrappedOn(log, key, conn) || (a.Wrap? && a.key == key && a.conn == conn)
  {
    var next := log + [a];
    assert next[|log|] == a && forall p :: 0 <= p < |log| ==> next[p] == log[p];
  }

  lemma KeysDiffer()
    ensures Lower(A) == A && Lower(B) == B && Lower(C) == C
    ensures A != B && B != C && A != C && A != "" && B != "" && C != ""
    ensures A != RADIO_KEY_UNKNOWN && B != RADIO_KEY_UNKNOWN && C != RADIO_KEY_UNKNOWN
  {
    assert A[0] == 'a' && B[0] == 'b' && C[0] == 'c';
    assert |A| == 1 && |B| == 1 && |C| == 1 && |RADIO_KEY_UNKNOWN| == 7;
    assert Lower(A)[0] == 'a' && Lower(B)[0] == 'b' && Lower(C)[0] == 'c';
  }

  /** What a stuck radio gets: a reboot, then a wraparound, then nothing. */
  lemma StuckActions(floor: int, log: seq<Action>, conn: int, key: string)
    requires key != "" && Lower(key) == key && key != RADIO_KEY_UNKNOWN
    ensures
      var acts := ActionsOf(floor, log, FarAhead(floor, conn, key));
      if !RebootedBefore(log, key) then acts == [Reboot(key, floor)]
      else if !WrappedBefore(log, key) && LastWrapConn(log) != Some(conn)
      then acts == [Wrap(key, floor, conn, floor + WRAP_MIN_AHEAD_OF_BUILD + 1)]
      else acts == []
  {
  }

  lemma IdleActions(floor: int, log: seq<Action>, conn: int)
    ensures ActionsOf(floor, log, Idle(conn)) == []
  {
  }

  lemma ReachedStep(floor: int, log: seq<Action>, conns: seq<int>, i: int, j: int, k: int, m: nat)
    requires ComesBackAt(conns, i, j, k) && m < |conns| && Reached(log, conns, i, j, k, m)
    ensures Reached(log + ActionsOf(floor, log, CallAt(floor, conns, i, j, k, m)), conns, i, j, k, m + 1)
  {
    KeysDiffer();
    var acts := ActionsOf(floor, log, CallAt(floor, conns, i, j, k, m));
    match RadioAt(i, j, k, m)
    case None =>
      IdleActions(floor, log, conns[m]);
      assert log + acts == log;
    case Some(key) =>
      StuckActions(floor, log, conns[m], key);
      assert acts == [acts[0]];
      Appended(log, acts[0]);
      StillWrappedOn(log, acts[0], A, conns[i]);
      StillWrappedOn(log, acts[0], C, conns[k]);
  }

  lemma HistoryUpTo(floor: int, calls: seq<Call>, m: nat)
    requires m < |calls|
    ensures
      var before := History(floor, calls[..m]);
      History(floor, calls[..m + 1]) == before + ActionsOf(floor, before, calls[m])
  {
    assert calls[..m + 1][..m] == calls[..m];
  }

  lemma ReachedStart(conns: seq<int>, i: int, j: int, k: int)
    requires ComesBackAt(conns, i, j, k)
    ensures Reached([], conns, i, j, k, 0)
  {
  }

  /** The calls are those of the scenario. */
  ghost predicate Plays(floor: int, calls: seq<Call>, conns: seq<int>, i: int, j: int, k: int) {
    |calls| == |conns| && forall m :: 0 <= m < |calls| ==> calls[m] == CallAt(floor, conns, i, j, k, m)
  }

  lemma ReachedNext(
    floor: int, calls: seq<Call>, before: seq<Action>, after: seq<Action>,
    conns: seq<int>, i: int, j: int, k: int, m: nat)
    requires ComesBackAt(conns, i, j, k) && Plays(floor, calls, conns, i, j, k) && m < |calls|
    requires Reached(before, conns, i, j, k, m) && after == before + ActionsOf(floor, before, calls[m])
    ensures Reached(after, conns, i, j, k, m + 1)
  {
    ReachedStep(floor, before, conns, i, j, k, m);
  }

  lemma {:induction false} ScenarioReaches(
    floor: int, calls: seq<Call>, conns: seq<int>, i: int, j: int, k: int, m: nat)
    requires ComesBackAt(conns, i, j, k) && Plays(floor, calls, conns, i, j, k) && m <= |calls|
    ensures Reached(History(floor, calls[..m]), conns, i, j, k, m)
  {
    if m == 0 {
      assert calls[..0] == [];
      ReachedStart(conns, i, j, k);
    } else {
      ScenarioReaches(floor, calls, conns, i, j, k, m - 1);
      HistoryUpTo(floor, calls, m - 1);
      ReachedNext(floor, calls, History(floor, calls[..m - 1]), History(floor, calls[..m]), conns, i, j, k, m - 1);
    }
  }

  lemma TwoOnOne(log: seq<Action>, conn: int)
    requires WrappedOn(log, A, conn) && WrappedOn(log, C, conn)
    ensures !OneWrapPerConnection(log)
  {
    KeysDiffer();
    var p :| 0 <= p < |log| && log[p].Wrap? && log[p].key == A && log[p].conn == conn;
    var q :| 0 <= q < |log| && log[q].Wrap? && log[q].key == C && log[q].conn == conn;
    assert p != q;
    if p < q {
      assert log[p].conn == log[q].conn;
    } else {
      assert log[q].conn == log[p].conn;
    }
  }

  /** Calls on these connections that wrap one of them twice. */
  lemma WrappedTwiceOnOneConnection(floor: int, conns: seq<int>, i: int, j: int, k: int)
    requires ComesBackAt(conns, i, j, k)
    ensures
      var calls := Scenario(floor, conns, i, j, k);
      ConnsOf(calls) == conns && !OneWrapPerConnection(History(floor, calls))
  {
    var calls := Scenario(floor, conns, i, j, k);
    ScenarioReaches(floor, calls, conns, i, j, k, |conns|);
    assert calls[..|conns|] == calls;
    TwoOnOne(History(floor, calls), conns[i]);
  }

  ghost predicate AlwaysOnce(floor: int, conns: seq<int>) {
    forall calls: seq<Call> :: ConnsOf(calls) == conns ==> OneWrapPerConnection(History(floor, calls))
  }

  /**
   The promise of one wraparound per connection, on the connections of the calls: whatever
   the radios answer it is kept, exactly when no connection comes back in that way.
   */
  lemma WrapsOncePerConnectionIff(floor: int, conns: seq<int>)
    ensures AlwaysOnce(floor, conns) <==> !ComesBack(conns)
  {
    if ComesBack(conns) {
      var i, j, k :| ComesBackAt(conns, i, j, k);
      WrappedTwiceOnOneConnection(floor, conns, i, j, k);
    } else {
      forall calls: seq<Call> | ConnsOf(calls) == conns
        ensures OneWrapPerConnection(History(floor, calls))
      {
        WrapsOnce(floor, calls);
      }
    }
  }

  // ----- The process state -----

  class SyncGuards {
    const floor: int
    var rebootAttempted: set<string>
    var wrapAttemptedConn: Option<int>
    var wrapDone: set<string>
    ghost var log: seq<Action>

    /** The latches are exactly what the history says. */
    ghost predicate Valid()
      reads this
    {
      && (forall k :: k in rebootAttempted <==> RebootedBefore(log, k))
      && (forall k :: k in wrapDone <==> WrappedBefore(log, k))
      && wrapAttemptedConn == LastWrapConn(log)
    }

    constructor (buildEpoch: int)
      ensures Valid() && log == [] && floor == HostClockFloor(buildEpoch)
    {
      floor := HostClockFloor(buildEpoch);
      rebootAttempted, wrapAttemptedConn, wrapDone := {}, None, {};
      log := [];
    }

    method SyncRadioTimeOutcome(c: Call) returns (outcome: Outcome)
      requires Valid()
      modifies this
      ensures Valid()
      ensures log == old(log) + ActionsOf(floor, old(log), c)
      ensures outcome == OutcomeOf(floor, old(log), c)
    {
      if c.setReply.Accepted? {
        return Synced;
      }
      if c.setReply.SetRaised? {
        return Rejected;
      }
      if c.radioTime.Some? && c.radioTime.value - c.now <= SKEW_THRESHOLD {
        return Rejected;
      }
      if c.now < floor {
        return Rejected;
      }
      var key := RadioKey(c.info);
      if key !in rebootAttempted {
        if !c.rebootSent {
          return Rejected;
        }
        Appended(log, Reboot(key, c.now));
        rebootAttempted := rebootAttempted + {key};
        log := log + [Reboot(key, c.now)];
        return Rebooted;
      }
      if c.allowWraparound && c.radioTime.Some? && c.autoWraparound
        && wrapAttemptedConn != Some(c.conn) && key !in wrapDone
      {
        if key == RADIO_KEY_UNKNOWN {
          return Rejected;
        }
        if c.radioTime.value - c.now <= WRAP_MIN_AHEAD {
          return Rejected;
        }
        if c.radioTime.value - floor <= WRAP_MIN_AHEAD_OF_BUILD {
          return Rejected;
        }
        Appended(log, Wrap(key, c.now, c.conn, c.radioTime.value));
        wrapAttemptedConn := Some(c.conn);
        wrapDone := wrapDone + {key};
        log := log + [Wrap(key, c.now, c.conn, c.radioTime.value)];
        return if c.wrap.Fixed? then Synced else Rejected;
      }
      return Rejected;
    }

    /** A process lifetime: any calls, in any order, from the empty latches. */
    method Serve(calls: seq<Call>)
      requires Valid() && log == []
      modifies this
      ensures Valid()
      ensures log == History(floor, calls) && Safe(floor, log)
    {
      var i := 0;
      while i < |calls|
        invariant 0 <= i <= |calls|
        invariant Valid() && log == History(floor, calls[..i])
      {
        var _ := SyncRadioTimeOutcome(calls[i]);
        assert calls[..i + 1][..i] == calls[..i];
        i := i + 1;
      }
      assert calls[..i] == calls;
      HistorySafe(floor, calls);
    }
  }
}
