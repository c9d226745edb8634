/**
 The clock wraparound (`_attempt_clock_wraparound`) against a physical radio.

 The radio keeps a uint32 count of seconds, accepts only times not before its own,
 ticks, and overflows to 0.  Host time is in milliseconds.  Each command reaches the
 radio after `before` milliseconds and its answer takes `after` more; it may get no answer.
 */
module ClockWrap {
  import opened Options
  import ClockGuards

  const UINT32 := 0x1_0000_0000
  const WRAP_TARGET := 0xFFFF_FFFF
  const WRAP_EDGE := WRAP_TARGET - 3600
  const POLL_INTERVAL_MS := 200
  const TIMEOUT_MS := 3000
  const VERIFY_TOLERANCE := 5

  /** How one command travels: `lost` answers never arrive, but the radio may have acted. */
  datatype Delivery = Delivery(before: nat, after: nat, lost: bool, reached: bool, phase: nat)

  /** The commands of a connection, in the order they are sent. */
  type Deliveries = nat -> Delivery

  /** What a clock that reads `base` at `since` reads at `now`. */
  function Count(base: nat, since: int, now: int): int
    requires since <= now
  {
    (base + (now - since) / 1000) % UINT32
  }

  /**
   Commands sent, host time, and the radio's clock: it reads `base` at `since`, and one more
   for each second after that.
   */
  datatype Moment = Moment(sent: nat, now: nat, base: nat, since: int)

  predicate Valid(m: Moment) {
    m.base < UINT32 && m.since <= m.now
  }

  function Reading(m: Moment): int
    requires Valid(m)
  {
    Count(m.base, m.since, m.now)
  }

  // ----- The attempt as a function of the link -----

  datatype SetResult = SetResult(ok: bool, next: Moment)
  datatype ReadResult = ReadResult(time: Option<int>, next: Moment)
  datatype Outcome = Outcome(fixed: bool, next: Moment)

  function Set(dl: Deliveries, m: Moment, target: nat): (r: SetResult)
    requires Valid(m) && target < UINT32
    ensures Valid(r.next)
  {
    var d := dl(m.sent);
    var arrival := m.now + d.before;
    var accepted := target >= Count(m.base, m.since, arrival);
    SetResult(
      accepted && !d.lost,
      if accepted && (!d.lost || d.reached)
      then Moment(m.sent + 1, arrival + d.after, target, arrival - d.phase % 1000)
      else m.(sent := m.sent + 1, now := arrival + d.after))
  }

  function Read(dl: Deliveries, m: Moment): (r: ReadResult)
    requires Valid(m)
    ensures Valid(r.next)
  {
    var d := dl(m.sent);
    ReadResult(if d.lost then None else Some(Count(m.base, m.since, m.now + d.before)),
               m.(sent := m.sent + 1, now := m.now + d.before + d.after))
  }

  /** Sleep, then ask. */
  function PollOnce(dl: Deliveries, m: Moment): (r: ReadResult)
    requires Valid(m)
    ensures Valid(r.next) && r.next.now >= m.now + POLL_INTERVAL_MS
  {
    Read(dl, m.(now := m.now + POLL_INTERVAL_MS))
  }

  predicate Seen(time: Option<int>) {
    time.Some? && time.value < 60
  }

  function Wait(dl: Deliveries, m: Moment, deadline: nat): (r: ReadResult)
    requires Valid(m)
    ensures Valid(r.next) && r.next.now >= m.now
    decreases deadline - m.now
  {
    if m.now >= deadline then ReadResult(None, m)
    else
      var r := PollOnce(dl, m);
      if Seen(r.time) then r else Wait(dl, r.next, deadline)
  }

  predicate InTolerance(time: Option<int>, host: int) {
    time.Some? && -VERIFY_TOLERANCE <= time.value - host <= VERIFY_TOLERANCE
  }

  /** The last leg: set the host's time on the wrapped radio, then read it back. */
  function SetBack(dl: Deliveries, m: Moment): (r: Outcome)
    requires Valid(m)
    ensures Valid(r.next)
  {
    if m.now / 1000 >= UINT32 then Outcome(false, m)
    else
      var retry := Set(dl, m, m.now / 1000);
      if !retry.ok then Outcome(false, retry.next)
      else
        var verified := Read(dl, retry.next);
        Outcome(InTolerance(verified.time, verified.next.now / 1000), verified.next)
  }

  function WaitAndSetBack(dl: Deliveries, m: Moment): (r: Outcome)
    requires Valid(m)
    ensures Valid(r.next)
  {
    var wrapped := Wait(dl, m, m.now + TIMEOUT_MS);
    if wrapped.time.None? then Outcome(false, Read(dl, wrapped.next).next) else SetBack(dl, wrapped.next)
  }

  function Attempt(dl: Deliveries, m: Moment, radioTime: int): (r: Outcome)
    requires Valid(m)
    ensures Valid(r.next)
  {
    if radioTime >= WRAP_EDGE then WaitAndSetBack(dl, m)
    else
      var armed := Set(dl, m, WRAP_TARGET);
      if armed.ok then WaitAndSetBack(dl, armed.next) else Outcome(false, armed.next)
  }

  // ----- The radio's clock around its overflow -----

  /** The host time at which the radio's count becomes zero. */
  function Overflow(m: Moment): int {
    m.since + (UINT32 - m.base) * 1000
  }

  lemma BeforeOverflow(m: Moment, t: int)
    requires m.base < UINT32 && m.since <= t < Overflow(m) <= t + 4_000_000
    ensures Count(m.base, m.since, t) >= 60
  {
  }

  lemma AfterOverflow(m: Moment, t: int)
    requires m.base < UINT32 && Overflow(m) <= t < Overflow(m) + 1_000_000
    ensures m.since <= t && Count(m.base, m.since, t) < 1000
    ensures t < Overflow(m) + 60_000 ==> Count(m.base, m.since, t) < 60
  {
  }

  /** How many seconds the radio, set at `t1`, lags behind the host when its answer to `e` is in. */
  function Lag(t1: nat, d: Delivery, e: Delivery): int {
    (t1 + d.before + d.after + e.before + e.after) / 1000
    - t1 / 1000 - (d.phase % 1000 + d.after + e.before) / 1000
  }

  /**
   A clock set to the host's second and read back differs from the host by the lag; it is
   never more than a second ahead, and goes on counting.
   */
  lemma ReadBack(t1: nat, d: Delivery, e: Delivery)
    requires (t1 + d.before + d.after + e.before + e.after) / 1000 + 1 < UINT32
    ensures
      var since := t1 + d.before - d.phase % 1000;
      var read := t1 + d.before + d.after + e.before;
      var now := read + e.after;
      && Count(t1 / 1000, since, read) == now / 1000 - Lag(t1, d, e)
      && Count(t1 / 1000, since, read) <= Count(t1 / 1000, since, now) <= now / 1000 + 1
  {
    var since := t1 + d.before - d.phase % 1000;
    var read := t1 + d.before + d.after + e.before;
    var now := read + e.after;
    assert read - since == d.phase % 1000 + d.after + e.before;
    assert t1 / 1000 + (now - since) / 1000 <= now / 1000 + 1;
    NoOverflow(t1 / 1000, since, read);
    NoOverflow(t1 / 1000, since, now);
  }

  lemma NoOverflow(base: nat, since: int, now: int)
    requires since <= now && base + (now - since) / 1000 < UINT32
    ensures Count(base, since, now) == base + (now - since) / 1000
  {
  }

  /** The lag is in tolerance when the two deliveries take at most four seconds, and not from seven on. */
  lemma LagBounds(t1: nat, d: Delivery, e: Delivery)
    ensures d.before + e.after <= 4000 ==> Lag(t1, d, e) <= VERIFY_TOLERANCE
    ensures d.before + e.after >= 7000 ==> Lag(t1, d, e) > VERIFY_TOLERANCE
  {
  }

  // ----- What success means -----

  /** The host's seconds still fit the command's four bytes, with one to spare. */
  predicate HostFits(m: Moment) {
    m.now / 1000 + 1 < UINT32
  }

  /** The last leg, once the radio has taken the time. */
  lemma ReadAfterSet(dl: Deliveries, m: Moment)
    requires Valid(m) && m.now / 1000 < UINT32 && Set(dl, m, m.now / 1000).ok
    requires HostFits(Read(dl, Set(dl, m, m.now / 1000).next).next)
    ensures
      var d, e, verified := dl(m.sent), dl(m.sent + 1), Read(dl, Set(dl, m, m.now / 1000).next);
      && (InTolerance(verified.time, verified.next.now / 1000) <==> !e.lost && Lag(m.now, d, e) <= VERIFY_TOLERANCE)
      && (InTolerance(verified.time, verified.next.now / 1000) ==>
            -VERIFY_TOLERANCE <= Reading(verified.next) - verified.next.now / 1000 <= 1)
  {
    var d, e := dl(m.sent), dl(m.sent + 1);
    var taken := Set(dl, m, m.now / 1000).next;
    assert taken == Moment(m.sent + 1, m.now + d.before + d.after, m.now / 1000, m.now + d.before - d.phase % 1000);
    ReadBack(m.now, d, e);
  }

  /**
   The last leg succeeds exactly when both answers arrive, the radio takes the time and the
   delays leave it in tolerance; then the radio is right.
   */
  lemma SetBackIff(dl: Deliveries, m: Moment)
    requires Valid(m) && HostFits(SetBack(dl, m).next)
    ensures
      var d, e, r := dl(m.sent), dl(m.sent + 1), SetBack(dl, m);
      && (r.fixed <==>
            && !d.lost && !e.lost
            && m.now / 1000 >= Count(m.base, m.since, m.now + d.before)
            && Lag(m.now, d, e) <= VERIFY_TOLERANCE)
      && (r.fixed ==> -VERIFY_TOLERANCE <= Reading(r.next) - r.next.now / 1000 <= 1)
  {
    if Set(dl, m, m.now / 1000).ok {
      ReadAfterSet(dl, m);
    }
  }

  /** Whatever was lost or late, an attempt that reports success leaves the radio right. */
  lemma FixedMeansRight(dl: Deliveries, m: Moment, radioTime: int)
    requires Valid(m) && Attempt(dl, m, radioTime).fixed && HostFits(Attempt(dl, m, radioTime).next)
    ensures
      var after := Attempt(dl, m, radioTime).next;
      -VERIFY_TOLERANCE <= Reading(after) - after.now / 1000 <= 1
  {
    var start := if radioTime >= WRAP_EDGE then m else Set(dl, m, WRAP_TARGET).next;
    SetBackIff(dl, Wait(dl, start, start.now + TIMEOUT_MS).next);
  }

  // ----- Which links always succeed -----

  /** Every command is answered, in less than `bound` milliseconds. */
  ghost predicate Within(dl: Deliveries, bound: int) {
    forall n :: !dl(n).lost && dl(n).before + dl(n).after < bound
  }

  const PROMPT_MS := 2001

  /** A plausible host clock, with twenty seconds to go before it no longer fits. */
  predicate HostPlausible(m: Moment) {
    && Valid(m)
    && ClockGuards.HOST_CLOCK_FLOOR * 1000 <= m.now
    && m.now + 20_000 < (UINT32 - 1) * 1000
  }

  /** Two seconds before the deadline is early enough for the overflow: an answer too early leaves time to ask again. */
  lemma {:induction false} WaitCatches(dl: Deliveries, m: Moment, deadline: nat)
    requires Within(dl, PROMPT_MS) && Valid(m) && m.now < deadline && Overflow(m) + 2000 <= deadline
    requires Overflow(m) - 4_000_000 <= m.now < Overflow(m) + 57_800
    ensures
      var r := Wait(dl, m, deadline);
      && Seen(r.time) && Overflow(m) <= r.next.now < deadline + 2200
      && r.next.base == m.base && r.next.since == m.since
    decreases deadline - m.now
  {
    var d := dl(m.sent);
    assert !d.lost && d.before + d.after < PROMPT_MS;
    var t := m.now + POLL_INTERVAL_MS + d.before;
    if t >= Overflow(m) {
      AfterOverflow(m, t);
    } else {
      BeforeOverflow(m, t);
      WaitCatches(dl, PollOnce(dl, m).next, deadline);
    }
  }

  /** The last question of a prompt link is asked less than 2.2 seconds after the deadline. */
  lemma {:induction false} WaitMisses(dl: Deliveries, m: Moment, deadline: nat)
    requires Within(dl, PROMPT_MS) && Valid(m) && m.now < deadline + 2200 <= Overflow(m)
    requires Overflow(m) - 4_000_000 <= m.now
    ensures Wait(dl, m, deadline).time.None?
    decreases deadline - m.now
  {
    if m.now < deadline {
      var d := dl(m.sent);
      assert !d.lost && d.before + d.after < PROMPT_MS;
      BeforeOverflow(m, m.now + POLL_INTERVAL_MS + d.before);
      WaitMisses(dl, PollOnce(dl, m).next, deadline);
    }
  }

  /** On a prompt link a radio that overflowed lately takes the host's time, and is in tolerance. */
  lemma PromptSetBack(dl: Deliveries, m: Moment)
    requires Within(dl, PROMPT_MS) && Valid(m) && Overflow(m) <= m.now < Overflow(m) + 900_000
    requires ClockGuards.HOST_CLOCK_FLOOR * 1000 <= m.now && m.now + 4_000 < (UINT32 - 1) * 1000
    ensures SetBack(dl, m).fixed
  {
    var d, e := dl(m.sent), dl(m.sent + 1);
    assert !d.lost && d.before + d.after < PROMPT_MS;
    assert !e.lost && e.before + e.after < PROMPT_MS;
    AfterOverflow(m, m.now + d.before);
    LagBounds(m.now, d, e);
    SetBackIff(dl, m);
  }

  /** Three seconds are enough for an overflow at most one second away. */
  lemma PromptWait(dl: Deliveries, m: Moment)
    requires Within(dl, PROMPT_MS) && Valid(m) && Overflow(m) <= m.now + 1000 && m.now < Overflow(m) + 57_800
    requires ClockGuards.HOST_CLOCK_FLOOR * 1000 <= m.now && m.now + 10_000 < (UINT32 - 1) * 1000
    ensures WaitAndSetBack(dl, m).fixed
  {
    WaitCatches(dl, m, m.now + TIMEOUT_MS);
    PromptSetBack(dl, Wait(dl, m, m.now + TIMEOUT_MS).next);
  }

  /** Below the edge 0xFFFFFFFF is always accepted, and overflows within a second. */
  lemma PromptAttempt(dl: Deliveries, m: Moment, radioTime: int)
    requires Within(dl, PROMPT_MS) && HostPlausible(m) && radioTime < WRAP_EDGE
    ensures Attempt(dl, m, radioTime).fixed
  {
    var d := dl(m.sent);
    assert !d.lost && d.before + d.after < PROMPT_MS;
    PromptWait(dl, Set(dl, m, WRAP_TARGET).next);
  }

  function Answered(before: nat, after: nat): Delivery {
    Delivery(before, after, false, true, 0)
  }

  /** The set arrives at once; a poll reads just before the overflow, and its answer ends the wait. */
  function SlowLink(n: nat): Delivery {
    if n == 1 then Answered(599, 0) else if n == 2 then Answered(0, 2001) else Answered(0, 0)
  }

  ghost predicate IsSlow(dl: Deliveries) {
    forall n :: dl(n) == SlowLink(n)
  }

  lemma SlowLinkFails(dl: Deliveries, m: Moment, radioTime: int)
    requires IsSlow(dl) && Valid(m) && m.sent == 0 && radioTime < WRAP_EDGE
    ensures Within(dl, 2002) && !Attempt(dl, m, radioTime).fixed
  {
    var start := Set(dl, m, WRAP_TARGET).next;
    assert start == Moment(1, m.now, WRAP_TARGET, m.now);
    MissesTwice(dl, start);
  }

  /** Two polls before the overflow, the second of which ends the wait. */
  lemma MissesTwice(dl: Deliveries, m: Moment)
    requires Valid(m) && !dl(m.sent).lost && !dl(m.sent + 1).lost
    requires
      var d, e := dl(m.sent), dl(m.sent + 1);
      && m.now + 400 + d.before + d.after + e.before < Overflow(m) <= m.now + 4_000_000
      && d.before + d.after < 2800 && 400 + d.before + d.after + e.before + e.after >= TIMEOUT_MS
    ensures !WaitAndSetBack(dl, m).fixed
  {
    var d, e, deadline := dl(m.sent), dl(m.sent + 1), m.now + TIMEOUT_MS;
    PollMisses(dl, m, deadline);
    var next := Moment(m.sent + 1, m.now + 200 + d.before + d.after, m.base, m.since);
    PollMisses(dl, next, deadline);
  }

  /** A poll that reads before the overflow leads to the next one, or ends the wait. */
  lemma PollMisses(dl: Deliveries, m: Moment, deadline: nat)
    requires Valid(m) && m.now < deadline && !dl(m.sent).lost
    requires m.now + 200 + dl(m.sent).before < Overflow(m) <= m.now + 4_000_000
    ensures
      var d := dl(m.sent);
      Wait(dl, m, deadline)
        == Wait(dl, Moment(m.sent + 1, m.now + 200 + d.before + d.after, m.base, m.since), deadline)
  {
    BeforeOverflow(m, m.now + 200 + dl(m.sent).before);
  }

  /** A poll that reads after it ends the wait well. */
  lemma PollSees(dl: Deliveries, m: Moment, deadline: nat)
    requires Valid(m) && m.now < deadline && !dl(m.sent).lost
    requires Overflow(m) <= m.now + 200 + dl(m.sent).before < Overflow(m) + 60_000
    ensures
      var d, r := dl(m.sent), Wait(dl, m, deadline);
      && Seen(r.time)
      && r.next == Moment(m.sent + 1, m.now + 200 + d.before + d.after, m.base, m.since)
  {
    AfterOverflow(m, m.now + 200 + dl(m.sent).before);
  }

  /** From any plausible moment below the edge, every link within the bound fixes the clock. */
  ghost predicate AlwaysFixes(bound: int) {
    forall dl: Deliveries, m: Moment, radioTime: int ::
      Within(dl, bound) && HostPlausible(m) && radioTime < WRAP_EDGE ==> Attempt(dl, m, radioTime).fixed
  }

  /** The exact bound on the round trips below which answered commands are enough. */
  lemma AlwaysFixesIff(bound: int)
    ensures AlwaysFixes(bound) <==> bound <= PROMPT_MS
  {
    if bound <= PROMPT_MS {
      forall dl: Deliveries, m: Moment, radioTime: int
          | Within(dl, bound) && HostPlausible(m) && radioTime < WRAP_EDGE
        ensures Attempt(dl, m, radioTime).fixed
      {
        PromptAttempt(dl, m, radioTime);
      }
    } else {
      var now := ClockGuards.HOST_CLOCK_FLOOR * 1000;
      var m := Moment(0, now, 0, now);
      var dl := SlowLink;
      SlowLinkFails(dl, m, 0);
      assert Within(dl, bound) && HostPlausible(m);
    }
  }

  // ----- From the edge on nothing is set first -----

  /** A plausible moment at which the radio overflows in `u` milliseconds. */
  predicate OverflowsIn(m: Moment, u: int) {
    HostPlausible(m) && Overflow(m) == m.now + u
  }

  ghost predicate AlwaysCaught(u: int) {
    forall dl: Deliveries, m: Moment, radioTime: int ::
      Within(dl, PROMPT_MS) && OverflowsIn(m, u) && radioTime >= WRAP_EDGE ==> Attempt(dl, m, radioTime).fixed
  }

  ghost predicate EverCaught(u: int) {
    exists dl: Deliveries, m: Moment, radioTime: int ::
      Within(dl, PROMPT_MS) && OverflowsIn(m, u) && radioTime >= WRAP_EDGE && Attempt(dl, m, radioTime).fixed
  }

  function MomentBefore(u: int): Moment
    requires -50_000 <= u <= 3_601_000
  {
    var now := ClockGuards.HOST_CLOCK_FLOOR * 1000;
    var left := if u <= 0 then 1 else (u + 999) / 1000;
    Moment(0, now, UINT32 - left, now + u - left * 1000)
  }

  /** Polls that make the last question as late as it can be. */
  function LateLink(n: nat): Delivery {
    if n == 0 then Answered(0, 2000) else if n == 1 then Answered(0, 599)
    else if n == 2 then Answered(2000, 0) else Answered(0, 0)
  }

  ghost predicate IsLate(dl: Deliveries) {
    forall n :: dl(n) == LateLink(n)
  }

  /** A poll answered just as the wait ends, after reading one second into it. */
  function MissingLink(n: nat): Delivery {
    if n == 0 then Answered(0, 600) else if n == 1 then Answered(0, 2000) else Answered(0, 0)
  }

  lemma LateWait(dl: Deliveries, m: Moment, deadline: nat)
    requires Valid(m) && m.sent == 0 && deadline == m.now + TIMEOUT_MS
    requires dl(0) == Answered(0, 2000) && dl(1) == Answered(0, 599) && dl(2) == Answered(2000, 0)
    requires m.now + 1000 < Overflow(m) < m.now + 5200
    ensures
      var r := Wait(dl, m, deadline);
      && Seen(r.time) && Overflow(m) <= r.next.now < m.now + 5200
      && r.next.base == m.base && r.next.since == m.since
  {
    var second, third := Moment(1, m.now + 2200, m.base, m.since), Moment(2, m.now + 2999, m.base, m.since);
    PollMisses(dl, m, deadline);
    if Overflow(m) <= m.now + 2400 {
      PollSees(dl, second, deadline);
    } else {
      PollMisses(dl, second, deadline);
      PollSees(dl, third, deadline);
    }
  }

  lemma LateLinkCatches(dl: Deliveries, m: Moment, u: int)
    requires IsLate(dl) && m.sent == 0 && OverflowsIn(m, u) && 1000 < u < 5200
    ensures Within(dl, PROMPT_MS) && WaitAndSetBack(dl, m).fixed
  {
    var deadline := m.now + TIMEOUT_MS;
    LateWait(dl, m, deadline);
    PromptSetBack(dl, Wait(dl, m, deadline).next);
  }

  /** Every prompt link catches an overflow exactly up to one second away... */
  lemma AlwaysCaughtIff(u: int)
    requires -50_000 <= u <= 3_601_000
    ensures AlwaysCaught(u) <==> u <= 1000
  {
    if u <= 1000 {
      forall dl: Deliveries, m: Moment, radioTime: int
          | Within(dl, PROMPT_MS) && OverflowsIn(m, u) && radioTime >= WRAP_EDGE
        ensures Attempt(dl, m, radioTime).fixed
      {
        PromptWait(dl, m);
      }
    } else {
      var m := MomentBefore(u);
      var dl := MissingLink;
      assert OverflowsIn(m, u) && Within(dl, PROMPT_MS);
      MissesTwice(dl, m);
      assert !Attempt(dl, m, WRAP_EDGE).fixed;
    }
  }

  /** ...and some prompt link does, exactly below 5.2 seconds. */
  lemma EverCaughtIff(u: int)
    requires -50_000 <= u <= 3_601_000
    ensures EverCaught(u) <==> u < 5200
  {
    var m := MomentBefore(u);
    assert OverflowsIn(m, u);
    if u < 5200 {
      var dl := LateLink;
      assert Within(dl, PROMPT_MS);
      if u <= 1000 {
        PromptWait(dl, m);
      } else {
        LateLinkCatches(dl, m, u);
      }
      assert Attempt(dl, m, WRAP_EDGE).fixed;
    } else {
      forall dl: Deliveries, m: Moment, radioTime: int
          | Within(dl, PROMPT_MS) && OverflowsIn(m, u) && radioTime >= WRAP_EDGE
        ensures !Attempt(dl, m, radioTime).fixed
      {
        WaitMisses(dl, m, m.now + TIMEOUT_MS);
      }
    }
  }

  // ----- The attempt as the program makes it -----

  class Link {
    const deliveries: Deliveries
    var sent: nat
    var nowMs: nat
    var base: nat
    var since: int

    function Now(): Moment
      reads this
    {
      Moment(sent, nowMs, base, since)
    }

    method SetTime(target: nat) returns (ok: bool)
      requires Valid(Now()) && target < UINT32
      modifies this
      ensures SetResult(ok, Now()) == Set(deliveries, old(Now()), target)
    {
      var d := deliveries(sent);
      sent := sent + 1;
      nowMs := nowMs + d.before;
      var accepted := target >= Reading(Now());
      if accepted && (!d.lost || d.reached) {
        base, since := target, nowMs - d.phase % 1000;
      }
      nowMs := nowMs + d.after;
      ok := accepted && !d.lost;
    }

    method GetTime() returns (time: Option<int>)
      requires Valid(Now())
      modifies this`sent, this`nowMs
      ensures ReadResult(time, Now()) == Read(deliveries, old(Now()))
    {
      var d := deliveries(sent);
      sent := sent + 1;
      nowMs := nowMs + d.before;
      time := if d.lost then None else Some(Reading(Now()));
      nowMs := nowMs + d.after;
    }

    method Poll() returns (time: Option<int>)
      requires Valid(Now())
      modifies this`sent, this`nowMs
      ensures ReadResult(time, Now()) == PollOnce(deliveries, old(Now()))
    {
      nowMs := nowMs + POLL_INTERVAL_MS;
      time := GetTime();
    }

    method WaitForClockWrap() returns (wrapped: Option<int>)
      requires Valid(Now())
      modifies this`sent, this`nowMs
      ensures ReadResult(wrapped, Now()) == Wait(deliveries, old(Now()), old(nowMs) + TIMEOUT_MS)
    {
      var deadline := nowMs + TIMEOUT_MS;
      while nowMs < deadline
        invariant Valid(Now())
        invariant Wait(deliveries, old(Now()), deadline) == Wait(deliveries, Now(), deadline)
        decreases deadline - nowMs
      {
        wrapped := Poll();
        if wrapped.Some? && wrapped.value < 60 {
          return;
        }
      }
      return None;
    }

    method SetBackToHost() returns (fixed: bool)
      requires Valid(Now())
      modifies this
      ensures Outcome(fixed, Now()) == SetBack(deliveries, old(Now()))
    {
      var target := nowMs / 1000;
      if target >= UINT32 {
        return false;  // the time no longer fits the command's four bytes
      }
      var retry := SetTime(target);
      if !retry {
        return false;
      }
      var verified := GetTime();
      if verified.None? || verified.value - nowMs / 1000 > VERIFY_TOLERANCE
        || nowMs / 1000 - verified.value > VERIFY_TOLERANCE
      {
        return false;
      }
      return true;
    }

    method AttemptClockWraparound(radioTime: int) returns (fixed: bool)
      requires Valid(Now())
      modifies this
      ensures Outcome(fixed, Now()) == Attempt(deliveries, old(Now()), radioTime)
      ensures fixed && HostFits(Now()) ==>
        Valid(Now()) && -VERIFY_TOLERANCE <= Reading(Now()) - nowMs / 1000 <= 1
    {
      ghost var start := Now();
      if radioTime < WRAP_EDGE {
        var ok := SetTime(WRAP_TARGET);
        if !ok {
          return false;
        }
      }
      fixed := FinishAttempt();
      if fixed && HostFits(Now()) {
        FixedMeansRight(deliveries, start, radioTime);
      }
    }

    method FinishAttempt() returns (fixed: bool)
      requires Valid(Now())
      modifies this
      ensures Outcome(fixed, Now()) == WaitAndSetBack(deliveries, old(Now()))
    {
      var wrapped := WaitForClockWrap();
      if wrapped.None? {
        var _ := GetTime();
        return false;
      }
      fixed := SetBackToHost();
    }
  }
}
