/**
 The background contact reconcile in autoevict mode: no removals; the desired list is
 re-added blindly, two contacts per lock hold, in full passes with bounded retries.
 */
module AutoevictFill {
  import opened ContactCommands

  const MAX_RETRIES: nat := 3

  datatype Contact = Contact(key: Key, flags: nat)

  /** What `add_contact` gets: the favorite bit is cleared, so the radio may evict it. */
  datatype Payload = Payload(key: Key, flags: nat)

  datatype Sent = Sent(payload: Payload, reply: Reply)

  function PayloadOf(c: Contact): Payload {
    Payload(c.key, c.flags - c.flags % 2)
  }

  function Payloads(cs: seq<Contact>): seq<Payload> {
    seq(|cs|, i requires 0 <= i < |cs| => PayloadOf(cs[i]))
  }

  function SentPayloads(sent: seq<Sent>): seq<Payload> {
    seq(|sent|, i requires 0 <= i < |sent| => sent[i].payload)
  }

  datatype Answers = Answers(first: Reply, second: Reply) {
    function At(n: nat): Reply {
      if n == 0 then first else second
    }
  }

  /** One lock hold over a slice of at most two contacts. */
  datatype Batch = Batch(sent: seq<Sent>, processed: nat, failed: bool, full: bool)

  function Blind(todo: seq<Contact>, a: Answers, b: Batch): Batch {
    if todo == [] || b.full then b
    else
      var reply := a.At(b.processed);
      var sent := b.sent + [Sent(PayloadOf(todo[0]), reply)];
      if TableFull(reply) then Batch(sent, b.processed, true, true)
      else Blind(todo[1..], a, Batch(sent, b.processed + 1, b.failed || !reply.Ok?, false))
  }

  function BatchOf(slice: seq<Contact>, a: Answers): Batch {
    Blind(slice, a, Batch([], 0, false, false))
  }

  datatype Fill = Fill(next: nat, retries: nat, sent: seq<Sent>)

  datatype FillStatus = Filling | Refreshed | GaveUp | TableIsFull | LinkChanged

  datatype FillResult = FillResult(status: FillStatus, fill: Fill)

  function Slice(desired: seq<Contact>, next: nat): seq<Contact>
    requires next <= |desired|
  {
    desired[next..if next + BATCH_SIZE <= |desired| then next + BATCH_SIZE else |desired|]
  }

  /** One lock hold; the failure flag covers this batch only. */
  function FillHold(desired: seq<Contact>, a: Answers, f: Fill): FillResult {
    var next := if f.next >= |desired| then 0 else f.next;
    var b := BatchOf(Slice(desired, next), a);
    var g := Fill(next + b.processed, f.retries, f.sent + b.sent);
    if b.full then FillResult(TableIsFull, g)
    else if g.next < |desired| then FillResult(Filling, g)
    else if !b.failed then FillResult(Refreshed, g)
    else if g.retries + 1 >= MAX_RETRIES then FillResult(GaveUp, g.(retries := g.retries + 1))
    else FillResult(Filling, Fill(0, g.retries + 1, g.sent))
  }

  datatype FillLock = FillBusy | FillOtherRadio | FillHeld(desired: seq<Contact>, answers: Answers)

  datatype FillTurn = FillTurn(connected: bool, before: seq<Contact>, lock: FillLock)

  /** One pass of the loop; a result still `Filling` goes on with the next turn. */
  function OneTurn(t: FillTurn, f: Fill): FillResult {
    if !t.connected then FillResult(LinkChanged, f)
    else if t.before == [] then FillResult(Refreshed, f)
    else
      var g := if f.next >= |t.before| then f.(next := 0) else f;
      match t.lock
      case FillBusy => FillResult(Filling, g)
      case FillOtherRadio => FillResult(LinkChanged, g)
      case FillHeld(desired, answers) => FillHold(desired, answers, g)
  }

  function FillLoop(turns: seq<FillTurn>, f: Fill): FillResult {
    if turns == [] then FillResult(Filling, f)
    else
      var r := OneTurn(turns[0], f);
      if r.status.Filling? then FillLoop(turns[1..], r.fill) else r
  }

  lemma LoopFrom(turns: seq<FillTurn>, i: nat, f: Fill)
    requires i < |turns|
    ensures
      var r := OneTurn(turns[i], f);
      FillLoop(turns[i..], f) == if r.status.Filling? then FillLoop(turns[i + 1..], r.fill) else r
  {
    assert turns[i..][1..] == turns[i + 1..];
  }

  const START := Fill(0, 0, [])

  // ----- A fixed desired list -----

  /** The list never changes and the radio stays; its answers are arbitrary. */
  ghost predicate Fixed(turns: seq<FillTurn>, desired: seq<Contact>) {
    forall i :: 0 <= i < |turns| ==>
      && turns[i].connected && turns[i].before == desired && !turns[i].lock.FillOtherRadio?
      && (turns[i].lock.FillHeld? ==> turns[i].lock.desired == desired)
  }

  function HeldCount(turns: seq<FillTurn>): nat {
    if turns == [] then 0
    else (if turns[0].lock.FillHeld? then 1 else 0) + HeldCount(turns[1..])
  }

  function Repeat(s: seq<Payload>, n: nat): seq<Payload> {
    if n == 0 then [] else Repeat(s, n - 1) + s
  }

  function HoldsPerPass(n: nat): nat {
    (n + 1) / 2
  }

  /** Lock holds left before the third pass is over. */
  ghost function HoldsLeft(n: nat, f: Fill): int
    requires f.retries < MAX_RETRIES
  {
    var perPass := HoldsPerPass(n);
    (if f.retries == 0 then 3 * perPass else if f.retries == 1 then 2 * perPass else perPass) - f.next / 2
  }

  /** Between lock holds: `retries` whole passes were sent, and the first `next` of one more. */
  ghost predicate InPass(desired: seq<Contact>, f: Fill) {
    && f.retries < MAX_RETRIES
    && f.next < |desired| && f.next % 2 == 0
    && SentPayloads(f.sent) == Repeat(Payloads(desired), f.retries) + Payloads(desired)[..f.next]
  }

  ghost predicate AnyFailed(sent: seq<Sent>) {
    exists i :: 0 <= i < |sent| && !sent[i].reply.Ok?
  }

  lemma {:induction false} BlindSends(todo: seq<Contact>, a: Answers, b: Batch)
    requires !b.full
    ensures
      var c := Blind(todo, a, b);
      && b.sent <= c.sent
      && |c.sent| - |b.sent| == c.processed - b.processed + (if c.full then 1 else 0)
      && (if c.full then b.processed <= c.processed < b.processed + |todo|
          else c.processed == b.processed + |todo|)
      && (forall i :: |b.sent| <= i < |c.sent| ==>
            c.sent[i] == Sent(PayloadOf(todo[i - |b.sent|]), a.At(b.processed + i - |b.sent|)))
      && (c.full ==> TableFull(c.sent[|c.sent| - 1].reply))
  {
    if todo != [] && !TableFull(a.At(b.processed)) {
      var s := Sent(PayloadOf(todo[0]), a.At(b.processed));
      BlindSends(todo[1..], a, Batch(b.sent + [s], b.processed + 1, b.failed || !s.reply.Ok?, false));
      assert Blind(todo, a, b).sent[|b.sent|] == s;
    }
  }

  lemma {:induction false} BlindFails(todo: seq<Contact>, a: Answers, b: Batch)
    requires !b.full
    requires b.failed <==> AnyFailed(b.sent)
    ensures Blind(todo, a, b).failed <==> AnyFailed(Blind(todo, a, b).sent)
  {
    if todo != [] {
      var s := Sent(PayloadOf(todo[0]), a.At(b.processed));
      var sent := b.sent + [s];
      assert sent[|b.sent|] == s && forall i :: 0 <= i < |b.sent| ==> sent[i] == b.sent[i];
      assert AnyFailed(sent) <==> b.failed || !s.reply.Ok?;
      if !TableFull(s.reply) {
        BlindFails(todo[1..], a, Batch(sent, b.processed + 1, b.failed || !s.reply.Ok?, false));
      }
    }
  }

  lemma BatchShape(slice: seq<Contact>, a: Answers)
    ensures
      var b := BatchOf(slice, a);
      && (if b.full then b.processed < |slice| && |b.sent| == b.processed + 1 && TableFull(b.sent[b.processed].reply)
          else b.processed == |slice| && |b.sent| == b.processed)
      && SentPayloads(b.sent) == Payloads(slice)[..|b.sent|]
      && (forall i :: 0 <= i < |b.sent| ==> b.sent[i].reply == a.At(i))
      && (b.failed <==> AnyFailed(b.sent))
  {
    BlindSends(slice, a, Batch([], 0, false, false));
    BlindFails(slice, a, Batch([], 0, false, false));
  }

  lemma SentAppend(a: seq<Sent>, b: seq<Sent>)
    ensures SentPayloads(a + b) == SentPayloads(a) + SentPayloads(b)
  {
  }

  lemma SlicePayloads(desired: seq<Contact>, next: nat, k: nat)
    requires next < |desired| && k <= |Slice(desired, next)|
    ensures Payloads(Slice(desired, next))[..k] == Payloads(desired)[next..next + k]
  {
    var l, r := Payloads(Slice(desired, next))[..k], Payloads(desired)[next..next + k];
    forall i | 0 <= i < k
      ensures l[i] == r[i]
    {
      assert Slice(desired, next)[i] == desired[next + i];
    }
  }

  /** The log after one hold: what was there, then the slice as far as it was sent. */
  lemma HoldLog(desired: seq<Contact>, a: Answers, f: Fill)
    requires InPass(desired, f)
    ensures
      var b := BatchOf(Slice(desired, f.next), a);
      && f.next + |b.sent| <= |desired|
      && SentPayloads(f.sent + b.sent)
           == Repeat(Payloads(desired), f.retries) + Payloads(desired)[..f.next + |b.sent|]
  {
    var p := Payloads(desired);
    var slice := Slice(desired, f.next);
    var b := BatchOf(slice, a);
    BatchShape(slice, a);
    var upTo := f.next + |b.sent|;
    var done := Repeat(p, f.retries);
    calc {
      SentPayloads(f.sent + b.sent);
      { SentAppend(f.sent, b.sent); }
      (done + p[..f.next]) + SentPayloads(b.sent);
      { SlicePayloads(desired, f.next, |b.sent|); }
      (done + p[..f.next]) + p[f.next..upTo];
      { assert p[..f.next] + p[f.next..upTo] == p[..upTo]; }
      done + p[..upTo];
    }
  }

  /** Every hold that does not end the run brings the end of the third pass closer. */
  lemma HoldCounts(desired: seq<Contact>, a: Answers, f: Fill)
    requires f.retries < MAX_RETRIES && f.next < |desired| && f.next % 2 == 0
    ensures
      var r := FillHold(desired, a, f);
      && (r.status.Filling? ==>
            && r.fill.retries < MAX_RETRIES && r.fill.next < |desired| && r.fill.next % 2 == 0
            && HoldsLeft(|desired|, r.fill) < HoldsLeft(|desired|, f))
      && (r.status.Refreshed? ==> r.fill.retries == f.retries)
  {
    BatchShape(Slice(desired, f.next), a);
  }

  /** One hold sends the next slice, in order, and moves the pass along. */
  lemma HoldSends(desired: seq<Contact>, a: Answers, f: Fill)
    requires InPass(desired, f)
    ensures
      var r := FillHold(desired, a, f);
      && WholePasses(desired, r)
      && (r.status.Filling? ==> HoldsLeft(|desired|, r.fill) < HoldsLeft(|desired|, f))
      && (r.status.Refreshed? ==> r.fill.retries == f.retries)
  {
    var n, p := |desired|, Payloads(desired);
    var b := BatchOf(Slice(desired, f.next), a);
    BatchShape(Slice(desired, f.next), a);
    HoldCounts(desired, a, f);
    HoldLog(desired, a, f);
    var log := SentPayloads(f.sent + b.sent);
    if f.next + |b.sent| == n {
      assert p[..n] == p;
      assert log == Repeat(p, f.retries + 1);
      assert log == Repeat(p, f.retries + 1) + p[..0];
    }
  }

  /** Whatever the radio answers, the run is over after the holds of three passes. */
  lemma {:induction false} FillEnds(turns: seq<FillTurn>, desired: seq<Contact>, f: Fill)
    requires InPass(desired, f) && Fixed(turns, desired)
    requires HeldCount(turns) >= HoldsLeft(|desired|, f)
    ensures !FillLoop(turns, f).status.Filling?
  {
    assert HoldsLeft(|desired|, f) > 0;
    if turns == [] {
    } else if turns[0].lock.FillHeld? {
      var r := FillHold(desired, turns[0].lock.answers, f);
      HoldSends(desired, turns[0].lock.answers, f);
      if r.status.Filling? {
        FillEnds(turns[1..], desired, r.fill);
      }
    } else {
      FillEnds(turns[1..], desired, f);
    }
  }

  /**
   What is on the wire is whole passes over the desired list, in order, each contact once
   and never as a favorite; only a full table or the end of the run cuts a pass short.
   */
  ghost predicate WholePasses(desired: seq<Contact>, r: FillResult) {
    var p, log := Payloads(desired), SentPayloads(r.fill.sent);
    match r.status
    case Filling => InPass(desired, r.fill)
    case Refreshed => r.fill.retries < MAX_RETRIES && log == Repeat(p, r.fill.retries + 1)
    case GaveUp => log == Repeat(p, MAX_RETRIES)
    case TableIsFull =>
      r.fill.retries < MAX_RETRIES && r.fill.next < |desired|
      && log == Repeat(p, r.fill.retries) + p[..r.fill.next + 1]
    case LinkChanged => false
  }

  lemma {:induction false} FillLog(turns: seq<FillTurn>, desired: seq<Contact>, f: Fill)
    requires InPass(desired, f) && Fixed(turns, desired)
    ensures WholePasses(desired, FillLoop(turns, f))
  {
    if turns != [] {
      if turns[0].lock.FillHeld? {
        var r := FillHold(desired, turns[0].lock.answers, f);
        HoldSends(desired, turns[0].lock.answers, f);
        if r.status.Filling? {
          FillLog(turns[1..], desired, r.fill);
        }
      } else {
        FillLog(turns[1..], desired, f);
      }
    }
  }

  /** The bound from the start: three passes of ceil(n / 2) lock holds. */
  lemma FillEndsWithinThreePasses(turns: seq<FillTurn>, desired: seq<Contact>)
    requires Fixed(turns, desired) && turns != []
    requires HeldCount(turns) >= 3 * HoldsPerPass(|desired|)
    ensures !FillLoop(turns, START).status.Filling?
  {
    if desired != [] {
      assert Repeat(Payloads(desired), 0) + Payloads(desired)[..0] == [];
      FillEnds(turns, desired, START);
    }
  }

  predicate Loaded(sent: seq<Sent>, key: Key) {
    exists i :: 0 <= i < |sent| && sent[i].payload.key == key && sent[i].reply.Ok?
  }

  lemma HoldAppends(desired: seq<Contact>, a: Answers, f: Fill)
    ensures f.sent <= FillHold(desired, a, f).fill.sent
    ensures f.next < |desired| ==>
      FillHold(desired, a, f).fill.sent == f.sent + BatchOf(Slice(desired, f.next), a).sent
  {
  }

  lemma {:induction false} SentGrows(turns: seq<FillTurn>, f: Fill)
    ensures f.sent <= FillLoop(turns, f).fill.sent
  {
    if turns != [] && turns[0].connected && turns[0].before != [] {
      var g := if f.next >= |turns[0].before| then f.(next := 0) else f;
      if turns[0].lock.FillHeld? {
        var r := FillHold(turns[0].lock.desired, turns[0].lock.answers, g);
        HoldAppends(turns[0].lock.desired, turns[0].lock.answers, g);
        if r.status.Filling? {
          SentGrows(turns[1..], r.fill);
        }
      } else if turns[0].lock.FillBusy? {
        SentGrows(turns[1..], g);
      }
    }
  }

  /** A hold without a failed add goes on with the pass or ends it well. */
  lemma CleanHold(desired: seq<Contact>, a: Answers, f: Fill, last: seq<Sent>)
    requires f.next < |desired| && FillHold(desired, a, f).fill.sent <= last && !AnyFailed(last)
    ensures
      var r := FillHold(desired, a, f);
      (r.status.Filling? && r.fill.retries == f.retries) || r.status.Refreshed?
  {
    var b := BatchOf(Slice(desired, f.next), a);
    BatchShape(Slice(desired, f.next), a);
    HoldAppends(desired, a, f);
    assert forall i :: 0 <= i < |b.sent| ==> last[|f.sent| + i] == b.sent[i];
    assert !AnyFailed(b.sent);
  }

  /** If no add failed, the first pass is the only one and loaded every desired contact. */
  lemma {:induction false} NoFailureLoadsAll(turns: seq<FillTurn>, desired: seq<Contact>, f: Fill)
    requires InPass(desired, f) && f.retries == 0 && Fixed(turns, desired)
    requires !FillLoop(turns, f).status.Filling?
    requires !AnyFailed(FillLoop(turns, f).fill.sent)
    ensures
      var r := FillLoop(turns, f);
      && r.status == Refreshed
      && SentPayloads(r.fill.sent) == Payloads(desired)
      && forall c :: c in desired ==> Loaded(r.fill.sent, c.key)
  {
    if turns[0].lock.FillHeld? {
      var a := turns[0].lock.answers;
      var r := FillHold(desired, a, f);
      HoldSends(desired, a, f);
      if r.status.Filling? {
        SentGrows(turns[1..], r.fill);
      }
      CleanHold(desired, a, f, FillLoop(turns, f).fill.sent);
      if r.status.Filling? {
        NoFailureLoadsAll(turns[1..], desired, r.fill);
      } else {
        AllLoaded(desired, r.fill.sent);
      }
    } else {
      NoFailureLoadsAll(turns[1..], desired, f);
    }
  }

  lemma AllLoaded(desired: seq<Contact>, sent: seq<Sent>)
    requires SentPayloads(sent) == Repeat(Payloads(desired), 1) && !AnyFailed(sent)
    ensures SentPayloads(sent) == Payloads(desired)
    ensures forall c :: c in desired ==> Loaded(sent, c.key)
  {
    var p := Payloads(desired);
    assert Repeat(p, 0) + p == p;
    forall c | c in desired
      ensures Loaded(sent, c.key)
    {
      var i :| 0 <= i < |desired| && desired[i] == c;
      assert SentPayloads(sent)[i] == p[i];
      assert sent[i].payload.key == c.key && sent[i].reply.Ok?;
    }
  }

  // ----- The failure flag only remembers the last batch -----

  /** "Complete" always means that every desired contact was loaded. */
  ghost predicate CompleteMeansLoaded(desired: seq<Contact>) {
    forall turns: seq<FillTurn> ::
      Fixed(turns, desired) && FillLoop(turns, START).status == Refreshed ==>
        forall c :: c in desired ==> Loaded(FillLoop(turns, START).fill.sent, c.key)
  }

  function HeldTurn(desired: seq<Contact>, first: Reply): FillTurn {
    FillTurn(true, desired, FillHeld(desired, Answers(first, Ok)))
  }

  /** Turns in which every answer is OK. */
  function GoodTurns(desired: seq<Contact>, n: nat): seq<FillTurn> {
    seq(n, i => HeldTurn(desired, Ok))
  }

  /** Good turns finish the pass at hand and report completion, whatever happened before. */
  lemma {:induction false} GoodTurnsComplete(desired: seq<Contact>, f: Fill, n: nat)
    requires InPass(desired, f) && 2 * n >= |desired| - f.next
    ensures
      var r := FillLoop(GoodTurns(desired, n), f);
      && r.status == Refreshed && f.sent <= r.fill.sent && r.fill.retries == f.retries
    decreases n
  {
    var turns := GoodTurns(desired, n);
    assert n > 0;
    assert turns[1..] == GoodTurns(desired, n - 1);
    var a := Answers(Ok, Ok);
    assert turns[0] == HeldTurn(desired, Ok);
    BatchShape(Slice(desired, f.next), a);
    HoldSends(desired, a, f);
    var r := FillHold(desired, a, f);
    if r.status.Filling? {
      GoodTurnsComplete(desired, r.fill, n - 1);
    }
  }

  ghost predicate DistinctKeys(desired: seq<Contact>) {
    forall i, j :: 0 <= i < j < |desired| ==> desired[i].key != desired[j].key
  }

  lemma FirstAddFails(desired: seq<Contact>)
    requires |desired| >= 3
    ensures InPass(desired, START)
    ensures
      var r := FillHold(desired, Answers(NoAnswer, Ok), START);
      && r.status == Filling && InPass(desired, r.fill) && r.fill.retries == 0
      && r.fill.sent != [] && r.fill.sent[0].reply == NoAnswer
  {
    var a := Answers(NoAnswer, Ok);
    assert Repeat(Payloads(desired), 0) + Payloads(desired)[..0] == [];
    HoldSends(desired, a, START);
    BatchShape(Slice(desired, 0), a);
    HoldAppends(desired, a, START);
  }

  lemma FirstUnloaded(desired: seq<Contact>, sent: seq<Sent>)
    requires desired != [] && DistinctKeys(desired) && SentPayloads(sent) == Payloads(desired)
    requires sent[0].reply == NoAnswer
    ensures !Loaded(sent, desired[0].key)
  {
    forall i | 0 <= i < |sent| && sent[i].payload.key == desired[0].key
      ensures i == 0
    {
      assert SentPayloads(sent)[i] == Payloads(desired)[i];
    }
  }

  lemma FailThenGood(desired: seq<Contact>, turns: seq<FillTurn>)
    requires |desired| >= 3 && DistinctKeys(desired)
    requires turns == [HeldTurn(desired, NoAnswer)] + GoodTurns(desired, |desired|)
    ensures Fixed(turns, desired)
    ensures
      var r := FillLoop(turns, START);
      r.status == Refreshed && !Loaded(r.fill.sent, desired[0].key)
  {
    var n, p := |desired|, Payloads(desired);
    FirstAddFails(desired);
    var g := FillHold(desired, Answers(NoAnswer, Ok), START).fill;
    GoodTurnsComplete(desired, g, n);
    var r := FillLoop(turns, START);
    assert turns[0] == HeldTurn(desired, NoAnswer) && turns[1..] == GoodTurns(desired, n);
    assert r == FillLoop(GoodTurns(desired, n), g);
    FillLog(turns, desired, START);
    assert Repeat(p, 0) + p == p;
    assert r.fill.sent[0] == g.sent[0];
    FirstUnloaded(desired, r.fill.sent);
  }

  /** Three or more contacts: a failure in the first batch is forgotten by the last one. */
  lemma ForgottenFailure(desired: seq<Contact>)
    requires |desired| >= 3 && DistinctKeys(desired)
    ensures !CompleteMeansLoaded(desired)
  {
    var turns := [HeldTurn(desired, NoAnswer)] + GoodTurns(desired, |desired|);
    FailThenGood(desired, turns);
    assert desired[0] in desired;
  }

  /** One or two contacts: a pass is a single batch, so its failure flag covers them all. */
  lemma SingleBatchLoads(desired: seq<Contact>, a: Answers, f: Fill)
    requires 1 <= |desired| <= 2 && f.next == 0 && FillHold(desired, a, f).status == Refreshed
    ensures forall c :: c in desired ==> Loaded(FillHold(desired, a, f).fill.sent, c.key)
  {
    assert Slice(desired, 0) == desired;
    var b := BatchOf(desired, a);
    BatchShape(desired, a);
    HoldAppends(desired, a, f);
    forall c | c in desired
      ensures Loaded(f.sent + b.sent, c.key)
    {
      var i :| 0 <= i < |desired| && desired[i] == c;
      assert SentPayloads(b.sent)[i] == PayloadOf(c);
      assert (f.sent + b.sent)[|f.sent| + i] == b.sent[i];
    }
  }

  /** With a fixed list a turn is the lock hold itself, or nothing. */
  lemma FixedTurn(turns: seq<FillTurn>, desired: seq<Contact>, f: Fill)
    requires Fixed(turns, desired) && turns != [] && f.next < |desired|
    ensures OneTurn(turns[0], f)
      == if turns[0].lock.FillHeld? then FillHold(desired, turns[0].lock.answers, f) else FillResult(Filling, f)
    ensures Fixed(turns[1..], desired)
  {
  }

  lemma {:induction false} SingleBatchIsExact(turns: seq<FillTurn>, desired: seq<Contact>, f: Fill)
    requires |desired| <= 2 && Fixed(turns, desired)
    requires desired != [] ==> InPass(desired, f)
    requires FillLoop(turns, f).status == Refreshed
    ensures forall c :: c in desired ==> Loaded(FillLoop(turns, f).fill.sent, c.key)
  {
    if desired != [] {
      FixedTurn(turns, desired, f);
      var r := OneTurn(turns[0], f);
      if turns[0].lock.FillHeld? {
        HoldSends(desired, turns[0].lock.answers, f);
      }
      if r.status.Filling? {
        SingleBatchIsExact(turns[1..], desired, r.fill);
      } else {
        SingleBatchLoads(desired, turns[0].lock.answers, f);
      }
    }
  }

  /** "Complete" can be trusted exactly for lists that fit one batch. */
  lemma CompleteTrustedIff(desired: seq<Contact>)
    requires DistinctKeys(desired)
    ensures CompleteMeansLoaded(desired) <==> |desired| <= 2
  {
    if |desired| <= 2 {
      forall turns: seq<FillTurn> | Fixed(turns, desired) && FillLoop(turns, START).status == Refreshed
        ensures forall c :: c in desired ==> Loaded(FillLoop(turns, START).fill.sent, c.key)
      {
        assert Repeat(Payloads(desired), 0) + Payloads(desired)[..0] == [];
        SingleBatchIsExact(turns, desired, START);
      }
    } else {
      ForgottenFailure(desired);
    }
  }

  // ----- The loop as the program runs it -----

  class BlindFiller {
    var next: nat
    var retries: nat
    ghost var sent: seq<Sent>

    ghost function State(): Fill
      reads this
    {
      Fill(next, retries, sent)
    }

    constructor ()
      ensures State() == START
    {
      next, retries, sent := 0, 0, [];
    }

    /** Re-add the contacts of one slice; only a full table cuts it short. */
    method SendBatch(batch: seq<Contact>, a: Answers) returns (processed: nat, failed: bool, full: bool)
      modifies this`sent
      ensures
        var b := BatchOf(batch, a);
        sent == old(sent) + b.sent && processed == b.processed && failed == b.failed && full == b.full
    {
      ghost var out: seq<Sent> := [];
      processed, failed, full := 0, false, false;
      var i := 0;
      while i < |batch| && !full
        invariant 0 <= i <= |batch|
        invariant full || processed == i
        invariant BatchOf(batch, a) == Blind(batch[i..], a, Batch(out, processed, failed, full))
      {
        var reply := a.At(processed);
        out := out + [Sent(PayloadOf(batch[i]), reply)];
        assert batch[i..][1..] == batch[i + 1..];
        if !reply.Ok? {
          failed := true;
        }
        if TableFull(reply) {
          full := true;
        } else {
          processed := processed + 1;
        }
        i := i + 1;
      }
      sent := sent + out;
    }

    method HoldLock(desired: seq<Contact>, a: Answers) returns (status: FillStatus)
      modifies this
      ensures FillResult(status, State()) == FillHold(desired, a, old(State()))
    {
      if next >= |desired| {
        next := 0;
      }
      var processed, failed, full := SendBatch(Slice(desired, next), a);
      next := next + processed;
      if full {
        return TableIsFull;
      }
      if next >= |desired| {
        if !failed {
          return Refreshed;
        }
        retries := retries + 1;
        if retries >= MAX_RETRIES {
          return GaveUp;
        }
        next := 0;
      }
      return Filling;
    }

    method TakeTurn(t: FillTurn) returns (status: FillStatus)
      modifies this
      ensures FillResult(status, State()) == OneTurn(t, old(State()))
    {
      if !t.connected {
        return LinkChanged;
      }
      if t.before == [] {
        return Refreshed;
      }
      if next >= |t.before| {
        next := 0;
      }
      match t.lock {
        case FillBusy =>
          return Filling;
        case FillOtherRadio =>
          return LinkChanged;
        case FillHeld(desired, a) =>
          status := HoldLock(desired, a);
      }
    }

    method Run(turns: seq<FillTurn>) returns (status: FillStatus)
      modifies this
      ensures FillResult(status, State()) == FillLoop(turns, old(State()))
    {
      ghost var start := State();
      assert turns[0..] == turns;
      var i := 0;
      while i < |turns|
        invariant 0 <= i <= |turns|
        invariant FillLoop(turns, start) == FillLoop(turns[i..], State())
      {
        LoopFrom(turns, i, State());
        var s := TakeTurn(turns[i]);
        if !s.Filling? {
          return s;
        }
        i := i + 1;
      }
      return Filling;
    }
  }
}
