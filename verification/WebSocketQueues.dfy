/**
 WebSocket back-pressure: one bounded queue and one writer per client, best-effort frames
 shed under load, state-bearing frames never lost by a client that stays connected.

 A client record also carries its history (every offer, everything sent, every log line),
 against which the counters and queues are judged.
 */
module WebSocketQueues {
  import opened Options

  const QUEUE_MAX: nat := 2048
  const RAW_BACKLOG_MAX: nat := 1024
  const COMMUNITY_BACKLOG_MAX: nat := 256
  const DROP_LOG_INTERVAL := 60

  /** The event type of a frame; a personal frame is queued without one. */
  datatype Kind = RawPacket | CommunityPacket | StateEvent(name: string) | Personal

  datatype Frame = Frame(kind: Kind, text: string)

  predicate Droppable(f: Frame) {
    f.kind.RawPacket? || f.kind.CommunityPacket?
  }

  function BacklogLimit(k: Kind): nat {
    if k.CommunityPacket? then COMMUNITY_BACKLOG_MAX else RAW_BACKLOG_MAX
  }

  /** Dropped frames per droppable event type. */
  datatype Counts = Counts(raw: nat, community: nat)

  const NONE_DROPPED := Counts(0, 0)

  function CountOf(c: Counts, k: Kind): nat {
    if k.CommunityPacket? then c.community else if k.RawPacket? then c.raw else 0
  }

  function AddTo(c: Counts, k: Kind, n: nat): Counts {
    if k.CommunityPacket? then Counts(c.raw, c.community + n)
    else if k.RawPacket? then Counts(c.raw + n, c.community)
    else c
  }

  datatype Offer = Offer(frame: Frame, kept: bool)

  datatype DropLog = DropLog(at: int, counts: Counts, final: bool)

  /**
   A client is connected while the manager knows it.  Its writer stops when it leaves, but
   not when another connection of the same socket replaces it.
   */
  datatype Client = Client(
    ws: int,
    connected: bool,
    replaced: bool,
    writing: bool,
    queue: seq<Frame>,
    inFlight: Option<Frame>,
    unreported: Counts,
    lastDropLog: Option<int>,
    sent: seq<Frame>,
    offers: seq<Offer>,
    logs: seq<DropLog>)

  function NewClient(ws: int): Client {
    Client(ws, true, false, true, [], None, NONE_DROPPED, None, [], [], [])
  }

  // ----- What the program does to one client -----

  function LogDrops(c: Client, final: bool, now: int): Client {
    if c.unreported == NONE_DROPPED then c
    else if !final && c.lastDropLog.Some? && now - c.lastDropLog.value < DROP_LOG_INTERVAL then c
    else c.(unreported := NONE_DROPPED, lastDropLog := Some(now),
            logs := c.logs + [DropLog(now, c.unreported, final)])
  }

  /** Eviction, or a client that leaves. */
  function Depart(c: Client, now: int): Client {
    if c.connected then LogDrops(c.(connected := false, writing := false), true, now) else c
  }

  /** Another connection of its socket takes its place. */
  function Replaced(c: Client): Client {
    c.(connected := false, replaced := true)
  }

  predicate Shed(c: Client, f: Frame) {
    Droppable(f) && |c.queue| >= BacklogLimit(f.kind)
  }

  function Enqueue(c: Client, f: Frame, now: int): Client {
    if Shed(c, f) then
      LogDrops(c.(unreported := AddTo(c.unreported, f.kind, 1), offers := c.offers + [Offer(f, false)]), false, now)
    else if |c.queue| >= QUEUE_MAX then
      Depart(c.(offers := c.offers + [Offer(f, false)]), now)
    else
      LogDrops(c.(queue := c.queue + [f], offers := c.offers + [Offer(f, true)]), false, now)
  }

  function Take(c: Client): Client {
    if c.writing && c.inFlight.None? && c.queue != []
    then c.(queue := c.queue[1..], inFlight := Some(c.queue[0]))
    else c
  }

  function Delivered(c: Client): Client {
    if c.writing && c.inFlight.Some?
    then c.(inFlight := None, sent := c.sent + [c.inFlight.value])
    else c
  }

  /** The writer stops; if the client is still connected, it is evicted. */
  function SendFailed(c: Client, now: int): Client {
    if c.writing && c.inFlight.Some?
    then (if c.connected then Depart(c, now) else c.(writing := false))
    else c
  }

  // ----- What holds of one client -----

  function Pending(o: Option<Frame>): seq<Frame> {
    if o.Some? then [o.value] else []
  }

  function Kept(offers: seq<Offer>): seq<Frame> {
    if offers == [] then []
    else
      var last := offers[|offers| - 1];
      Kept(offers[..|offers| - 1]) + (if last.kept then [last.frame] else [])
  }

  /** Offers of one droppable type that were not accepted. */
  function ShedCount(offers: seq<Offer>, k: Kind): nat {
    if offers == [] then 0
    else
      var last := offers[|offers| - 1];
      ShedCount(offers[..|offers| - 1], k) + (if !last.kept && last.frame.kind == k then 1 else 0)
  }

  function LoggedCount(logs: seq<DropLog>, k: Kind): nat {
    if logs == [] then 0
    else LoggedCount(logs[..|logs| - 1], k) + CountOf(logs[|logs| - 1].counts, k)
  }

  /** Everything accepted was sent, is being sent or is queued, in call order. */
  ghost predicate InOrder(c: Client) {
    c.sent + Pending(c.inFlight) + c.queue == Kept(c.offers)
  }

  /** A frame that was not accepted is best effort, or is the one the client was evicted for. */
  ghost predicate OnlyDroppableMissing(c: Client) {
    forall i :: 0 <= i < |c.offers| && !c.offers[i].kept ==>
      Droppable(c.offers[i].frame) || (!c.connected && i == |c.offers| - 1)
  }

  /** Each dropped frame is in exactly one log line or still unreported. */
  ghost predicate Balanced(c: Client, k: Kind) {
    ShedCount(c.offers, k) == LoggedCount(c.logs, k) + CountOf(c.unreported, k)
  }

  ghost predicate Accounted(c: Client) {
    && Balanced(c, RawPacket) && Balanced(c, CommunityPacket)
    && (!c.connected && !c.replaced ==> c.unreported == NONE_DROPPED)
  }

  /** Log lines are an interval apart, except the final one. */
  ghost predicate Spaced(c: Client) {
    && c.lastDropLog == (if c.logs == [] then None else Some(c.logs[|c.logs| - 1].at))
    && (forall i, j :: 0 <= i < j < |c.logs| && !c.logs[j].final ==> c.logs[j].at - c.logs[i].at >= DROP_LOG_INTERVAL)
    && (forall j :: 0 <= j < |c.logs| && c.logs[j].final ==> j == |c.logs| - 1 && !c.connected)
  }

  ghost predicate Sound(c: Client) {
    InOrder(c) && OnlyDroppableMissing(c) && Accounted(c) && Spaced(c) && Bounded(c)
  }

  /** The queue's bound; and a connected client is written to and was not replaced. */
  ghost predicate Bounded(c: Client) {
    |c.queue| <= QUEUE_MAX && (c.connected ==> c.writing && !c.replaced)
  }

  lemma OfferAppended(offers: seq<Offer>, o: Offer)
    ensures Kept(offers + [o]) == Kept(offers) + (if o.kept then [o.frame] else [])
    ensures forall k ::
      ShedCount(offers + [o], k) == ShedCount(offers, k) + (if !o.kept && o.frame.kind == k then 1 else 0)
  {
    assert (offers + [o])[..|offers|] == offers;
  }

  lemma LogAppended(logs: seq<DropLog>, l: DropLog, k: Kind)
    ensures LoggedCount(logs + [l], k) == LoggedCount(logs, k) + CountOf(l.counts, k)
  {
    assert (logs + [l])[..|logs|] == logs;
  }

  lemma LogDropsCounts(c: Client, final: bool, now: int, k: Kind)
    ensures
      var d := LogDrops(c, final, now);
      LoggedCount(d.logs, k) + CountOf(d.unreported, k) == LoggedCount(c.logs, k) + CountOf(c.unreported, k)
  {
    LogAppended(c.logs, DropLog(now, c.unreported, final), k);
  }

  lemma LogDropsSpaced(c: Client, final: bool, now: int)
    requires Spaced(c) && (final ==> !c.connected)
    requires !c.connected ==> forall j :: 0 <= j < |c.logs| ==> !c.logs[j].final
    ensures Spaced(LogDrops(c, final, now))
  {
    var d := LogDrops(c, final, now);
    if d != c {
      var n := |c.logs|;
      assert forall i :: 0 <= i < n ==> d.logs[i] == c.logs[i];
      assert d.logs[n] == DropLog(now, c.unreported, final);
      if !final && n > 0 {
        assert now - c.logs[n - 1].at >= DROP_LOG_INTERVAL;
        forall i | 0 <= i < n
          ensures now - c.logs[i].at >= DROP_LOG_INTERVAL
        {
          assert i < n - 1 ==> c.logs[n - 1].at - c.logs[i].at >= DROP_LOG_INTERVAL;
        }
      }
    }
  }

  /** Logging moves counts from the unreported side to the logged side, and nothing else. */
  lemma LogDropsSound(c: Client, final: bool, now: int)
    requires Spaced(c) && (final ==> !c.connected)
    requires !c.connected ==> forall j :: 0 <= j < |c.logs| ==> !c.logs[j].final
    ensures
      var d := LogDrops(c, final, now);
      && d == c.(unreported := d.unreported, lastDropLog := d.lastDropLog, logs := d.logs)
      && Spaced(d)
      && (forall k :: LoggedCount(d.logs, k) + CountOf(d.unreported, k)
                      == LoggedCount(c.logs, k) + CountOf(c.unreported, k))
      && (final ==> d.unreported == NONE_DROPPED)
  {
    LogDropsSpaced(c, final, now);
    forall k
      ensures
        var d := LogDrops(c, final, now);
        LoggedCount(d.logs, k) + CountOf(d.unreported, k) == LoggedCount(c.logs, k) + CountOf(c.unreported, k)
    {
      LogDropsCounts(c, final, now, k);
    }
  }

  lemma DepartSound(c: Client, now: int)
    requires c.connected && InOrder(c) && Spaced(c) && Bounded(c)
    requires Balanced(c, RawPacket) && Balanced(c, CommunityPacket)
    requires OnlyDroppableMissing(c.(connected := false, writing := false))
    ensures Sound(Depart(c, now))
    ensures Depart(c, now).offers == c.offers && !Depart(c, now).connected
  {
    LogDropsSound(c.(connected := false, writing := false), true, now);
  }

  lemma AcceptSound(c: Client, f: Frame, now: int)
    requires Sound(c) && c.connected && |c.queue| < QUEUE_MAX
    ensures Sound(LogDrops(c.(queue := c.queue + [f], offers := c.offers + [Offer(f, true)]), false, now))
  {
    OfferAppended(c.offers, Offer(f, true));
    var d := c.(queue := c.queue + [f], offers := c.offers + [Offer(f, true)]);
    assert c.sent + Pending(c.inFlight) + (c.queue + [f]) == c.sent + Pending(c.inFlight) + c.queue + [f];
    LogDropsSound(d, false, now);
  }

  lemma ShedSound(c: Client, f: Frame, now: int)
    requires Sound(c) && c.connected && Shed(c, f)
    ensures Sound(Enqueue(c, f, now))
  {
    var offers := c.offers + [Offer(f, false)];
    OfferAppended(c.offers, Offer(f, false));
    assert forall i :: 0 <= i < |c.offers| ==> offers[i] == c.offers[i];
    var d := c.(unreported := AddTo(c.unreported, f.kind, 1), offers := offers);
    assert OnlyDroppableMissing(d) && Balanced(d, RawPacket) && Balanced(d, CommunityPacket);
    LogDropsSound(d, false, now);
  }

  lemma FullSound(c: Client, f: Frame, now: int)
    requires Sound(c) && c.connected && !Shed(c, f) && |c.queue| >= QUEUE_MAX
    ensures Sound(Enqueue(c, f, now)) && !Droppable(f)
  {
    var offers := c.offers + [Offer(f, false)];
    OfferAppended(c.offers, Offer(f, false));
    assert forall i :: 0 <= i < |c.offers| ==> offers[i] == c.offers[i];
    var e := c.(offers := offers);
    assert OnlyDroppableMissing(e.(connected := false, writing := false));
    DepartSound(e, now);
  }

  /** A queued or shed frame keeps the client sound; a best-effort one never evicts it. */
  lemma EnqueueSound(c: Client, f: Frame, now: int)
    requires Sound(c) && c.connected
    ensures
      var d := Enqueue(c, f, now);
      && Sound(d)
      && (Droppable(f) ==> d.connected)
      && d.offers == c.offers + [Offer(f, !Shed(c, f) && |c.queue| < QUEUE_MAX)]
      && d.sent == c.sent && d.inFlight == c.inFlight && d.ws == c.ws
  {
    if Shed(c, f) {
      ShedSound(c, f, now);
    } else if |c.queue| >= QUEUE_MAX {
      FullSound(c, f, now);
    } else {
      AcceptSound(c, f, now);
    }
  }

  lemma TakeSound(c: Client)
    requires Sound(c)
    ensures Sound(Take(c)) && Take(c).offers == c.offers
  {
    if c.writing && c.inFlight.None? && c.queue != [] {
      assert c.sent + Pending(Some(c.queue[0])) + c.queue[1..] == c.sent + [] + c.queue;
    }
  }

  lemma DeliveredSound(c: Client)
    requires Sound(c)
    ensures Sound(Delivered(c)) && Delivered(c).offers == c.offers
  {
    if c.writing && c.inFlight.Some? {
      assert (c.sent + [c.inFlight.value]) + [] + c.queue == c.sent + Pending(c.inFlight) + c.queue;
    }
  }

  lemma LeavingSound(c: Client, now: int)
    requires Sound(c)
    ensures Sound(Depart(c, now)) && Depart(c, now).offers == c.offers
    ensures Sound(SendFailed(c, now)) && SendFailed(c, now).offers == c.offers
  {
    if c.connected {
      DepartSound(c, now);
    }
  }

  lemma ReplacedSound(c: Client)
    requires Sound(c) && c.connected
    ensures Sound(Replaced(c))
  {
  }

  function StateFrames(fs: seq<Frame>): seq<Frame> {
    if fs == [] then []
    else
      var last := fs[|fs| - 1];
      StateFrames(fs[..|fs| - 1]) + (if Droppable(last) then [] else [last])
  }

  function Offered(offers: seq<Offer>): seq<Frame> {
    seq(|offers|, i requires 0 <= i < |offers| => offers[i].frame)
  }

  lemma {:induction false} KeptStateFrames(offers: seq<Offer>)
    requires forall i :: 0 <= i < |offers| && !offers[i].kept ==> Droppable(offers[i].frame)
    ensures StateFrames(Kept(offers)) == StateFrames(Offered(offers))
  {
    if offers != [] {
      var n := |offers| - 1;
      var last := offers[n];
      KeptStateFrames(offers[..n]);
      assert Offered(offers) == Offered(offers[..n]) + [last.frame];
      assert Offered(offers)[..n] == Offered(offers[..n]);
      if last.kept {
        assert Kept(offers)[..|Kept(offers)| - 1] == Kept(offers[..n]);
      } else {
        assert Kept(offers) == Kept(offers[..n]);
      }
    }
  }

  /**
   Refinement: for a connected client, what was sent, is in flight or is queued holds every
   state-bearing frame ever offered to it, once and in call order.
   */
  lemma NothingLostWhileConnected(c: Client)
    requires Sound(c) && c.connected
    ensures StateFrames(c.sent + Pending(c.inFlight) + c.queue) == StateFrames(Offered(c.offers))
  {
    KeptStateFrames(c.offers);
  }

  // ----- The manager -----

  datatype State = State(clients: seq<Client>, dropped: Counts)

  datatype Event =
    | Connect(ws: int)
    | Broadcast(frame: Frame, clock: nat -> int)
    | Send(ws: int, text: string, now: int)
    | WriterTakes(id: nat)
    | WriterDelivered(id: nat)
    | WriterFailed(id: nat, now: int)
    | Disconnect(ws: int, now: int)

  /** The connected client of a socket, if any. */
  function ActiveId(clients: seq<Client>, ws: int): Option<nat> {
    if clients == [] then None
    else
      var n := |clients| - 1;
      if clients[n].connected && clients[n].ws == ws then Some(n) else ActiveId(clients[..n], ws)
  }

  lemma {:induction false} ActiveIdFinds(clients: seq<Client>, ws: int)
    ensures
      match ActiveId(clients, ws)
      case Some(i) => i < |clients| && clients[i].connected && clients[i].ws == ws
      case None => forall i :: 0 <= i < |clients| ==> !(clients[i].connected && clients[i].ws == ws)
  {
    if clients != [] {
      ActiveIdFinds(clients[..|clients| - 1], ws);
    }
  }

  function BroadcastTo(clients: seq<Client>, f: Frame, clock: nat -> int): seq<Client> {
    seq(|clients|, i requires 0 <= i < |clients| =>
      if clients[i].connected then Enqueue(clients[i], f, clock(i)) else clients[i])
  }

  /** How many connected clients a broadcast is shed for. */
  function ShedFor(clients: seq<Client>, f: Frame): nat {
    if clients == [] then 0
    else
      var last := clients[|clients| - 1];
      ShedFor(clients[..|clients| - 1], f) + (if last.connected && Shed(last, f) then 1 else 0)
  }

  function With(s: State, i: nat, c: Client): State
    requires i < |s.clients|
  {
    s.(clients := s.clients[i := c])
  }

  function Step(s: State, e: Event): State {
    match e
    case Connect(ws) =>
      ActiveIdFinds(s.clients, ws);
      var before :=
        match ActiveId(s.clients, ws)
        case Some(i) => With(s, i, Replaced(s.clients[i]))
        case None => s;
      before.(clients := before.clients + [NewClient(ws)])
    case Broadcast(f, clock) =>
      State(BroadcastTo(s.clients, f, clock), AddTo(s.dropped, f.kind, ShedFor(s.clients, f)))
    case Send(ws, text, now) =>
      ActiveIdFinds(s.clients, ws);
      (match ActiveId(s.clients, ws)
       case Some(i) => With(s, i, Enqueue(s.clients[i], Frame(Personal, text), now))
       case None => s)
    case WriterTakes(id) => if id < |s.clients| then With(s, id, Take(s.clients[id])) else s
    case WriterDelivered(id) => if id < |s.clients| then With(s, id, Delivered(s.clients[id])) else s
    case WriterFailed(id, now) => if id < |s.clients| then With(s, id, SendFailed(s.clients[id], now)) else s
    case Disconnect(ws, now) =>
      ActiveIdFinds(s.clients, ws);
      (match ActiveId(s.clients, ws)
       case Some(i) => With(s, i, Depart(s.clients[i], now))
       case None => s)
  }

  function Run(events: seq<Event>): State {
    if events == [] then State([], NONE_DROPPED)
    else Step(Run(events[..|events| - 1]), events[|events| - 1])
  }

  function TotalShed(clients: seq<Client>, k: Kind): nat {
    if clients == [] then 0
    else TotalShed(clients[..|clients| - 1], k) + ShedCount(clients[|clients| - 1].offers, k)
  }

  /** The global counter is what every client ever connected has logged or still has to log. */
  ghost predicate Conserved(s: State) {
    && (forall i :: 0 <= i < |s.clients| ==> Sound(s.clients[i]))
    && s.dropped.raw == TotalShed(s.clients, RawPacket)
    && s.dropped.community == TotalShed(s.clients, CommunityPacket)
  }

  lemma {:induction false} TotalAfterUpdate(clients: seq<Client>, i: nat, c: Client, k: Kind)
    requires i < |clients| && ShedCount(c.offers, k) == ShedCount(clients[i].offers, k)
    ensures TotalShed(clients[i := c], k) == TotalShed(clients, k)
  {
    var n := |clients| - 1;
    if i == n {
      assert clients[i := c][..n] == clients[..n];
    } else {
      TotalAfterUpdate(clients[..n], i, c, k);
      assert clients[i := c][..n] == clients[..n][i := c];
    }
  }

  lemma EnqueueDelta(c: Client, f: Frame, now: int, k: Kind)
    requires k.RawPacket? || k.CommunityPacket?
    ensures ShedCount(Enqueue(c, f, now).offers, k)
      == ShedCount(c.offers, k) + (if Shed(c, f) && f.kind == k then 1 else 0)
  {
    OfferAppended(c.offers, Offer(f, !Shed(c, f) && |c.queue| < QUEUE_MAX));
  }

  lemma TotalSnoc(clients: seq<Client>, c: Client, k: Kind)
    ensures TotalShed(clients + [c], k) == TotalShed(clients, k) + ShedCount(c.offers, k)
  {
    assert (clients + [c])[..|clients|] == clients;
  }

  lemma BroadcastSnoc(clients: seq<Client>, c: Client, f: Frame, clock: nat -> int)
    ensures
      var d := if c.connected then Enqueue(c, f, clock(|clients|)) else c;
      BroadcastTo(clients + [c], f, clock) == BroadcastTo(clients, f, clock) + [d]
  {
  }

  lemma ShedForSnoc(clients: seq<Client>, c: Client, f: Frame)
    ensures ShedFor(clients + [c], f) == ShedFor(clients, f) + (if c.connected && Shed(c, f) then 1 else 0)
  {
    assert (clients + [c])[..|clients|] == clients;
  }

  lemma TotalAfterOne(clients: seq<Client>, last: Client, f: Frame, clock: nat -> int, k: Kind)
    requires k.RawPacket? || k.CommunityPacket?
    requires TotalShed(BroadcastTo(clients, f, clock), k)
      == TotalShed(clients, k) + (if f.kind == k then ShedFor(clients, f) else 0)
    ensures TotalShed(BroadcastTo(clients + [last], f, clock), k)
      == TotalShed(clients + [last], k) + (if f.kind == k then ShedFor(clients + [last], f) else 0)
  {
    var now := clock(|clients|);
    BroadcastSnoc(clients, last, f, clock);
    ShedForSnoc(clients, last, f);
    EnqueueDelta(last, f, now, k);
    TotalSnoc(clients, last, k);
    TotalSnoc(BroadcastTo(clients, f, clock), if last.connected then Enqueue(last, f, now) else last, k);
  }

  lemma {:induction false} TotalAfterBroadcast(clients: seq<Client>, f: Frame, clock: nat -> int, k: Kind)
    requires k.RawPacket? || k.CommunityPacket?
    ensures TotalShed(BroadcastTo(clients, f, clock), k)
      == TotalShed(clients, k) + (if f.kind == k then ShedFor(clients, f) else 0)
  {
    if clients != [] {
      var init, last := clients[..|clients| - 1], clients[|clients| - 1];
      TotalAfterBroadcast(init, f, clock, k);
      assert clients == init + [last];
      TotalAfterOne(init, last, f, clock, k);
    }
  }

  /** Replacing one client by a sound one with the same drops changes no total. */
  lemma ReplaceConserves(s: State, i: nat, c: Client)
    requires Conserved(s) && i < |s.clients| && Sound(c)
    requires ShedCount(c.offers, RawPacket) == ShedCount(s.clients[i].offers, RawPacket)
    requires ShedCount(c.offers, CommunityPacket) == ShedCount(s.clients[i].offers, CommunityPacket)
    ensures Conserved(With(s, i, c))
  {
    TotalAfterUpdate(s.clients, i, c, RawPacket);
    TotalAfterUpdate(s.clients, i, c, CommunityPacket);
  }

  lemma JoinConserves(s: State, ws: int)
    requires Conserved(s)
    ensures Conserved(s.(clients := s.clients + [NewClient(ws)]))
  {
    assert Sound(NewClient(ws));
    assert (s.clients + [NewClient(ws)])[..|s.clients|] == s.clients;
  }

  lemma ConnectConserves(s: State, ws: int)
    requires Conserved(s)
    ensures Conserved(Step(s, Connect(ws)))
  {
    ActiveIdFinds(s.clients, ws);
    var id := ActiveId(s.clients, ws);
    if id.Some? {
      var c := s.clients[id.value];
      ReplacedSound(c);
      ReplaceConserves(s, id.value, Replaced(c));
      JoinConserves(With(s, id.value, Replaced(c)), ws);
    } else {
      JoinConserves(s, ws);
    }
  }

  lemma BroadcastSound(clients: seq<Client>, f: Frame, clock: nat -> int)
    requires forall i :: 0 <= i < |clients| ==> Sound(clients[i])
    ensures
      var after := BroadcastTo(clients, f, clock);
      forall i :: 0 <= i < |after| ==> Sound(after[i])
  {
    var after := BroadcastTo(clients, f, clock);
    forall i | 0 <= i < |after|
      ensures Sound(after[i])
    {
      if clients[i].connected {
        EnqueueSound(clients[i], f, clock(i));
      }
    }
  }

  lemma BroadcastConserves(s: State, f: Frame, clock: nat -> int)
    requires Conserved(s)
    ensures Conserved(Step(s, Broadcast(f, clock)))
  {
    TotalAfterBroadcast(s.clients, f, clock, RawPacket);
    TotalAfterBroadcast(s.clients, f, clock, CommunityPacket);
    BroadcastSound(s.clients, f, clock);
  }

  lemma SendConserves(s: State, ws: int, text: string, now: int)
    requires Conserved(s)
    ensures Conserved(Step(s, Send(ws, text, now)))
  {
    ActiveIdFinds(s.clients, ws);
    var id := ActiveId(s.clients, ws);
    if id.Some? {
      var c, f := s.clients[id.value], Frame(Personal, text);
      EnqueueSound(c, f, now);
      EnqueueDelta(c, f, now, RawPacket);
      EnqueueDelta(c, f, now, CommunityPacket);
      ReplaceConserves(s, id.value, Enqueue(c, f, now));
    }
  }

  lemma WriterConserves(s: State, id: nat, now: int)
    requires Conserved(s) && id < |s.clients|
    ensures Conserved(With(s, id, Take(s.clients[id])))
    ensures Conserved(With(s, id, Delivered(s.clients[id])))
    ensures Conserved(With(s, id, SendFailed(s.clients[id], now)))
  {
    TakeSound(s.clients[id]);
    DeliveredSound(s.clients[id]);
    LeavingSound(s.clients[id], now);
    ReplaceConserves(s, id, Take(s.clients[id]));
    ReplaceConserves(s, id, Delivered(s.clients[id]));
    ReplaceConserves(s, id, SendFailed(s.clients[id], now));
  }

  lemma DisconnectConserves(s: State, ws: int, now: int)
    requires Conserved(s)
    ensures Conserved(Step(s, Disconnect(ws, now)))
  {
    ActiveIdFinds(s.clients, ws);
    var id := ActiveId(s.clients, ws);
    if id.Some? {
      LeavingSound(s.clients[id.value], now);
      ReplaceConserves(s, id.value, Depart(s.clients[id.value], now));
    }
  }

  lemma StepConserves(s: State, e: Event)
    requires Conserved(s)
    ensures Conserved(Step(s, e))
  {
    match e
    case Connect(ws) => ConnectConserves(s, ws);
    case Broadcast(f, clock) => BroadcastConserves(s, f, clock);
    case Send(ws, text, now) => SendConserves(s, ws, text, now);
    case WriterTakes(id) =>
      if id < |s.clients| {
        WriterConserves(s, id, 0);
      }
    case WriterDelivered(id) =>
      if id < |s.clients| {
        WriterConserves(s, id, 0);
      }
    case WriterFailed(id, now) =>
      if id < |s.clients| {
        WriterConserves(s, id, now);
      }
    case Disconnect(ws, now) => DisconnectConserves(s, ws, now);
  }

  /** In every reachable state, for every interleaving. */
  lemma {:induction false} RunConserves(events: seq<Event>)
    ensures Conserved(Run(events))
  {
    if events != [] {
      RunConserves(events[..|events| - 1]);
      StepConserves(Run(events[..|events| - 1]), events[|events| - 1]);
    }
  }

  /** What all clients ever connected have logged, or have still to log. */
  function TotalReported(clients: seq<Client>, k: Kind): nat {
    if clients == [] then 0
    else
      var last := clients[|clients| - 1];
      TotalReported(clients[..|clients| - 1], k) + LoggedCount(last.logs, k) + CountOf(last.unreported, k)
  }

  lemma {:induction false} ShedIsReported(clients: seq<Client>, k: Kind)
    requires k.RawPacket? || k.CommunityPacket?
    requires forall i :: 0 <= i < |clients| ==> Sound(clients[i])
    ensures TotalReported(clients, k) == TotalShed(clients, k)
  {
    if clients != [] {
      ShedIsReported(clients[..|clients| - 1], k);
      assert Balanced(clients[|clients| - 1], k);
    }
  }

  /** The process-wide counter is the sum of all log lines and all unreported counts. */
  lemma GlobalCounterConserved(events: seq<Event>)
    ensures
      var s := Run(events);
      && s.dropped.raw == TotalReported(s.clients, RawPacket)
      && s.dropped.community == TotalReported(s.clients, CommunityPacket)
  {
    RunConserves(events);
    ShedIsReported(Run(events).clients, RawPacket);
    ShedIsReported(Run(events).clients, CommunityPacket);
  }

  /** No best-effort broadcast ever disconnects anyone. */
  lemma DroppableNeverEvicts(events: seq<Event>, f: Frame, clock: nat -> int, id: nat)
    requires Droppable(f) && id < |Run(events).clients|
    ensures
      var after := Step(Run(events), Broadcast(f, clock)).clients;
      id < |after| && after[id].connected == Run(events).clients[id].connected
  {
    RunConserves(events);
    var c := Run(events).clients[id];
    if c.connected {
      EnqueueSound(c, f, clock(id));
    }
  }

  /** The same, seen from the outside: order, completeness and accounting of every client. */
  lemma DeliveryOfEveryRun(events: seq<Event>, id: nat)
    requires id < |Run(events).clients|
    ensures
      var c := Run(events).clients[id];
      && c.sent <= Kept(c.offers)
      && (c.connected ==>
            StateFrames(c.sent + Pending(c.inFlight) + c.queue) == StateFrames(Offered(c.offers)))
      && (!c.connected && !c.replaced ==>
            && ShedCount(c.offers, RawPacket) == LoggedCount(c.logs, RawPacket)
            && ShedCount(c.offers, CommunityPacket) == LoggedCount(c.logs, CommunityPacket))
  {
    RunConserves(events);
    var c := Run(events).clients[id];
    assert c.sent <= c.sent + Pending(c.inFlight) + c.queue;
    if c.connected {
      NothingLostWhileConnected(c);
    }
  }

  /** The client's drops stay as they are. */
  ghost predicate SameDrops(c: Client, d: Client) {
    d.connected == c.connected && d.replaced == c.replaced && d.unreported == c.unreported && d.logs == c.logs
  }

  lemma WriterIsQuiet(c: Client, now: int)
    requires !c.connected
    ensures SameDrops(c, Take(c)) && SameDrops(c, Delivered(c)) && SameDrops(c, SendFailed(c, now))
  {
  }

  /** What is meant for the connected client of a socket does not touch a departed one. */
  lemma ConnectElsewhere(s: State, ws: int, id: nat)
    requires id < |s.clients| && !s.clients[id].connected
    ensures
      var after := Step(s, Connect(ws)).clients;
      |after| == |s.clients| + 1 && after[id] == s.clients[id]
  {
    ActiveIdFinds(s.clients, ws);
  }

  lemma SendElsewhere(s: State, ws: int, text: string, now: int, id: nat)
    requires id < |s.clients| && !s.clients[id].connected
    ensures
      var after := Step(s, Send(ws, text, now)).clients;
      |after| == |s.clients| && after[id] == s.clients[id]
  {
    ActiveIdFinds(s.clients, ws);
  }

  lemma DisconnectElsewhere(s: State, ws: int, now: int, id: nat)
    requires id < |s.clients| && !s.clients[id].connected
    ensures
      var after := Step(s, Disconnect(ws, now)).clients;
      |after| == |s.clients| && after[id] == s.clients[id]
  {
    ActiveIdFinds(s.clients, ws);
  }

  lemma BroadcastElsewhere(s: State, f: Frame, clock: nat -> int, id: nat)
    requires id < |s.clients| && !s.clients[id].connected
    ensures
      var after := Step(s, Broadcast(f, clock)).clients;
      |after| == |s.clients| && after[id] == s.clients[id]
  {
  }

  lemma WriterElsewhere(s: State, e: Event, id: nat)
    requires id < |s.clients| && !s.clients[id].connected
    requires e.WriterTakes? || e.WriterDelivered? || e.WriterFailed?
    ensures
      var after := Step(s, e).clients;
      |after| == |s.clients| && SameDrops(s.clients[id], after[id])
  {
    WriterIsQuiet(s.clients[id], if e.WriterFailed? then e.now else 0);
  }

  /**
   What replacing a connection costs: nothing a replaced client still has to report is ever
   logged, whatever happens next.
   */
  lemma ReplacedNeverReports(s: State, e: Event, id: nat)
    requires Conserved(s) && id < |s.clients| && s.clients[id].replaced
    ensures id < |Step(s, e).clients| && SameDrops(s.clients[id], Step(s, e).clients[id])
  {
    assert Sound(s.clients[id]);
    match e
    case Connect(ws) => ConnectElsewhere(s, ws, id);
    case Broadcast(f, clock) => BroadcastElsewhere(s, f, clock, id);
    case Send(ws, text, now) => SendElsewhere(s, ws, text, now, id);
    case WriterTakes(_) => WriterElsewhere(s, e, id);
    case WriterDelivered(_) => WriterElsewhere(s, e, id);
    case WriterFailed(_, _) => WriterElsewhere(s, e, id);
    case Disconnect(ws, now) => DisconnectElsewhere(s, ws, now, id);
  }

  // ----- When every drop of a departed client is logged -----

  /** The promise: no client that is gone has drops it never reported. */
  ghost predicate AllReported(s: State) {
    forall i :: 0 <= i < |s.clients| && !s.clients[i].connected ==> s.clients[i].unreported == NONE_DROPPED
  }

  /** A socket connects again while its active client has drops to report. */
  predicate Spills(s: State, e: Event) {
    e.Connect? &&
    match ActiveId(s.clients, e.ws)
    case Some(i) => i < |s.clients| && s.clients[i].unreported != NONE_DROPPED
    case None => false
  }

  ghost predicate NeverSpills(events: seq<Event>) {
    events == [] ||
    (NeverSpills(events[..|events| - 1]) && !Spills(Run(events[..|events| - 1]), events[|events| - 1]))
  }

  /** Only a replaced client can keep drops to itself, and it does so for good. */
  lemma SpiltStays(s: State, e: Event)
    requires Conserved(s) && !AllReported(s)
    ensures !AllReported(Step(s, e))
  {
    var i :| 0 <= i < |s.clients| && !s.clients[i].connected && s.clients[i].unreported != NONE_DROPPED;
    assert Sound(s.clients[i]);
    ReplacedNeverReports(s, e, i);
  }

  lemma NotReplacedByFrame(c: Client, f: Frame, now: int)
    ensures Enqueue(c, f, now).replaced == c.replaced
  {
  }

  /** Nobody but a connecting socket's active client is replaced. */
  lemma ReplacedBefore(s: State, e: Event, i: nat)
    requires i < |s.clients| && i < |Step(s, e).clients| && Step(s, e).clients[i].replaced
    ensures s.clients[i].replaced || (e.Connect? && ActiveId(s.clients, e.ws) == Some(i))
  {
    match e
    case Connect(ws) => ActiveIdFinds(s.clients, ws);
    case Broadcast(f, clock) => NotReplacedByFrame(s.clients[i], f, clock(i));
    case Send(ws, text, now) =>
      ActiveIdFinds(s.clients, ws);
      NotReplacedByFrame(s.clients[i], Frame(Personal, text), now);
    case WriterTakes(_) =>
    case WriterDelivered(_) =>
    case WriterFailed(_, _) =>
    case Disconnect(ws, _) => ActiveIdFinds(s.clients, ws);
  }

  /** The client a connecting socket replaces takes its drops along. */
  lemma ReplacedByConnect(s: State, ws: int, i: nat)
    requires ActiveId(s.clients, ws) == Some(i)
    ensures
      var after := Step(s, Connect(ws)).clients;
      i < |s.clients| && |after| == |s.clients| + 1 && after[i] == Replaced(s.clients[i])
  {
    ActiveIdFinds(s.clients, ws);
  }

  lemma SizeGrows(s: State, e: Event)
    ensures |Step(s, e).clients| == |s.clients| + (if e.Connect? then 1 else 0)
    ensures e.Connect? ==> Step(s, e).clients[|s.clients|] == NewClient(e.ws)
  {
    if e.Connect? || e.Send? || e.Disconnect? {
      ActiveIdFinds(s.clients, e.ws);
    }
  }

  lemma StaysReported(s: State, e: Event, i: nat)
    requires Conserved(s) && AllReported(s) && !Spills(s, e)
    requires i < |Step(s, e).clients| && !Step(s, e).clients[i].connected
    ensures Step(s, e).clients[i].unreported == NONE_DROPPED
  {
    var d := Step(s, e).clients[i];
    StepConserves(s, e);
    assert Sound(d);
    SizeGrows(s, e);
    if d.replaced {
      ReplacedBefore(s, e, i);
      if s.clients[i].replaced {
        assert Sound(s.clients[i]);
        ReplacedNeverReports(s, e, i);
      } else {
        ReplacedByConnect(s, e.ws, i);
      }
    }
  }

  lemma ReportedIff(s: State, e: Event)
    requires Conserved(s) && AllReported(s)
    ensures AllReported(Step(s, e)) <==> !Spills(s, e)
  {
    if Spills(s, e) {
      ReplacedByConnect(s, e.ws, ActiveId(s.clients, e.ws).value);
    } else {
      forall i | 0 <= i < |Step(s, e).clients| && !Step(s, e).clients[i].connected
        ensures Step(s, e).clients[i].unreported == NONE_DROPPED
      {
        StaysReported(s, e, i);
      }
    }
  }

  /** In every run: all drops of departed clients are logged iff no connect ever meets unreported ones. */
  lemma {:induction false} AllReportedIff(events: seq<Event>)
    ensures AllReported(Run(events)) <==> NeverSpills(events)
  {
    if events != [] {
      var init, e := events[..|events| - 1], events[|events| - 1];
      AllReportedIff(init);
      RunConserves(init);
      if AllReported(Run(init)) {
        ReportedIff(Run(init), e);
      } else {
        SpiltStays(Run(init), e);
      }
    }
  }

  // A run that spills: a full community backlog, two more frames within one log interval.

  /** A community frame for every client, at one clock value. */
  function OneFrame(clock: nat -> int): Event {
    Broadcast(Frame(CommunityPacket, "frame"), clock)
  }

  function Flood(ws: int, n: nat, clock: nat -> int): seq<Event> {
    if n == 0 then [Connect(ws)] else Flood(ws, n - 1, clock) + [OneFrame(clock)]
  }

  /** The only client is connected, with so much queued and so much unreported. */
  ghost predicate OnlyClient(s: State, ws: int, queued: nat, unreported: Counts, lastDropLog: Option<int>) {
    && |s.clients| == 1
    && var c := s.clients[0];
       && c.connected && c.ws == ws && |c.queue| == queued
       && c.unreported == unreported && c.lastDropLog == lastDropLog
  }

  lemma FloodStep(s: State, ws: int, clock: nat -> int, queued: nat, unreported: Counts, lastDropLog: Option<int>)
    requires OnlyClient(s, ws, queued, unreported, lastDropLog)
    requires lastDropLog.Some? ==> lastDropLog.value == clock(0)
    requires queued < COMMUNITY_BACKLOG_MAX ==> unreported == NONE_DROPPED
    ensures
      var after := Step(s, OneFrame(clock));
      if queued < COMMUNITY_BACKLOG_MAX then OnlyClient(after, ws, queued + 1, unreported, lastDropLog)
      else if lastDropLog.None? then OnlyClient(after, ws, queued, NONE_DROPPED, Some(clock(0)))
      else OnlyClient(after, ws, queued, AddTo(unreported, CommunityPacket, 1), lastDropLog)
  {
    var f := Frame(CommunityPacket, "frame");
    assert BroadcastTo(s.clients, f, clock)[0] == Enqueue(s.clients[0], f, clock(0));
  }

  lemma FloodSnoc(ws: int, n: nat, clock: nat -> int)
    ensures Run(Flood(ws, n + 1, clock)) == Step(Run(Flood(ws, n, clock)), OneFrame(clock))
  {
    var events, e := Flood(ws, n, clock), OneFrame(clock);
    assert Flood(ws, n + 1, clock) == events + [e];
    assert (events + [e])[..|events|] == events;
  }

  lemma FloodStart(ws: int, clock: nat -> int)
    ensures OnlyClient(Run(Flood(ws, 0, clock)), ws, 0, NONE_DROPPED, None)
  {
    var e := [Connect(ws)];
    assert e[..0] == [] && e[0] == Connect(ws);
    assert Run(e) == Step(Run([]), Connect(ws));
    assert ActiveId([], ws).None?;
    assert Step(Run([]), Connect(ws)).clients == [] + [NewClient(ws)];
  }

  lemma {:induction false} FloodFills(ws: int, n: nat, clock: nat -> int)
    requires n <= COMMUNITY_BACKLOG_MAX
    ensures OnlyClient(Run(Flood(ws, n, clock)), ws, n, NONE_DROPPED, None)
  {
    if n == 0 {
      FloodStart(ws, clock);
    } else {
      FloodFills(ws, n - 1, clock);
      FloodSnoc(ws, n - 1, clock);
      FloodStep(Run(Flood(ws, n - 1, clock)), ws, clock, n - 1, NONE_DROPPED, None);
    }
  }

  /** The first shed frame is logged at once, the second is not. */
  lemma FloodOverflows(ws: int, full: nat, clock: nat -> int)
    requires full == COMMUNITY_BACKLOG_MAX
    ensures OnlyClient(Run(Flood(ws, full + 2, clock)), ws, full, Counts(0, 1), Some(clock(0)))
  {
    FloodFills(ws, full, clock);
    FloodSnoc(ws, full, clock);
    FloodStep(Run(Flood(ws, full, clock)), ws, clock, full, NONE_DROPPED, None);
    FloodSnoc(ws, full + 1, clock);
    FloodStep(Run(Flood(ws, full + 1, clock)), ws, clock, full, NONE_DROPPED, Some(clock(0)));
  }

  /** The socket connects again: the drop of its first client is never reported. */
  lemma SpillingRun(ws: int, clock: nat -> int)
    ensures !AllReported(Run(Flood(ws, COMMUNITY_BACKLOG_MAX + 2, clock) + [Connect(ws)]))
  {
    var full := COMMUNITY_BACKLOG_MAX;
    var events := Flood(ws, full + 2, clock);
    FloodOverflows(ws, full, clock);
    var s := Run(events);
    assert (events + [Connect(ws)])[..|events|] == events;
    assert s.clients[..0] == [] && ActiveId(s.clients, ws) == Some(0);
    ReplacedByConnect(s, ws, 0);
  }

  // ----- The manager as the program runs it -----

  class WebSocketManager {
    var clients: seq<Client>
    var dropped: Counts

    function Now(): State
      reads this
    {
      State(clients, dropped)
    }

    constructor ()
      ensures Now() == Run([])
    {
      clients, dropped := [], NONE_DROPPED;
    }

    /** A socket that is active already gets a new client; the old one is only forgotten. */
    method Accept(ws: int)
      modifies this
      ensures Now() == Step(old(Now()), Connect(ws))
    {
      ActiveIdFinds(clients, ws);
      var id := ActiveId(clients, ws);
      if id.Some? {
        clients := clients[id.value := clients[id.value].(connected := false, replaced := true)];
      }
      clients := clients + [NewClient(ws)];
    }

    method ReportDrops(id: nat, final: bool, now: int)
      requires id < |clients|
      modifies this
      ensures Now() == With(old(Now()), id, LogDrops(old(clients)[id], final, now))
    {
      var c := clients[id];
      if c.unreported == NONE_DROPPED {
        return;
      }
      if !final && c.lastDropLog.Some? && now - c.lastDropLog.value < DROP_LOG_INTERVAL {
        return;
      }
      var line := DropLog(now, c.unreported, final);
      clients := clients[id := c.(unreported := NONE_DROPPED, lastDropLog := Some(now), logs := c.logs + [line])];
    }

    method Evict(id: nat, now: int)
      requires id < |clients|
      modifies this
      ensures Now() == With(old(Now()), id, Depart(old(clients)[id], now))
    {
      if !clients[id].connected {
        return;
      }
      clients := clients[id := clients[id].(connected := false, writing := false)];
      ReportDrops(id, true, now);
    }

    method Put(id: nat, f: Frame, now: int)
      requires id < |clients|
      modifies this
      ensures clients == old(clients)[id := Enqueue(old(clients)[id], f, now)]
      ensures dropped == AddTo(old(dropped), f.kind, if Shed(old(clients)[id], f) then 1 else 0)
    {
      var c := clients[id];
      if Droppable(f) {
        var limit := BacklogLimit(f.kind);
        if |c.queue| >= limit {
          clients := clients[id := c.(unreported := AddTo(c.unreported, f.kind, 1),
                                      offers := c.offers + [Offer(f, false)])];
          dropped := AddTo(dropped, f.kind, 1);
          ReportDrops(id, false, now);
          return;
        }
      }
      if |c.queue| >= QUEUE_MAX {
        clients := clients[id := c.(offers := c.offers + [Offer(f, false)])];
        Evict(id, now);
        return;
      }
      clients := clients[id := c.(queue := c.queue + [f], offers := c.offers + [Offer(f, true)])];
      if c.unreported != NONE_DROPPED {
        ReportDrops(id, false, now);
      }
    }

    method BroadcastNowait(f: Frame, clock: nat -> int)
      modifies this
      ensures Now() == Step(old(Now()), Broadcast(f, clock))
    {
      ghost var was := clients;
      var id := 0;
      while id < |clients|
        invariant 0 <= id <= |clients| == |was|
        invariant forall i :: 0 <= i < id ==> clients[i] == BroadcastTo(was, f, clock)[i]
        invariant forall i :: id <= i < |was| ==> clients[i] == was[i]
        invariant dropped == AddTo(old(dropped), f.kind, ShedFor(was[..id], f))
      {
        assert was[..id + 1][..id] == was[..id];
        if clients[id].connected {
          Put(id, f, clock(id));
        }
        id := id + 1;
      }
      assert was[..id] == was;
      assert clients == BroadcastTo(was, f, clock);
    }

    method SendRaw(ws: int, text: string, now: int)
      modifies this
      ensures Now() == Step(old(Now()), Send(ws, text, now))
    {
      ActiveIdFinds(clients, ws);
      var id := ActiveId(clients, ws);
      if id.Some? {
        Put(id.value, Frame(Personal, text), now);
      }
    }

    method Leave(ws: int, now: int)
      modifies this
      ensures Now() == Step(old(Now()), Disconnect(ws, now))
    {
      ActiveIdFinds(clients, ws);
      var id := ActiveId(clients, ws);
      if id.Some? {
        clients := clients[id.value := clients[id.value].(connected := false, writing := false)];
        ReportDrops(id.value, true, now);
      }
    }

    /** The writer's two halves; anything may happen between them. */
    method WriterGet(id: nat)
      requires id < |clients| && clients[id].writing
      requires clients[id].inFlight.None? && clients[id].queue != []
      modifies this
      ensures Now() == Step(old(Now()), WriterTakes(id))
    {
      var c := clients[id];
      clients := clients[id := c.(queue := c.queue[1..], inFlight := Some(c.queue[0]))];
    }

    method WriterSend(id: nat, delivered: bool, now: int)
      requires id < |clients| && clients[id].writing && clients[id].inFlight.Some?
      modifies this
      ensures Now() == Step(old(Now()), if delivered then WriterDelivered(id) else WriterFailed(id, now))
    {
      var c := clients[id];
      if delivered {
        clients := clients[id := c.(inFlight := None, sent := c.sent + [c.inFlight.value])];
      } else if c.connected {
        Evict(id, now);
      } else {
        clients := clients[id := c.(writing := false)];
      }
    }
  }
}
