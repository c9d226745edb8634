/**
 The channel send-slot cache: which channel key sits in which radio slot, in order of last
 use, kept as two maps that must stay inverse to each other and true of the radio.
 */
module SlotCache {
  import opened Options
  import opened Text

  /** One item of the ordered key-to-slot dictionary. */
  datatype Entry = Entry(key: string, slot: int)

  datatype Cache = Cache(entries: seq<Entry>, keyBySlot: map<int, string>)

  const EMPTY := Cache([], map[])

  function SlotOf(entries: seq<Entry>, key: string): Option<int> {
    if entries == [] then None
    else if entries[0].key == key then Some(entries[0].slot)
    else SlotOf(entries[1..], key)
  }

  function Without(entries: seq<Entry>, key: string): seq<Entry> {
    if entries == [] then []
    else if entries[0].key == key then Without(entries[1..], key)
    else [entries[0]] + Without(entries[1..], key)
  }

  // ----- Operations -----

  function Loaded(c: Cache, key: string, slot: int): Cache {
    var k := Upper(key);
    var previous := SlotOf(c.entries, k);
    var entries := Without(c.entries, k);
    var bySlot := if previous.Some? && previous.value != slot then c.keyBySlot - {previous.value} else c.keyBySlot;
    var rest := if slot in bySlot && bySlot[slot] != k then Without(entries, bySlot[slot]) else entries;
    Cache(rest + [Entry(k, slot)], bySlot[slot := k])
  }

  function Used(c: Cache, key: string): Cache {
    var k := Upper(key);
    match SlotOf(c.entries, k)
    case None => c
    case Some(slot) => Cache(Without(c.entries, k) + [Entry(k, slot)], c.keyBySlot[slot := k])
  }

  function Forgotten(c: Cache, slot: int): Cache {
    if slot !in c.keyBySlot then c
    else
      var key := c.keyBySlot[slot];
      Cache(if SlotOf(c.entries, key) == Some(slot) then Without(c.entries, key) else c.entries,
            c.keyBySlot - {slot})
  }

  function Invalidated(c: Cache, key: string): Cache {
    var k := Upper(key);
    match SlotOf(c.entries, k)
    case None => c
    case Some(slot) =>
      Cache(Without(c.entries, k),
            if slot in c.keyBySlot && c.keyBySlot[slot] == k then c.keyBySlot - {slot} else c.keyBySlot)
  }

  /** Invalidate every key of a snapshot that sits in the slot. */
  function Freed(snapshot: seq<Entry>, c: Cache, slot: int): Cache {
    if snapshot == [] then c
    else Freed(snapshot[1..], if snapshot[0].slot == slot then Invalidated(c, snapshot[0].key) else c, slot)
  }

  function Capacity(maxChannels: int): nat {
    if maxChannels > 1 then maxChannels else 1
  }

  function FirstFree(bySlot: map<int, string>, capacity: nat, from: nat, otherwise: int): int
    requires from <= capacity
    decreases capacity - from
  {
    if from == capacity then otherwise
    else if from !in bySlot then from
    else FirstFree(bySlot, capacity, from + 1, otherwise)
  }

  datatype Plan = Plan(slot: int, needsConfigure: bool, evicted: Option<string>)

  function PlanSlot(c: Cache, key: string, maxChannels: int, preferred: int): Plan {
    var cached := SlotOf(c.entries, Upper(key));
    var capacity := Capacity(maxChannels);
    if cached.Some? then Plan(cached.value, false, None)
    else if |c.entries| < capacity then
      var free := if preferred < capacity && preferred !in c.keyBySlot then preferred
                  else FirstFree(c.keyBySlot, capacity, 0, preferred);
      Plan(free, true, None)
    else Plan(c.entries[0].slot, true, Some(c.entries[0].key))
  }

  // ----- The two maps are inverse -----

  ghost predicate DistinctKeys(entries: seq<Entry>) {
    forall i, j :: 0 <= i < j < |entries| ==> entries[i].key != entries[j].key
  }

  ghost predicate Inverse(c: Cache) {
    && DistinctKeys(c.entries)
    && (forall i :: 0 <= i < |c.entries| ==>
          c.entries[i].slot in c.keyBySlot && c.keyBySlot[c.entries[i].slot] == c.entries[i].key)
    && (forall s :: s in c.keyBySlot ==> SlotOf(c.entries, c.keyBySlot[s]) == Some(s))
  }

  lemma {:induction false} SlotOfFinds(entries: seq<Entry>, key: string)
    ensures
      match SlotOf(entries, key)
      case Some(s) => exists i :: 0 <= i < |entries| && entries[i] == Entry(key, s)
      case None => forall i :: 0 <= i < |entries| ==> entries[i].key != key
    ensures DistinctKeys(entries) ==>
      forall i :: 0 <= i < |entries| && entries[i].key == key ==> SlotOf(entries, key) == Some(entries[i].slot)
  {
    if entries != [] {
      SlotOfFinds(entries[1..], key);
      if entries[0].key != key && SlotOf(entries, key).Some? {
        var s := SlotOf(entries, key).value;
        var i :| 0 <= i < |entries[1..]| && entries[1..][i] == Entry(key, s);
        assert entries[i + 1] == Entry(key, s);
      }
      forall i | DistinctKeys(entries) && 0 <= i < |entries| && entries[i].key == key
        ensures SlotOf(entries, key) == Some(entries[i].slot)
      {
        if i > 0 {
          assert entries[1..][i - 1] == entries[i];
        }
      }
    }
  }

  /** Dropping a key keeps the other items. */
  lemma {:induction false} WithoutMembers(entries: seq<Entry>, key: string)
    ensures forall e :: e in Without(entries, key) <==> e in entries && e.key != key
  {
    if entries != [] {
      WithoutMembers(entries[1..], key);
      assert entries == [entries[0]] + entries[1..];
    }
  }

  lemma {:induction false} WithoutDistinct(entries: seq<Entry>, key: string)
    requires DistinctKeys(entries)
    ensures DistinctKeys(Without(entries, key))
  {
    if entries != [] {
      WithoutDistinct(entries[1..], key);
      WithoutMembers(entries[1..], key);
      assert forall e :: e in entries[1..] ==> e.key != entries[0].key;
    }
  }

  lemma {:induction false} WithoutLookup(entries: seq<Entry>, key: string, k: string)
    ensures SlotOf(Without(entries, key), k) == if k == key then None else SlotOf(entries, k)
  {
    if entries != [] {
      WithoutLookup(entries[1..], key, k);
      if entries[0].key != key {
        assert Without(entries, key)[1..] == Without(entries[1..], key);
      }
    }
  }

  lemma WithoutKeeps(entries: seq<Entry>, key: string)
    ensures forall e :: e in Without(entries, key) <==> e in entries && e.key != key
    ensures DistinctKeys(entries) ==> DistinctKeys(Without(entries, key))
    ensures forall k :: SlotOf(Without(entries, key), k) == if k == key then None else SlotOf(entries, k)
  {
    WithoutMembers(entries, key);
    if DistinctKeys(entries) {
      WithoutDistinct(entries, key);
    }
    forall k {
      WithoutLookup(entries, key, k);
    }
  }

  lemma {:induction false} SlotOfSnoc(entries: seq<Entry>, e: Entry, k: string)
    requires SlotOf(entries, e.key).None?
    ensures SlotOf(entries + [e], k) == if k == e.key then Some(e.slot) else SlotOf(entries, k)
  {
    if entries == [] {
      assert entries + [e] == [e];
      assert [e][1..] == [];
    } else {
      assert (entries + [e])[1..] == entries[1..] + [e];
      if entries[0].key != k {
        SlotOfSnoc(entries[1..], e, k);
      }
    }
  }

  /** An equivalent reading of the invariant, through lookups only. */
  ghost predicate Paired(c: Cache) {
    && DistinctKeys(c.entries)
    && (forall k :: SlotOf(c.entries, k).Some? ==>
          var s := SlotOf(c.entries, k).value; s in c.keyBySlot && c.keyBySlot[s] == k)
    && (forall s :: s in c.keyBySlot ==> SlotOf(c.entries, c.keyBySlot[s]) == Some(s))
  }

  lemma PairedIffInverse(c: Cache)
    ensures Paired(c) <==> Inverse(c)
  {
    if Paired(c) {
      forall i | 0 <= i < |c.entries|
        ensures SlotOf(c.entries, c.entries[i].key) == Some(c.entries[i].slot)
      {
        SlotOfFinds(c.entries, c.entries[i].key);
      }
    }
    if Inverse(c) {
      forall k | SlotOf(c.entries, k).Some?
        ensures var s := SlotOf(c.entries, k).value; s in c.keyBySlot && c.keyBySlot[s] == k
      {
        SlotOfFinds(c.entries, k);
      }
    }
  }

  lemma SnocDistinct(entries: seq<Entry>, e: Entry)
    requires DistinctKeys(entries) && SlotOf(entries, e.key).None?
    ensures DistinctKeys(entries + [e])
  {
    SlotOfFinds(entries, e.key);
  }

  /** The items after a load: the displaced key is gone and the loaded one is last. */
  lemma LoadedEntries(c: Cache, key: string, slot: int)
    requires Paired(c)
    ensures
      var k, d := Upper(key), Loaded(c, key, slot);
      && DistinctKeys(d.entries)
      && (forall x :: SlotOf(d.entries, x) ==
            if x == k then Some(slot)
            else if SlotOf(c.entries, x) == Some(slot) then None
            else SlotOf(c.entries, x))
  {
    var k, d := Upper(key), Loaded(c, key, slot);
    var entries := Without(c.entries, k);
    WithoutKeeps(c.entries, k);
    var rest := d.entries[..|d.entries| - 1];
    assert d.entries == rest + [Entry(k, slot)];
    if slot in c.keyBySlot && c.keyBySlot[slot] != k {
      WithoutKeeps(entries, c.keyBySlot[slot]);
    }
    assert SlotOf(rest, k).None?;
    SnocDistinct(rest, Entry(k, slot));
    forall x
      ensures SlotOf(d.entries, x) == if x == k then Some(slot) else SlotOf(rest, x)
    {
      SlotOfSnoc(rest, Entry(k, slot), x);
    }
  }

  /** Every operation, read through lookups. */
  lemma LoadedLookups(c: Cache, key: string, slot: int)
    requires Paired(c)
    ensures
      var k, d := Upper(key), Loaded(c, key, slot);
      && Paired(d)
      && (forall x :: SlotOf(d.entries, x) ==
            if x == k then Some(slot)
            else if SlotOf(c.entries, x) == Some(slot) then None
            else SlotOf(c.entries, x))
  {
    LoadedEntries(c, key, slot);
    var k, d := Upper(key), Loaded(c, key, slot);
    var previous := SlotOf(c.entries, k);
    forall s | s in d.keyBySlot
      ensures SlotOf(d.entries, d.keyBySlot[s]) == Some(s)
    {
      if s != slot {
        assert s in c.keyBySlot && d.keyBySlot[s] == c.keyBySlot[s];
        assert SlotOf(c.entries, c.keyBySlot[s]) == Some(s);
      }
    }
    forall x | SlotOf(d.entries, x).Some?
      ensures var s := SlotOf(d.entries, x).value; s in d.keyBySlot && d.keyBySlot[s] == x
    {
      if x != k {
        var s := SlotOf(c.entries, x).value;
        assert s in c.keyBySlot && c.keyBySlot[s] == x;
      }
    }
  }

  lemma UsedLookups(c: Cache, key: string)
    requires Paired(c)
    ensures Paired(Used(c, key))
    ensures forall x :: SlotOf(Used(c, key).entries, x) == SlotOf(c.entries, x)
  {
    var k := Upper(key);
    var s := SlotOf(c.entries, k);
    if s.Some? {
      WithoutKeeps(c.entries, k);
      SnocDistinct(Without(c.entries, k), Entry(k, s.value));
      forall x {
        SlotOfSnoc(Without(c.entries, k), Entry(k, s.value), x);
      }
    }
  }

  lemma ForgottenLookups(c: Cache, slot: int)
    requires Paired(c)
    ensures Paired(Forgotten(c, slot))
    ensures forall x ::
      SlotOf(Forgotten(c, slot).entries, x) == if SlotOf(c.entries, x) == Some(slot) then None else SlotOf(c.entries, x)
  {
    if slot in c.keyBySlot {
      WithoutKeeps(c.entries, c.keyBySlot[slot]);
    }
  }

  lemma InvalidatedLookups(c: Cache, key: string)
    requires Paired(c)
    ensures Paired(Invalidated(c, key))
    ensures forall x ::
      SlotOf(Invalidated(c, key).entries, x) == if x == Upper(key) then None else SlotOf(c.entries, x)
  {
    WithoutKeeps(c.entries, Upper(key));
  }

  /** Freeing a slot leaves it unclaimed and touches no other key. */
  lemma {:induction false} FreedLookups(snapshot: seq<Entry>, c: Cache, slot: int)
    requires Paired(c)
    ensures
      var d := Freed(snapshot, c, slot);
      && Paired(d)
      && (forall x :: SlotOf(d.entries, x) ==
            if exists i :: 0 <= i < |snapshot| && snapshot[i].slot == slot && Upper(snapshot[i].key) == x
            then None else SlotOf(c.entries, x))
  {
    if snapshot != [] {
      var next := if snapshot[0].slot == slot then Invalidated(c, snapshot[0].key) else c;
      InvalidatedLookups(c, snapshot[0].key);
      FreedLookups(snapshot[1..], next, slot);
      var d := Freed(snapshot, c, slot);
      forall x
        ensures SlotOf(d.entries, x) ==
          if exists i :: 0 <= i < |snapshot| && snapshot[i].slot == slot && Upper(snapshot[i].key) == x
          then None else SlotOf(c.entries, x)
      {
        InTail(snapshot, slot, x);
      }
    }
  }

  lemma InTail(snapshot: seq<Entry>, slot: int, x: string)
    requires snapshot != []
    ensures
      (exists i :: 0 <= i < |snapshot| && snapshot[i].slot == slot && Upper(snapshot[i].key) == x) <==>
      || (snapshot[0].slot == slot && Upper(snapshot[0].key) == x)
      || (exists i :: 0 <= i < |snapshot[1..]| && snapshot[1..][i].slot == slot && Upper(snapshot[1..][i].key) == x)
  {
    if i :| 0 <= i < |snapshot| && snapshot[i].slot == slot && Upper(snapshot[i].key) == x {
      assert i > 0 ==> snapshot[1..][i - 1] == snapshot[i];
    }
    if i :| 0 <= i < |snapshot[1..]| && snapshot[1..][i].slot == slot && Upper(snapshot[1..][i].key) == x {
      assert snapshot[i + 1] == snapshot[1..][i];
    }
  }

  lemma FreedSlotIsUnclaimed(c: Cache, slot: int)
    requires Paired(c) && UpperKeys(c.entries)
    ensures slot !in Freed(c.entries, c, slot).keyBySlot
    ensures forall x :: SlotOf(c.entries, x) != Some(slot) ==>
      SlotOf(Freed(c.entries, c, slot).entries, x) == SlotOf(c.entries, x)
  {
    FreedLookups(c.entries, c, slot);
    PairedIffInverse(c);
    var d := Freed(c.entries, c, slot);
    forall x | SlotOf(c.entries, x) == Some(slot)
      ensures SlotOf(d.entries, x).None?
    {
      SlotOfFinds(c.entries, x);
    }
    forall i | 0 <= i < |c.entries| && c.entries[i].slot == slot
      ensures SlotOf(c.entries, Upper(c.entries[i].key)) == Some(slot)
    {
      assert c.entries[i] in c.entries;
      SlotOfFinds(c.entries, c.entries[i].key);
    }
  }

  // ----- Pigeonhole -----

  lemma {:induction false} Pigeonhole(slots: set<int>, n: nat)
    requires forall i :: 0 <= i < n ==> i in slots
    ensures |slots| >= n
  {
    if n > 0 {
      Pigeonhole(slots - {n - 1}, n - 1);
    }
  }

  lemma {:induction false} AsManySlotsAsKeys(c: Cache)
    requires Inverse(c)
    ensures |c.keyBySlot| == |c.entries|
    decreases |c.entries|
  {
    if c.entries == [] {
      forall s
        ensures s !in c.keyBySlot
      {
        if s in c.keyBySlot {
          var _ := SlotOf(c.entries, c.keyBySlot[s]);
        }
      }
    } else {
      var e := c.entries[0];
      var d := Cache(c.entries[1..], c.keyBySlot - {e.slot});
      forall s | s in d.keyBySlot
        ensures SlotOf(d.entries, d.keyBySlot[s]) == Some(s)
      {
        assert SlotOf(c.entries, c.keyBySlot[s]) == Some(s);
      }
      forall i | 0 <= i < |d.entries|
        ensures d.entries[i].slot in d.keyBySlot && d.keyBySlot[d.entries[i].slot] == d.entries[i].key
      {
        assert d.entries[i] == c.entries[i + 1];
      }
      AsManySlotsAsKeys(d);
      assert c.keyBySlot.Keys == d.keyBySlot.Keys + {e.slot};
    }
  }

  lemma {:induction false} FirstFreeFinds(bySlot: map<int, string>, capacity: nat, from: nat, otherwise: int)
    requires from <= capacity
    ensures
      var s := FirstFree(bySlot, capacity, from, otherwise);
      if forall i :: from <= i < capacity ==> i in bySlot then s == otherwise
      else from <= s < capacity && s !in bySlot && forall i :: from <= i < s ==> i in bySlot
    decreases capacity - from
  {
    if from < capacity && from in bySlot {
      FirstFreeFinds(bySlot, capacity, from + 1, otherwise);
    }
  }

  /**
   Below capacity the planned slot is a free one; with a non-negative preferred slot it is
   within capacity too: the fallback after the search is never taken.
   */
  lemma PlanFindsFreeSlot(c: Cache, key: string, maxChannels: int, preferred: int)
    requires Inverse(c) && |c.entries| < Capacity(maxChannels) && SlotOf(c.entries, Upper(key)).None?
    ensures
      var p := PlanSlot(c, key, maxChannels, preferred);
      && p.slot !in c.keyBySlot && p.needsConfigure && p.evicted.None?
      && (preferred >= 0 ==> 0 <= p.slot < Capacity(maxChannels))
      && (preferred < Capacity(maxChannels) && preferred !in c.keyBySlot ==> p.slot == preferred)
  {
    var capacity := Capacity(maxChannels);
    AsManySlotsAsKeys(c);
    assert |c.keyBySlot.Keys| < capacity;
    if forall i :: 0 <= i < capacity ==> i in c.keyBySlot.Keys {
      Pigeonhole(c.keyBySlot.Keys, capacity);
      assert false;
    }
    FirstFreeFinds(c.keyBySlot, capacity, 0, preferred);
  }

  // ----- Whole sessions -----

  /** The cache, what the radio's slots really hold, every load or use so far, and the reuse setting. */
  datatype World = World(cache: Cache, radio: map<int, string>, touched: seq<string>, reuse: bool)

  /**
   A slot was written; or the radio refused, or the call failed (`Failed`); or the call came
   back without a result (`NoResult`).  In the last two the slot may hold anything.
   */
  datatype Configured = Accepted | Failed(slotNow: Option<string>) | NoResult(slotNow: Option<string>)

  datatype SendReply = SentOk | SendError | NoAnswer

  /**
   A channel send (plan, configure, send); a slot written or emptied by a restore; the mesh
   test, which frees its slot and later borrows it; a reset after which the radio may hold
   anything; and a change of the reuse setting.
   */
  datatype Event =
    | Send(key: string, maxChannels: int, preferred: int, configured: Configured, reply: SendReply)
    | Restore(key: string, slot: int, configured: Configured)
    | Clear(slot: int, slotNow: Option<string>)
    | Free(slot: int)
    | Borrow(slot: int, slotNow: Option<string>)
    | Reset(radioNow: map<int, string>)
    | SetReuse(on: bool)

  function PutSlot(radio: map<int, string>, slot: int, now: Option<string>): map<int, string> {
    match now
    case Some(k) => radio[slot := k]
    case None => radio - {slot}
  }

  function PlanOf(w: World, key: string, maxChannels: int, preferred: int): Plan {
    if w.reuse then PlanSlot(w.cache, key, maxChannels, preferred) else Plan(preferred, true, None)
  }

  function Load(w: World, key: string, slot: int): World {
    var written := w.(radio := w.radio[slot := Upper(key)]);
    if w.reuse
    then written.(cache := Loaded(w.cache, key, slot), touched := w.touched + [Upper(key)])
    else written
  }

  function Use(w: World, key: string): World {
    if w.reuse && SlotOf(w.cache.entries, Upper(key)).Some?
    then w.(cache := Used(w.cache, key), touched := w.touched + [Upper(key)])
    else w
  }

  function Transmit(w: World, key: string, reply: SendReply): World {
    match reply
    case SentOk => Use(w, key)
    case SendError => w.(cache := Invalidated(w.cache, key))
    case NoAnswer => w
  }

  function Step(w: World, e: Event): World {
    match e
    case Send(key, maxChannels, preferred, configured, reply) =>
      var p := PlanOf(w, key, maxChannels, preferred);
      if !p.needsConfigure then Transmit(w, key, reply)
      else
        (match configured
         case Accepted => Transmit(Load(w, key, p.slot), key, reply)
         case Failed(now) =>
           w.(radio := PutSlot(w.radio, p.slot, now),
              cache := if p.evicted.Some? then Invalidated(w.cache, p.evicted.value) else w.cache)
         case NoResult(now) => w.(radio := PutSlot(w.radio, p.slot, now)))
    case Restore(key, slot, configured) =>
      if configured.Accepted? then Load(w, key, slot)
      else w.(radio := PutSlot(w.radio, slot, configured.slotNow))
    case Clear(slot, slotNow) =>
      w.(cache := Forgotten(w.cache, slot), radio := PutSlot(w.radio, slot, slotNow))
    case Free(slot) => w.(cache := Freed(w.cache.entries, w.cache, slot))
    case Borrow(slot, slotNow) => w.(radio := PutSlot(w.radio, slot, slotNow))
    case Reset(radioNow) => w.(cache := EMPTY, radio := radioNow)
    case SetReuse(on) => w.(reuse := on)
  }

  const FRESH := World(EMPTY, map[], [], true)

  function Run(events: seq<Event>): World {
    if events == [] then FRESH
    else Step(Run(events[..|events| - 1]), events[|events| - 1])
  }

  lemma RunSnoc(events: seq<Event>, e: Event)
    ensures Run(events + [e]) == Step(Run(events), e)
  {
    assert (events + [e])[..|events|] == events;
  }

  /** Every cached slot really holds its key. */
  ghost predicate Agrees(w: World) {
    forall k :: SlotOf(w.cache.entries, k).Some? ==>
      var s := SlotOf(w.cache.entries, k).value; s in w.radio && w.radio[s] == k
  }

  function LastTouch(touched: seq<string>, key: string): int {
    if touched == [] then -1
    else if touched[|touched| - 1] == key then |touched| - 1
    else LastTouch(touched[..|touched| - 1], key)
  }

  /** Cached keys stand in the order of their last load or use. */
  ghost predicate InOrder(entries: seq<Entry>, touched: seq<string>) {
    forall i, j :: 0 <= i < j < |entries| ==> LastTouch(touched, entries[i].key) < LastTouch(touched, entries[j].key)
  }

  ghost predicate UpperKeys(entries: seq<Entry>) {
    forall e :: e in entries ==> Upper(e.key) == e.key
  }

  /** What holds whatever happens to the radio. */
  ghost predicate Sound(w: World) {
    Paired(w.cache) && InOrder(w.cache.entries, w.touched) && UpperKeys(w.cache.entries)
  }

  ghost predicate Coherent(w: World) {
    Sound(w) && Agrees(w)
  }

  lemma UpperIdempotent(s: string)
    ensures Upper(Upper(s)) == Upper(s)
  {
  }

  lemma LastTouchSnoc(touched: seq<string>, k: string, key: string)
    ensures LastTouch(touched + [k], key) == if k == key then |touched| else LastTouch(touched, key)
  {
    assert (touched + [k])[..|touched|] == touched;
  }

  lemma {:induction false} LastTouchBound(touched: seq<string>, key: string)
    ensures LastTouch(touched, key) < |touched|
  {
    if touched != [] && touched[|touched| - 1] != key {
      LastTouchBound(touched[..|touched| - 1], key);
    }
  }

  lemma {:induction false} InOrderWithout(entries: seq<Entry>, touched: seq<string>, key: string)
    requires InOrder(entries, touched)
    ensures InOrder(Without(entries, key), touched)
  {
    if entries != [] {
      var tail := entries[1..];
      assert forall i :: 0 <= i < |tail| ==> tail[i] == entries[i + 1];
      InOrderWithout(tail, touched, key);
      WithoutMembers(tail, key);
      if entries[0].key != key {
        var w := Without(tail, key);
        forall j | 0 <= j < |w|
          ensures LastTouch(touched, entries[0].key) < LastTouch(touched, w[j].key)
        {
          assert w[j] in tail;
        }
        assert Without(entries, key) == [entries[0]] + w;
      }
    }
  }

  /** Moving a key to the end is what touching it does to the order. */
  lemma InOrderTouch(entries: seq<Entry>, touched: seq<string>, e: Entry)
    requires InOrder(entries, touched) && forall i :: 0 <= i < |entries| ==> entries[i].key != e.key
    ensures InOrder(entries + [e], touched + [e.key])
  {
    var next := entries + [e];
    forall i | 0 <= i < |next|
      ensures LastTouch(touched + [e.key], next[i].key)
        == if i < |entries| then LastTouch(touched, next[i].key) else |touched|
    {
      LastTouchSnoc(touched, e.key, next[i].key);
    }
    forall i | 0 <= i < |entries|
      ensures LastTouch(touched, entries[i].key) < |touched|
    {
      LastTouchBound(touched, entries[i].key);
    }
  }

  // ----- What each operation keeps -----

  lemma LoadSound(w: World, key: string, slot: int)
    requires Sound(w)
    ensures Sound(Load(w, key, slot))
  {
    if w.reuse {
      var k, c := Upper(key), w.cache;
      var d := Loaded(c, key, slot);
      LoadedLookups(c, key, slot);
      UpperIdempotent(key);
      WithoutMembers(c.entries, k);
      InOrderWithout(c.entries, w.touched, k);
      var rest := d.entries[..|d.entries| - 1];
      assert d.entries == rest + [Entry(k, slot)];
      if slot in c.keyBySlot && c.keyBySlot[slot] != k {
        WithoutMembers(Without(c.entries, k), c.keyBySlot[slot]);
        InOrderWithout(Without(c.entries, k), w.touched, c.keyBySlot[slot]);
      }
      assert forall e :: e in rest ==> e in c.entries && e.key != k;
      InOrderTouch(rest, w.touched, Entry(k, slot));
    }
  }

  lemma LoadAgrees(w: World, key: string, slot: int)
    requires w.reuse && Paired(w.cache) && Agrees(w)
    ensures Agrees(Load(w, key, slot))
  {
    LoadedLookups(w.cache, key, slot);
  }

  lemma UseKeeps(w: World, key: string)
    requires Sound(w)
    ensures Sound(Use(w, key)) && (Agrees(Use(w, key)) <==> Agrees(w))
  {
    var k := Upper(key);
    var s := SlotOf(w.cache.entries, k);
    if w.reuse && s.Some? {
      UsedLookups(w.cache, key);
      UpperIdempotent(key);
      WithoutMembers(w.cache.entries, k);
      InOrderWithout(w.cache.entries, w.touched, k);
      var rest := Without(w.cache.entries, k);
      assert forall e :: e in rest ==> e.key != k;
      InOrderTouch(rest, w.touched, Entry(k, s.value));
    }
  }

  lemma InvalidateKeeps(w: World, key: string)
    requires Sound(w)
    ensures
      var after := w.(cache := Invalidated(w.cache, key));
      Sound(after) && (Agrees(w) ==> Agrees(after))
  {
    InvalidatedLookups(w.cache, key);
    WithoutMembers(w.cache.entries, Upper(key));
    InOrderWithout(w.cache.entries, w.touched, Upper(key));
  }

  lemma ForgetKeeps(w: World, slot: int, now: Option<string>)
    requires Sound(w)
    ensures
      var after := w.(cache := Forgotten(w.cache, slot), radio := PutSlot(w.radio, slot, now));
      Sound(after) && (Agrees(w) ==> Agrees(after))
  {
    ForgottenLookups(w.cache, slot);
    if slot in w.cache.keyBySlot {
      WithoutMembers(w.cache.entries, w.cache.keyBySlot[slot]);
      InOrderWithout(w.cache.entries, w.touched, w.cache.keyBySlot[slot]);
    }
  }

  lemma {:induction false} FreeKeeps(w: World, snapshot: seq<Entry>, slot: int)
    requires Sound(w)
    ensures
      var after := w.(cache := Freed(snapshot, w.cache, slot));
      Sound(after) && (Agrees(w) ==> Agrees(after))
    decreases |snapshot|
  {
    if snapshot != [] {
      InvalidateKeeps(w, snapshot[0].key);
      FreeKeeps(if snapshot[0].slot == slot then w.(cache := Invalidated(w.cache, snapshot[0].key)) else w,
                snapshot[1..], slot);
    }
  }

  lemma TransmitKeeps(w: World, key: string, reply: SendReply)
    requires Sound(w)
    ensures Sound(Transmit(w, key, reply)) && (Agrees(w) ==> Agrees(Transmit(w, key, reply)))
  {
    match reply
    case SentOk => UseKeeps(w, key);
    case SendError => InvalidateKeeps(w, key);
    case NoAnswer =>
  }

  // ----- Writes the cache does not hear of -----

  datatype Write = Write(slot: int, now: Option<string>)

  /**
   The write an event makes without telling the cache: a configure without a result, any
   configure with reuse off, a restore write that was not accepted, a borrowed slot.
   */
  function PastCache(w: World, e: Event): Option<Write> {
    match e
    case Send(key, maxChannels, preferred, configured, reply) =>
      var p := PlanOf(w, key, maxChannels, preferred);
      if !p.needsConfigure then None
      else if configured.NoResult? then Some(Write(p.slot, configured.slotNow))
      else if w.reuse then None
      else Some(Write(p.slot, if configured.Accepted? then Some(Upper(key)) else configured.slotNow))
    case Restore(key, slot, configured) =>
      if !configured.Accepted? then Some(Write(slot, configured.slotNow))
      else if w.reuse then None
      else Some(Write(slot, Some(Upper(key))))
    case Borrow(slot, slotNow) => Some(Write(slot, slotNow))
    case Clear(_, _) => None
    case Free(_) => None
    case Reset(_) => None
    case SetReuse(_) => None
  }

  /** The slot is unclaimed, or holds what the cache says it holds. */
  predicate Spares(c: Cache, write: Write) {
    write.slot in c.keyBySlot ==> write.now == Some(c.keyBySlot[write.slot])
  }

  predicate Spared(w: World, e: Event) {
    PastCache(w, e).Some? ==> Spares(w.cache, PastCache(w, e).value)
  }

  lemma WriteAgreesIff(w: World, slot: int, now: Option<string>)
    requires Paired(w.cache) && Agrees(w)
    ensures Agrees(w.(radio := PutSlot(w.radio, slot, now))) <==> Spares(w.cache, Write(slot, now))
  {
    var after := w.(radio := PutSlot(w.radio, slot, now));
    if slot in w.cache.keyBySlot {
      var k := w.cache.keyBySlot[slot];
      assert SlotOf(after.cache.entries, k) == Some(slot);
    }
  }

  /** With reuse off: the write decides, also when the send that follows is refused. */
  lemma SendWithoutReuse(w: World, key: string, slot: int, reply: SendReply)
    requires Coherent(w) && !w.reuse
    ensures Agrees(Transmit(Load(w, key, slot), key, reply)) <==> Spares(w.cache, Write(slot, Some(Upper(key))))
  {
    var k, written := Upper(key), Load(w, key, slot);
    WriteAgreesIff(w, slot, Some(k));
    TransmitKeeps(written, key, reply);
    if slot in w.cache.keyBySlot && w.cache.keyBySlot[slot] != k {
      var other := w.cache.keyBySlot[slot];
      InvalidatedLookups(w.cache, key);
      assert SlotOf(Transmit(written, key, reply).cache.entries, other) == Some(slot);
    }
  }

  /** A plan that needs configuration names an unclaimed slot, or the slot of the evicted key. */
  lemma PlannedSlot(c: Cache, key: string, maxChannels: int, preferred: int)
    requires Paired(c) && UpperKeys(c.entries) && PlanSlot(c, key, maxChannels, preferred).needsConfigure
    ensures
      var p := PlanSlot(c, key, maxChannels, preferred);
      match p.evicted
      case None => p.slot !in c.keyBySlot
      case Some(k) => Upper(k) == k && SlotOf(c.entries, k) == Some(p.slot)
  {
    PairedIffInverse(c);
    if |c.entries| < Capacity(maxChannels) {
      PlanFindsFreeSlot(c, key, maxChannels, preferred);
    } else {
      assert c.entries[0] in c.entries;
      SlotOfFinds(c.entries, c.entries[0].key);
    }
  }

  /** A failed configure may leave anything in the planned slot; no cached key is there. */
  lemma FailedConfigure(w: World, key: string, maxChannels: int, preferred: int, now: Option<string>)
    requires Coherent(w) && w.reuse && PlanSlot(w.cache, key, maxChannels, preferred).needsConfigure
    ensures Coherent(Step(w, Send(key, maxChannels, preferred, Failed(now), NoAnswer)))
  {
    var p := PlanSlot(w.cache, key, maxChannels, preferred);
    PlannedSlot(w.cache, key, maxChannels, preferred);
    if p.evicted.Some? {
      InvalidateKeeps(w, p.evicted.value);
      InvalidatedLookups(w.cache, p.evicted.value);
      WriteAgreesIff(w.(cache := Invalidated(w.cache, p.evicted.value)), p.slot, now);
    } else {
      WriteAgreesIff(w, p.slot, now);
    }
  }

  lemma SendSound(w: World, e: Event)
    requires Sound(w) && e.Send?
    ensures Sound(Step(w, e))
  {
    var p := PlanOf(w, e.key, e.maxChannels, e.preferred);
    if !p.needsConfigure {
      TransmitKeeps(w, e.key, e.reply);
    } else if e.configured.Accepted? {
      LoadSound(w, e.key, p.slot);
      TransmitKeeps(Load(w, e.key, p.slot), e.key, e.reply);
    } else if p.evicted.Some? {
      InvalidateKeeps(w, p.evicted.value);
    }
  }

  /** Inverse maps and LRU order survive every event. */
  lemma StepSound(w: World, e: Event)
    requires Sound(w)
    ensures Sound(Step(w, e))
  {
    match e
    case Send(_, _, _, _, _) => SendSound(w, e);
    case Restore(key, slot, configured) => LoadSound(w, key, slot);
    case Clear(slot, now) => ForgetKeeps(w, slot, now);
    case Free(slot) => FreeKeeps(w, w.cache.entries, slot);
    case Borrow(_, _) =>
    case Reset(_) =>
    case SetReuse(_) =>
  }

  lemma SendAgreesIff(w: World, e: Event)
    requires Coherent(w) && e.Send?
    ensures Agrees(Step(w, e)) <==> Spared(w, e)
  {
    var p := PlanOf(w, e.key, e.maxChannels, e.preferred);
    if !p.needsConfigure {
      TransmitKeeps(w, e.key, e.reply);
    } else if e.configured.NoResult? {
      WriteAgreesIff(w, p.slot, e.configured.slotNow);
    } else if w.reuse && e.configured.Accepted? {
      LoadSound(w, e.key, p.slot);
      LoadAgrees(w, e.key, p.slot);
      TransmitKeeps(Load(w, e.key, p.slot), e.key, e.reply);
    } else if w.reuse {
      FailedConfigure(w, e.key, e.maxChannels, e.preferred, e.configured.slotNow);
    } else if e.configured.Accepted? {
      SendWithoutReuse(w, e.key, p.slot, e.reply);
    } else {
      WriteAgreesIff(w, p.slot, e.configured.slotNow);
    }
  }

  /**
   One event, whatever fails: a coherent cache stays coherent exactly when what is written
   past it hits an unclaimed slot or leaves the cached key there.
   */
  lemma StepCoherentIff(w: World, e: Event)
    requires Coherent(w)
    ensures Sound(Step(w, e)) && (Coherent(Step(w, e)) <==> Spared(w, e))
  {
    StepSound(w, e);
    match e
    case Send(_, _, _, _, _) => SendAgreesIff(w, e);
    case Restore(key, slot, configured) =>
      if !configured.Accepted? {
        WriteAgreesIff(w, slot, configured.slotNow);
      } else if w.reuse {
        LoadAgrees(w, key, slot);
      } else {
        WriteAgreesIff(w, slot, Some(Upper(key)));
      }
    case Clear(slot, now) => ForgetKeeps(w, slot, now);
    case Free(slot) => FreeKeeps(w, w.cache.entries, slot);
    case Borrow(slot, now) => WriteAgreesIff(w, slot, now);
    case Reset(_) =>
    case SetReuse(_) =>
  }

  // ----- Runs -----

  /** Over every session: the maps are inverse and in order of last load or use. */
  lemma {:induction false} RunSound(events: seq<Event>)
    ensures Sound(Run(events))
  {
    if events != [] {
      RunSound(events[..|events| - 1]);
      StepSound(Run(events[..|events| - 1]), events[|events| - 1]);
    }
  }

  /** Since the start or the last reset, every write past the cache spared it. */
  ghost predicate Trusted(events: seq<Event>) {
    || events == []
    || events[|events| - 1].Reset?
    || (Trusted(events[..|events| - 1]) && Spared(Run(events[..|events| - 1]), events[|events| - 1]))
  }

  /** Trusted sessions are coherent, with reuse toggled and slots borrowed in between. */
  lemma {:induction false} RunCoherent(events: seq<Event>)
    requires Trusted(events)
    ensures Coherent(Run(events))
  {
    RunSound(events);
    if events != [] && !events[|events| - 1].Reset? {
      RunCoherent(events[..|events| - 1]);
      StepCoherentIff(Run(events[..|events| - 1]), events[|events| - 1]);
    }
  }

  /** The first write that does not spare the cache breaks it. */
  lemma BrokenByUnspared(events: seq<Event>, e: Event)
    requires Trusted(events) && !Spared(Run(events), e)
    ensures !Agrees(Run(events + [e]))
  {
    RunCoherent(events);
    RunSnoc(events, e);
    StepCoherentIff(Run(events), e);
  }

  lemma TrustedSnoc(events: seq<Event>, e: Event)
    requires Trusted(events) && Spared(Run(events), e)
    ensures Trusted(events + [e])
  {
    assert (events + [e])[..|events|] == events;
  }

  /** Every one of the events, coming after `start`, spares the cache it meets. */
  ghost predicate AllSpared(start: seq<Event>, events: seq<Event>)
    decreases |events|
  {
    events == [] || (Spared(Run(start), events[0]) && AllSpared(start + [events[0]], events[1..]))
  }

  lemma {:induction false} StaysTrusted(start: seq<Event>, after: seq<Event>)
    requires Trusted(start) && AllSpared(start, after)
    ensures Trusted(start + after)
    decreases |after|
  {
    if after == [] {
      assert start + after == start;
    } else {
      var next := start + [after[0]];
      MoveOne(start, after);
      TrustedSnoc(start, after[0]);
      StaysTrusted(next, after[1..]);
    }
  }

  lemma MoveOne(start: seq<Event>, after: seq<Event>)
    requires after != []
    ensures (start + [after[0]]) + after[1..] == start + after
  {
  }

  /** Whatever went wrong before a reset, only what follows it counts. */
  lemma ResetRestoresTrust(before: seq<Event>, radioNow: map<int, string>, after: seq<Event>)
    requires AllSpared(before + [Reset(radioNow)], after)
    ensures Trusted(before + [Reset(radioNow)] + after)
  {
    StaysTrusted(before + [Reset(radioNow)], after);
  }

  /** A plan that skips configuration names a slot that already holds the key. */
  lemma SkippedConfigureIsSafe(events: seq<Event>, key: string, maxChannels: int, preferred: int)
    requires Trusted(events)
    ensures
      var w := Run(events);
      var p := PlanOf(w, key, maxChannels, preferred);
      !p.needsConfigure ==> p.slot in w.radio && w.radio[p.slot] == Upper(key)
  {
    RunCoherent(events);
  }

  /** The evicted key is the one loaded or used longest ago, in every session. */
  lemma EvictedIsLeastRecentlyUsed(events: seq<Event>, key: string, maxChannels: int, preferred: int)
    ensures
      var w := Run(events);
      var p := PlanOf(w, key, maxChannels, preferred);
      p.evicted.Some? ==>
        && SlotOf(w.cache.entries, p.evicted.value) == Some(p.slot)
        && forall e :: e in w.cache.entries && e.key != p.evicted.value ==>
             LastTouch(w.touched, p.evicted.value) < LastTouch(w.touched, e.key)
  {
    RunSound(events);
  }

  /** Freed and borrowed with nothing in between, a slot costs the cache nothing else. */
  lemma FreeThenBorrow(events: seq<Event>, slot: int, now: Option<string>)
    requires Trusted(events)
    ensures Trusted(events + [Free(slot)] + [Borrow(slot, now)])
  {
    RunCoherent(events);
    RunSnoc(events, Free(slot));
    FreedSlotIsUnclaimed(Run(events).cache, slot);
    TrustedSnoc(events, Free(slot));
    TrustedSnoc(events + [Free(slot)], Borrow(slot, now));
  }

  // ----- Runs that break the cache -----

  /** The next send of `key` skips configuration although its slot holds `other`. */
  ghost predicate SentInto(w: World, key: string, other: string, maxChannels: int, preferred: int) {
    var p := PlanOf(w, key, maxChannels, preferred);
    !p.needsConfigure && p.slot in w.radio && w.radio[p.slot] == Upper(other) != Upper(key)
  }

  /** After the first send of a session its key sits in the preferred slot. */
  lemma SendFromFresh(events: seq<Event>, key: string, maxChannels: int)
    requires Run(events) == FRESH
    ensures Run(events + [Send(key, maxChannels, 0, Accepted, NoAnswer)])
      == World(Cache([Entry(Upper(key), 0)], map[0 := Upper(key)]), map[0 := Upper(key)], [Upper(key)], true)
  {
    var e := Send(key, maxChannels, 0, Accepted, NoAnswer);
    RunSnoc(events, e);
    assert PlanOf(FRESH, key, maxChannels, 0) == Plan(0, true, None);
    assert Step(FRESH, e) == Load(FRESH, key, 0);
    assert [] + [Entry(Upper(key), 0)] == [Entry(Upper(key), 0)];
    assert Loaded(EMPTY, key, 0) == Cache([Entry(Upper(key), 0)], map[0 := Upper(key)]);
    assert [] + [Upper(key)] == [Upper(key)];
  }

  lemma FirstSend(key: string, maxChannels: int)
    ensures Run([Send(key, maxChannels, 0, Accepted, NoAnswer)])
      == World(Cache([Entry(Upper(key), 0)], map[0 := Upper(key)]), map[0 := Upper(key)], [Upper(key)], true)
  {
    SendFromFresh([], key, maxChannels);
    assert [] + [Send(key, maxChannels, 0, Accepted, NoAnswer)] == [Send(key, maxChannels, 0, Accepted, NoAnswer)];
  }

  /** A restore write whose answer is lost. */
  lemma LostRestoreBreaks(a: string, b: string, maxChannels: int)
    requires Upper(a) != Upper(b)
    ensures SentInto(
      Run([Send(a, maxChannels, 0, Accepted, NoAnswer)] + [Restore(b, 0, NoResult(Some(Upper(b))))]),
      a, b, maxChannels, 0)
  {
    FirstSend(a, maxChannels);
    RunSnoc([Send(a, maxChannels, 0, Accepted, NoAnswer)], Restore(b, 0, NoResult(Some(Upper(b)))));
  }

  /** A configure that evicts a key and comes back without a result. */
  lemma NoResultBreaks(a: string, b: string)
    requires Upper(a) != Upper(b)
    ensures SentInto(
      Run([Send(a, 1, 0, Accepted, NoAnswer)] + [Send(b, 1, 0, NoResult(Some(Upper(b))), NoAnswer)]),
      a, b, 1, 0)
  {
    var e := Send(b, 1, 0, NoResult(Some(Upper(b))), NoAnswer);
    FirstSend(a, 1);
    RunSnoc([Send(a, 1, 0, Accepted, NoAnswer)], e);
    var w := Run([Send(a, 1, 0, Accepted, NoAnswer)]);
    assert w.cache.entries[1..] == [] && SlotOf([], Upper(b)) == None;
    assert SlotOf(w.cache.entries, Upper(b)) == None && Capacity(1) == 1;
    assert PlanOf(w, b, 1, 0) == Plan(0, true, Some(Upper(a)));
  }

  /** Reuse turned off for one send, and on again without a reset. */
  lemma ToggledReuseBreaks(a: string, b: string, maxChannels: int)
    requires Upper(a) != Upper(b)
    ensures SentInto(
      Run([Send(a, maxChannels, 0, Accepted, NoAnswer)] + [SetReuse(false)]
          + [Send(b, maxChannels, 0, Accepted, NoAnswer)] + [SetReuse(true)]),
      a, b, maxChannels, 0)
  {
    var e1 := [Send(a, maxChannels, 0, Accepted, NoAnswer)];
    var off, e2 := SetReuse(false), Send(b, maxChannels, 0, Accepted, NoAnswer);
    FirstSend(a, maxChannels);
    RunSnoc(e1, off);
    RunSnoc(e1 + [off], e2);
    RunSnoc(e1 + [off] + [e2], SetReuse(true));
  }

  /** Freeing a slot of an empty cache changes nothing. */
  lemma FreeNothing(slot: int)
    ensures Run([Free(slot)]) == FRESH
  {
    RunSnoc([], Free(slot));
    assert [] + [Free(slot)] == [Free(slot)];
  }

  /** A send between freeing the slot and borrowing it: the mesh test frees it before it has the radio. */
  lemma SendBeforeBorrowBreaks(a: string, test: string, maxChannels: int)
    requires Upper(a) != Upper(test)
    ensures SentInto(
      Run([Free(0)] + [Send(a, maxChannels, 0, Accepted, NoAnswer)] + [Borrow(0, Some(Upper(test)))]),
      a, test, maxChannels, 0)
  {
    var send := Send(a, maxChannels, 0, Accepted, NoAnswer);
    FreeNothing(0);
    SendFromFresh([Free(0)], a, maxChannels);
    RunSnoc([Free(0)] + [send], Borrow(0, Some(Upper(test))));
  }

  // ----- The cache as the program keeps it -----

  class ChannelSlots {
    var entries: seq<Entry>
    var keyBySlot: map<int, string>
    var reuse: bool
    var maxChannels: int

    function Contents(): Cache
      reads this
    {
      Cache(entries, keyBySlot)
    }

    constructor (reuse: bool, maxChannels: int)
      ensures Contents() == EMPTY && this.reuse == reuse && this.maxChannels == maxChannels
    {
      entries, keyBySlot := [], map[];
      this.reuse, this.maxChannels := reuse, maxChannels;
    }

    method ResetCache()
      modifies this`entries, this`keyBySlot
      ensures Contents() == EMPTY
    {
      entries, keyBySlot := [], map[];
    }

    method FindFirstFree(capacity: nat, preferred: int) returns (slot: int)
      ensures slot == if preferred < capacity && preferred !in keyBySlot then preferred
                      else FirstFree(keyBySlot, capacity, 0, preferred)
    {
      if preferred < capacity && preferred !in keyBySlot {
        return preferred;
      }
      slot := 0;
      while slot < capacity
        invariant 0 <= slot <= capacity
        invariant FirstFree(keyBySlot, capacity, 0, preferred) == FirstFree(keyBySlot, capacity, slot, preferred)
      {
        if slot !in keyBySlot {
          return;
        }
        slot := slot + 1;
      }
      return preferred;
    }

    method PlanSendSlot(key: string, preferred: int) returns (p: Plan)
      ensures p == if reuse then PlanSlot(Contents(), key, maxChannels, preferred) else Plan(preferred, true, None)
    {
      if !reuse {
        return Plan(preferred, true, None);
      }
      var cached := SlotOf(entries, Upper(key));
      if cached.Some? {
        return Plan(cached.value, false, None);
      }
      var capacity := Capacity(maxChannels);
      if |entries| < capacity {
        var slot := FindFirstFree(capacity, preferred);
        return Plan(slot, true, None);
      }
      return Plan(entries[0].slot, true, Some(entries[0].key));
    }

    method NoteLoaded(key: string, slot: int)
      modifies this`entries, this`keyBySlot
      ensures Contents() == if reuse then Loaded(old(Contents()), key, slot) else old(Contents())
    {
      if !reuse {
        return;
      }
      var k := Upper(key);
      var previous := SlotOf(entries, k);
      entries := Without(entries, k);
      if previous.Some? && previous.value != slot {
        keyBySlot := keyBySlot - {previous.value};
      }
      if slot in keyBySlot && keyBySlot[slot] != k {
        entries := Without(entries, keyBySlot[slot]);
      }
      keyBySlot := keyBySlot[slot := k];
      entries := entries + [Entry(k, slot)];
    }

    method NoteUsed(key: string)
      modifies this`entries, this`keyBySlot
      ensures Contents() == if reuse then Used(old(Contents()), key) else old(Contents())
    {
      if !reuse {
        return;
      }
      var k := Upper(key);
      var slot := SlotOf(entries, k);
      if slot.None? {
        return;
      }
      entries := Without(entries, k) + [Entry(k, slot.value)];
      keyBySlot := keyBySlot[slot.value := k];
    }

    method Forget(slot: int)
      modifies this`entries, this`keyBySlot
      ensures Contents() == Forgotten(old(Contents()), slot)
    {
      if slot !in keyBySlot {
        return;
      }
      var key := keyBySlot[slot];
      keyBySlot := keyBySlot - {slot};
      if SlotOf(entries, key) == Some(slot) {
        entries := Without(entries, key);
      }
    }

    method Invalidate(key: string)
      modifies this`entries, this`keyBySlot
      ensures Contents() == Invalidated(old(Contents()), key)
    {
      var k := Upper(key);
      var slot := SlotOf(entries, k);
      entries := Without(entries, k);
      if slot.None? {
        WithoutMissing(entries, k);
        WithoutMissing(old(entries), k);
        return;
      }
      if slot.value in keyBySlot && keyBySlot[slot.value] == k {
        keyBySlot := keyBySlot - {slot.value};
      }
    }

    // The operations around the cache, as their callers put them together.

    method SendMessage(key: string, preferred: int, configured: Configured, reply: SendReply, ghost w: World)
      requires w.cache == Contents() && w.reuse == reuse
      modifies this`entries, this`keyBySlot
      ensures Contents() == Step(w, Send(key, maxChannels, preferred, configured, reply)).cache
    {
      var p := PlanSendSlot(key, preferred);
      if p.needsConfigure {
        match configured {
          case Accepted =>
            NoteLoaded(key, p.slot);
          case Failed(_) =>
            if p.evicted.Some? {
              Invalidate(p.evicted.value);
            }
            return;
          case NoResult(_) =>
            return;
        }
      }
      match reply {
        case SentOk =>
          NoteUsed(key);
        case SendError =>
          Invalidate(key);
        case NoAnswer =>
      }
    }

    method RestoreChannel(key: string, slot: int, configured: Configured, ghost w: World)
      requires w.cache == Contents() && w.reuse == reuse
      modifies this`entries, this`keyBySlot
      ensures Contents() == Step(w, Restore(key, slot, configured)).cache
    {
      if configured.Accepted? {
        NoteLoaded(key, slot);
      }
    }

    /** What the mesh test does before it sends from the slot. */
    method FreeSlot(slot: int)
      modifies this`entries, this`keyBySlot
      ensures Contents() == Freed(old(entries), old(Contents()), slot)
    {
      var snapshot := entries;
      var i := 0;
      assert snapshot[0..] == snapshot;
      while i < |snapshot|
        invariant 0 <= i <= |snapshot|
        invariant Freed(snapshot, old(Contents()), slot) == Freed(snapshot[i..], Contents(), slot)
      {
        assert snapshot[i..][1..] == snapshot[i + 1..];
        if snapshot[i].slot == slot {
          Invalidate(snapshot[i].key);
        }
        i := i + 1;
      }
    }
  }

  lemma {:induction false} WithoutMissing(entries: seq<Entry>, key: string)
    ensures SlotOf(entries, key).None? ==> Without(entries, key) == entries
  {
    if entries != [] {
      WithoutMissing(entries[1..], key);
    }
  }
}
