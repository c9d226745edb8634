/**
 Which contacts belong on the radio: favorites up to capacity, then recent direct-message
 peers, then recent adverts up to the refill target (`get_contacts_selected_for_radio_sync`).
 */
module ContactSelection {
  import opened Options

  /** A contact as the selection sees it: its lower-case key, and anything else it carries. */
  datatype Contact = Contact(key: string, row: int)

  function Max(a: int, b: int): int { if a >= b then a else b }

  function Min(a: int, b: int): int { if a <= b then a else b }

  function EffectiveCapacity(configured: int, hardware: Option<int>): int {
    var capacity := Max(1, configured);
    Max(1, if hardware.Some? then Min(capacity, hardware.value) else capacity)
  }

  /** 80% of capacity, rounded half up, and 95% of it, rounded up, in exact arithmetic. */
  function RefillTarget(maxContacts: int): int {
    var capacity := Max(1, maxContacts);
    Max(1, Min(capacity, (8 * capacity + 5) / 10))
  }

  function FullSyncTrigger(maxContacts: int): int {
    var capacity := Max(1, maxContacts);
    Max(RefillTarget(maxContacts), Min(capacity, (95 * capacity + 99) / 100))
  }

  /** Never above the configured or the hardware capacity, and never below one. */
  lemma CapacityBounds(configured: int, hardware: Option<int>)
    ensures
      var c := EffectiveCapacity(configured, hardware);
      && c >= 1
      && (configured >= 1 && (hardware.Some? ==> hardware.value >= 1) ==>
            && c <= configured && (hardware.Some? ==> c <= hardware.value)
            && (c == configured || hardware == Some(c)))
  {
  }

  /**
   The refill target is the nearest whole number to 80%, the trigger the least at or above
   95%; they meet only where capacity leaves no room, so a refill alone does not cause
   another full sync.
   */
  lemma LimitsOrdered(maxContacts: int)
    ensures
      var capacity, refill, trigger := Max(1, maxContacts), RefillTarget(maxContacts), FullSyncTrigger(maxContacts);
      && 1 <= refill <= trigger <= capacity
      && -5 < 10 * refill - 8 * capacity <= 5
      && 100 * (trigger - 1) < 95 * capacity <= 100 * trigger
      && (refill == trigger <==> capacity <= 2)
  {
  }

  function Keys(cs: seq<Contact>): set<string> {
    set c | c in cs :: c.key
  }

  lemma KeysSnoc(cs: seq<Contact>, c: Contact)
    ensures Keys(cs + [c]) == Keys(cs) + {c.key}
  {
    assert c in cs + [c];
    forall k | k in Keys(cs)
      ensures k in Keys(cs + [c])
    {
      var d :| d in cs && d.key == k;
      assert d in cs + [c];
    }
  }

  /** The reference: keep the first contact of every key. */
  function Dedup(cs: seq<Contact>): seq<Contact> {
    if cs == [] then []
    else
      var init := Dedup(cs[..|cs| - 1]);
      if cs[|cs| - 1].key in Keys(init) then init else init + [cs[|cs| - 1]]
  }

  ghost predicate DistinctKeys(cs: seq<Contact>) {
    forall i, j :: 0 <= i < j < |cs| ==> cs[i].key != cs[j].key
  }

  /** No key twice, and none lost. */
  lemma {:induction false} DedupIsSound(cs: seq<Contact>)
    ensures DistinctKeys(Dedup(cs))
    ensures Keys(Dedup(cs)) == Keys(cs)
    ensures forall c :: c in Dedup(cs) ==> c in cs
  {
    if cs != [] {
      var init, last := cs[..|cs| - 1], cs[|cs| - 1];
      DedupIsSound(init);
      assert cs == init + [last];
      KeysSnoc(init, last);
      KeysSnoc(Dedup(init), last);
      assert forall c :: c in Dedup(init) ==> c.key in Keys(Dedup(init));
    }
  }

  lemma {:induction false} DedupGrows(cs: seq<Contact>, more: seq<Contact>)
    ensures Dedup(cs) <= Dedup(cs + more)
  {
    if more == [] {
      assert cs + more == cs;
    } else {
      var n := |more| - 1;
      assert (cs + more)[..|cs + more| - 1] == cs + more[..n];
      DedupGrows(cs, more[..n]);
    }
  }

  lemma DedupOne(cs: seq<Contact>, c: Contact)
    ensures Dedup(cs + [c]) == if c.key in Keys(Dedup(cs)) then Dedup(cs) else Dedup(cs) + [c]
  {
    assert (cs + [c])[..|cs|] == cs;
  }

  /** At most `limit` of the deduplicated contacts. */
  function UpTo(cs: seq<Contact>, limit: nat): seq<Contact> {
    if |Dedup(cs)| <= limit then Dedup(cs) else Dedup(cs)[..limit]
  }

  lemma TakeOne(seen: seq<Contact>, source: seq<Contact>, i: nat)
    requires i < |source|
    ensures
      var d := Dedup(seen + source[..i]);
      Dedup(seen + source[..i + 1]) == if source[i].key in Keys(d) then d else d + [source[i]]
  {
    assert seen + source[..i + 1] == (seen + source[..i]) + [source[i]];
    DedupOne(seen + source[..i], source[i]);
  }

  lemma StopEarly(seen: seq<Contact>, source: seq<Contact>, i: nat, limit: nat)
    requires i <= |source|
    requires |Dedup(seen + source[..i])| == limit || (i == |source| && |Dedup(seen + source[..i])| < limit)
    ensures Dedup(seen + source[..i]) == UpTo(seen + source, limit)
  {
    assert (seen + source[..i]) + source[i..] == seen + source;
    DedupGrows(seen + source[..i], source[i..]);
    assert i == |source| ==> source[..i] == source;
  }

  /** One phase of the selection: append unseen contacts until the limit is reached. */
  method Fill(ghost seen: seq<Contact>, source: seq<Contact>, selected: seq<Contact>, keys: set<string>, limit: nat)
    returns (selected': seq<Contact>, keys': set<string>)
    requires selected == Dedup(seen) && |selected| < limit
    requires keys == Keys(selected)
    ensures selected' == UpTo(seen + source, limit)
    ensures keys' == Keys(selected')
  {
    selected', keys' := selected, keys;
    assert seen + source[..0] == seen;
    var i := 0;
    while i < |source|
      invariant 0 <= i <= |source|
      invariant selected' == Dedup(seen + source[..i]) && |selected'| < limit
      invariant keys' == Keys(selected')
    {
      var c := source[i];
      TakeOne(seen, source, i);
      if c.key !in keys' {
        KeysSnoc(selected', c);
        keys' := keys' + {c.key};
        selected' := selected' + [c];
        if |selected'| >= limit {
          StopEarly(seen, source, i + 1, limit);
          return;
        }
      }
      i := i + 1;
    }
    StopEarly(seen, source, i, limit);
  }

  /** What the three phases amount to. */
  function Selection(favorites: seq<Contact>, others: seq<Contact>, capacity: nat, refill: nat): seq<Contact> {
    if |Dedup(favorites)| >= refill then UpTo(favorites, capacity) else UpTo(favorites + others, refill)
  }

  /**
   The selection is a prefix of the three lists, deduplicated by key in fill order: all the
   favorites that fit, and others only up to the refill target.
   */
  lemma SelectionIsPrefix(favorites: seq<Contact>, others: seq<Contact>, capacity: nat, refill: nat)
    requires refill <= capacity
    ensures
      var selected := Selection(favorites, others, capacity, refill);
      && selected <= Dedup(favorites + others)
      && DistinctKeys(selected)
      && |selected| <= capacity
      && (|Dedup(favorites)| <= capacity ==> Dedup(favorites) <= selected)
      && (|selected| > refill ==> selected <= Dedup(favorites))
      && (|selected| < refill ==> Keys(selected) == Keys(favorites + others))
  {
    DedupGrows(favorites, others);
    DedupIsSound(favorites + others);
  }

  lemma FilledAlready(seen: seq<Contact>, more: seq<Contact>, limit: nat)
    requires |UpTo(seen, limit)| == limit
    ensures UpTo(seen + more, limit) == UpTo(seen, limit)
  {
    DedupGrows(seen, more);
  }

  method SelectForRadio(
    configured: int, hardware: Option<int>,
    favorites: seq<Contact>, recentDms: seq<Contact>, recentAdverts: seq<Contact>)
    returns (selected: seq<Contact>)
    ensures
      var capacity := EffectiveCapacity(configured, hardware);
      selected == Selection(favorites, recentDms + recentAdverts, capacity, RefillTarget(capacity))
    ensures |selected| <= EffectiveCapacity(configured, hardware) && DistinctKeys(selected)
  {
    var capacity := EffectiveCapacity(configured, hardware);
    var refill := RefillTarget(capacity);
    assert 1 <= refill <= capacity by {
      CapacityBounds(configured, hardware);
      LimitsOrdered(capacity);
    }
    SelectionIsPrefix(favorites, recentDms + recentAdverts, capacity, refill);
    ghost var firstTwo := favorites + recentDms;
    assert firstTwo + recentAdverts == favorites + (recentDms + recentAdverts);
    var keys: set<string>;
    assert [] + favorites == favorites;
    selected, keys := Fill([], favorites, [], {}, capacity);
    if |selected| < refill {
      selected, keys := Fill(favorites, recentDms, selected, keys, refill);
      if |selected| < refill {
        selected, keys := Fill(firstTwo, recentAdverts, selected, keys, refill);
      } else {
        FilledAlready(firstTwo, recentAdverts, refill);
      }
    }
  }
}
