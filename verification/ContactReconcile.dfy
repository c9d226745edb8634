/**
 The background contact reconcile in snapshot mode: a loop that, two radio commands per
 lock hold, drives the table it tracks toward a desired set that may change meanwhile.
 */
module ContactReconcile {
  import opened Options
  import opened ContactCommands

  const PREFIX_SIZE: nat := 12

  /**
   A command sent to the radio, with its answer.  A removal is meant for the tracked `key`
   but names the contact `target` that the library's cache has for the key's prefix.
   */
  datatype Command = Remove(key: Key, target: Key, reply: Reply) | Add(key: Key, reply: Reply) {
    predicate Succeeded() {
      if Remove? then Gone(reply) else reply.Ok?
    }
  }

  predicate TriedToRemove(commands: seq<Command>, k: Key) {
    exists i :: 0 <= i < |commands| && commands[i].Remove? && commands[i].key == k
  }

  ghost predicate Distinct(s: seq<Key>) {
    forall i, j :: 0 <= i < j < |s| ==> s[i] != s[j]
  }

  ghost function Elems(s: seq<Key>): set<Key> {
    set k | k in s
  }

  /** `get_contact_by_key_prefix(key[:12])`: the first cached contact with the key's prefix. */
  function Prefix(k: Key): string {
    if |k| >= PREFIX_SIZE then k[..PREFIX_SIZE] else k
  }

  function Match(library: seq<Key>, k: Key): Option<Key> {
    if library == [] then None
    else if Prefix(k) <= library[0] then Some(library[0])
    else Match(library[1..], k)
  }

  function TargetOf(library: seq<Key>, k: Key): Key {
    if Match(library, k).Some? then Match(library, k).value else k
  }

  /**
   One lock hold: the desired keys read under the lock (the keys of a dictionary), the
   contacts in the library's own cache, and the answers to its two commands.
   */
  datatype Visit = Visit(desired: seq<Key>, library: seq<Key>, first: Reply, second: Reply) {
    function ReplyTo(n: nat): Reply {
      if n == 0 then first else second
    }
  }

  /** The part of the loop's state one lock hold works on. */
  datatype Progress = Progress(tracked: seq<Key>, library: seq<Key>, commands: seq<Command>, full: bool)

  function Without(s: seq<Key>, k: Key): (r: seq<Key>)
    ensures forall x :: x in r <==> x in s && x != k
  {
    if s == [] then []
    else
      assert s == [s[0]] + s[1..];
      if s[0] == k then Without(s[1..], k) else [s[0]] + Without(s[1..], k)
  }

  lemma {:induction false} WithoutDistinct(s: seq<Key>, k: Key)
    requires Distinct(s)
    ensures Distinct(Without(s, k))
  {
    if s != [] {
      WithoutDistinct(s[1..], k);
      assert s[0] !in s[1..];
    }
  }

  /** One removal; on success the key leaves the table and the library's cache. */
  function TryRemove(p: Progress, v: Visit, k: Key): Progress {
    var sent := Remove(k, TargetOf(p.library, k), v.ReplyTo(|p.commands|));
    if sent.Succeeded()
    then Progress(Without(p.tracked, k), Without(p.library, k), p.commands + [sent], p.full)
    else p.(commands := p.commands + [sent])
  }

  /** One add; code 3 says that the radio's table is full. */
  function TryAdd(p: Progress, v: Visit, k: Key): Progress {
    var sent := Add(k, v.ReplyTo(|p.commands|));
    Progress(if sent.Succeeded() then p.tracked + [k] else p.tracked,
             p.library, p.commands + [sent], TableFull(sent.reply))
  }

  /** The removal phase over the keys still to look at. */
  function RemovePhase(todo: seq<Key>, v: Visit, p: Progress): Progress {
    if todo == [] || |p.commands| >= BATCH_SIZE then p
    else if todo[0] in v.desired then RemovePhase(todo[1..], v, p)
    else RemovePhase(todo[1..], v, TryRemove(p, v, todo[0]))
  }

  /** The fill phase over the desired keys still to look at; a full table ends it. */
  function AddPhase(todo: seq<Key>, v: Visit, p: Progress): Progress {
    if todo == [] || |p.commands| >= BATCH_SIZE || p.full then p
    else if todo[0] in p.tracked then AddPhase(todo[1..], v, p)
    else if Match(p.library, todo[0]).Some? then
      AddPhase(todo[1..], v, p.(tracked := p.tracked + [todo[0]]))
    else AddPhase(todo[1..], v, TryAdd(p, v, todo[0]))
  }

  function Start(tracked: seq<Key>, v: Visit): Progress {
    Progress(tracked, v.library, [], false)
  }

  function Hold(tracked: seq<Key>, v: Visit): Progress {
    AddPhase(v.desired, v, RemovePhase(tracked, v, Start(tracked, v)))
  }

  // ----- What one lock hold keeps -----

  ghost function Undesired(tracked: seq<Key>, desired: seq<Key>): set<Key> {
    Elems(tracked) - Elems(desired)
  }

  ghost function Missing(tracked: seq<Key>, desired: seq<Key>): set<Key> {
    Elems(desired) - Elems(tracked)
  }

  /** The size of the symmetric difference: what separates the table from the desired set. */
  ghost function Gap(tracked: seq<Key>, desired: seq<Key>): nat {
    |Undesired(tracked, desired)| + |Missing(tracked, desired)|
  }

  ghost predicate NoFailedRemoval(commands: seq<Command>) {
    forall i :: 0 <= i < |commands| && commands[i].Remove? ==> commands[i].Succeeded()
  }

  ghost predicate AllSucceeded(commands: seq<Command>) {
    forall i :: 0 <= i < |commands| ==> commands[i].Succeeded()
  }

  lemma {:induction false} RemovePhaseKeeps(todo: seq<Key>, v: Visit, p: Progress)
    requires |p.commands| <= BATCH_SIZE && !p.full && Distinct(p.tracked)
    ensures
      var q := RemovePhase(todo, v, p);
      && p.commands <= q.commands && |q.commands| <= BATCH_SIZE && !q.full
      && Distinct(q.tracked)
      && (forall i :: |p.commands| <= i < |q.commands| ==>
            q.commands[i].Remove? && q.commands[i].key in todo && q.commands[i].key !in v.desired)
      && (forall k :: k in q.tracked ==> k in p.tracked)
      && (forall k :: k in p.tracked && k in v.desired ==> k in q.tracked)
      && (|q.commands| < BATCH_SIZE ==>
            forall k :: k in todo && k !in v.desired ==> TriedToRemove(q.commands, k))
      && (forall i :: |p.commands| <= i < |q.commands| && q.commands[i].Succeeded() ==>
            q.commands[i].key !in q.tracked)
  {
    if todo == [] || |p.commands| >= BATCH_SIZE {
    } else if todo[0] in v.desired {
      RemovePhaseKeeps(todo[1..], v, p);
    } else {
      var p' := TryRemove(p, v, todo[0]);
      var sent := p'.commands[|p.commands|];
      WithoutDistinct(p.tracked, todo[0]);
      RemovePhaseKeeps(todo[1..], v, p');
      var q := RemovePhase(todo[1..], v, p');
      assert q.commands[|p.commands|] == sent;
      assert TriedToRemove(q.commands, todo[0]);
    }
  }

  // ----- Counting, with a radio that may refuse some removals -----

  /** Removals fail exactly for the refused keys, and adds succeed. */
  ghost predicate Obeys(commands: seq<Command>, refused: set<Key>) {
    forall i :: 0 <= i < |commands| ==>
      (commands[i].Succeeded() <==> commands[i].Add? || commands[i].key !in refused)
  }

  /** Undesired keys the radio will not let go. */
  ghost function Stuck(tracked: seq<Key>, desired: seq<Key>, refused: set<Key>): set<Key> {
    Undesired(tracked, desired) * refused
  }

  ghost function Movable(tracked: seq<Key>, desired: seq<Key>, refused: set<Key>): set<Key> {
    Undesired(tracked, desired) - refused
  }

  /** What can still be done: the undesired keys that can go and the missing ones. */
  ghost function Work(tracked: seq<Key>, desired: seq<Key>, refused: set<Key>): nat {
    |Movable(tracked, desired, refused)| + |Missing(tracked, desired)|
  }

  lemma OneLess(tracked: seq<Key>, desired: seq<Key>, refused: set<Key>, k: Key)
    requires k in tracked && k !in desired && k !in refused
    ensures
      var after := Without(tracked, k);
      && Movable(after, desired, refused) == Movable(tracked, desired, refused) - {k}
      && |Movable(after, desired, refused)| == |Movable(tracked, desired, refused)| - 1
      && Stuck(after, desired, refused) == Stuck(tracked, desired, refused)
      && Missing(after, desired) == Missing(tracked, desired)
  {
    var after := Without(tracked, k);
    assert Undesired(after, desired) == Undesired(tracked, desired) - {k};
    assert k in Movable(tracked, desired, refused);
    assert Movable(after, desired, refused) == Movable(tracked, desired, refused) - {k};
  }

  lemma TryRemoveCounts(p: Progress, v: Visit, k: Key, refused: set<Key>)
    requires k in p.tracked && k !in v.desired
    requires var p' := TryRemove(p, v, k); p'.commands[|p.commands|].Succeeded() <==> k !in refused
    ensures
      var t, t' := p.tracked, TryRemove(p, v, k).tracked;
      && |Movable(t', v.desired, refused)| + 1
           == |Movable(t, v.desired, refused)| + (if k in refused then 1 else 0)
      && Stuck(t', v.desired, refused) == Stuck(t, v.desired, refused)
      && Missing(t', v.desired) == Missing(t, v.desired)
  {
    if k !in refused {
      OneLess(p.tracked, v.desired, refused, k);
    }
  }

  lemma StuckTail(todo: seq<Key>, desired: seq<Key>, refused: set<Key>)
    requires todo != [] && Distinct(todo)
    ensures
      var here := if todo[0] !in desired && todo[0] in refused then 1 else 0;
      |Stuck(todo, desired, refused)| == |Stuck(todo[1..], desired, refused)| + here
  {
    var all, rest := Stuck(todo, desired, refused), Stuck(todo[1..], desired, refused);
    assert todo == [todo[0]] + todo[1..];
    assert todo[0] !in todo[1..];
    if todo[0] !in desired && todo[0] in refused {
      assert all == rest + {todo[0]};
    } else {
      assert all == rest;
    }
  }

  lemma {:induction false} RemovePhaseExtends(todo: seq<Key>, v: Visit, p: Progress)
    ensures p.commands <= RemovePhase(todo, v, p).commands
  {
    if todo != [] && |p.commands| < BATCH_SIZE {
      RemovePhaseExtends(todo[1..], v, if todo[0] in v.desired then p else TryRemove(p, v, todo[0]));
    }
  }

  /** The first removal of a phase is its next command, and its key is not looked at again. */
  lemma FirstRemoval(todo: seq<Key>, v: Visit, p: Progress)
    requires todo != [] && todo[0] !in v.desired && |p.commands| < BATCH_SIZE
    requires Distinct(todo) && forall k :: k in todo ==> k in p.tracked
    ensures
      var p' := TryRemove(p, v, todo[0]);
      && |p'.commands| == |p.commands| + 1 && p'.commands[|p.commands|].key == todo[0]
      && |RemovePhase(todo, v, p).commands| > |p.commands|
      && p'.commands[|p.commands|] == RemovePhase(todo, v, p).commands[|p.commands|]
      && p'.commands[|p.commands|].Remove?
      && Distinct(todo[1..]) && forall k :: k in todo[1..] ==> k in p'.tracked
  {
    RemovePhaseExtends(todo[1..], v, TryRemove(p, v, todo[0]));
    assert todo[0] !in todo[1..];
  }

  /**
   Each removal takes one undesired key away, or is spent on a key the radio refuses; no key
   is tried twice in one hold.
   */
  lemma {:induction false} RemovePhaseCounts(todo: seq<Key>, v: Visit, p: Progress, refused: set<Key>)
    requires Obeys(RemovePhase(todo, v, p).commands, refused)
    requires Distinct(todo) && forall k :: k in todo ==> k in p.tracked
    ensures
      var q := RemovePhase(todo, v, p);
      && |Movable(p.tracked, v.desired, refused)| + |p.commands|
           <= |Movable(q.tracked, v.desired, refused)| + |q.commands|
           <= |Movable(p.tracked, v.desired, refused)| + |p.commands| + |Stuck(todo, v.desired, refused)|
      && Stuck(q.tracked, v.desired, refused) == Stuck(p.tracked, v.desired, refused)
      && Missing(q.tracked, v.desired) == Missing(p.tracked, v.desired)
  {
    if todo != [] && |p.commands| < BATCH_SIZE {
      StuckTail(todo, v.desired, refused);
      if todo[0] in v.desired {
        RemovePhaseCounts(todo[1..], v, p, refused);
      } else {
        FirstRemoval(todo, v, p);
        TryRemoveCounts(p, v, todo[0], refused);
        RemovePhaseCounts(todo[1..], v, TryRemove(p, v, todo[0]), refused);
      }
    }
  }

  lemma {:induction false} AddPhaseKeeps(todo: seq<Key>, v: Visit, p: Progress)
    requires |p.commands| <= BATCH_SIZE && Distinct(p.tracked)
    ensures
      var q := AddPhase(todo, v, p);
      && p.commands <= q.commands && |q.commands| <= BATCH_SIZE
      && Distinct(q.tracked)
      && p.tracked <= q.tracked
      && (forall k :: k in q.tracked ==> k in p.tracked || k in todo)
      && (forall i :: |p.commands| <= i < |q.commands| ==>
            q.commands[i].Add? && q.commands[i].key in todo && q.commands[i].key !in p.tracked)
      && (|p.commands| == BATCH_SIZE ==> q == p)
      && (q.full ==> p.full || exists i :: |p.commands| <= i < |q.commands| && !q.commands[i].Succeeded())
  {
    if todo == [] || |p.commands| >= BATCH_SIZE || p.full {
    } else if todo[0] in p.tracked {
      AddPhaseKeeps(todo[1..], v, p);
    } else if Match(p.library, todo[0]).Some? {
      AddPhaseKeeps(todo[1..], v, p.(tracked := p.tracked + [todo[0]]));
    } else {
      var next := TryAdd(p, v, todo[0]);
      AddPhaseKeeps(todo[1..], v, next);
      assert AddPhase(todo[1..], v, next).commands[|p.commands|] == next.commands[|p.commands|];
    }
  }

  lemma OneMore(tracked: seq<Key>, desired: seq<Key>, k: Key)
    requires k !in tracked && k in desired
    ensures |Missing(tracked + [k], desired)| == |Missing(tracked, desired)| - 1
    ensures Undesired(tracked + [k], desired) == Undesired(tracked, desired)
  {
    assert Elems(tracked + [k]) == Elems(tracked) + {k};
    assert Missing(tracked + [k], desired) == Missing(tracked, desired) - {k};
    assert k in Missing(tracked, desired);
  }

  ghost predicate AddsSucceeded(commands: seq<Command>) {
    forall i :: 0 <= i < |commands| && commands[i].Add? ==> commands[i].Succeeded()
  }

  lemma {:induction false} AddPhaseExtends(todo: seq<Key>, v: Visit, p: Progress)
    ensures p.commands <= AddPhase(todo, v, p).commands
  {
    if todo != [] && |p.commands| < BATCH_SIZE && !p.full {
      AddPhaseExtends(todo[1..], v,
                      if todo[0] in p.tracked then p
                      else if Match(p.library, todo[0]).Some? then p.(tracked := p.tracked + [todo[0]])
                      else TryAdd(p, v, todo[0]));
    }
  }

  /** While adds succeed, the first of them tracks its key. */
  lemma FirstAdd(todo: seq<Key>, v: Visit, p: Progress)
    requires todo != [] && |p.commands| < BATCH_SIZE && !p.full && Distinct(p.tracked)
    requires todo[0] !in p.tracked && Match(p.library, todo[0]).None?
    requires AddsSucceeded(AddPhase(todo, v, p).commands)
    ensures
      var next := TryAdd(p, v, todo[0]);
      && |next.commands| == |p.commands| + 1 && !next.full
      && next.tracked == p.tracked + [todo[0]] && Distinct(next.tracked)
  {
    AddPhaseExtends(todo[1..], v, TryAdd(p, v, todo[0]));
    assert AddPhase(todo, v, p).commands[|p.commands|] == Add(todo[0], v.ReplyTo(|p.commands|));
  }

  /** While adds succeed, each command closes at least one missing key. */
  lemma {:induction false} AddPhaseCounts(todo: seq<Key>, v: Visit, p: Progress)
    requires |p.commands| <= BATCH_SIZE && !p.full && Distinct(p.tracked)
    requires AddsSucceeded(AddPhase(todo, v, p).commands)
    requires forall k :: k in todo ==> k in v.desired
    requires forall k :: k in v.desired ==> k in p.tracked || k in todo
    ensures
      var q := AddPhase(todo, v, p);
      && Undesired(q.tracked, v.desired) == Undesired(p.tracked, v.desired)
      && |Missing(q.tracked, v.desired)| + |q.commands| <= |Missing(p.tracked, v.desired)| + |p.commands|
      && (|q.commands| < BATCH_SIZE ==> Missing(q.tracked, v.desired) == {})
  {
    if todo == [] || |p.commands| >= BATCH_SIZE {
      assert todo == [] ==> Missing(p.tracked, v.desired) == {};
    } else if todo[0] in p.tracked {
      AddPhaseCounts(todo[1..], v, p);
    } else {
      OneMore(p.tracked, v.desired, todo[0]);
      if Match(p.library, todo[0]).Some? {
        AddPhaseCounts(todo[1..], v, p.(tracked := p.tracked + [todo[0]]));
      } else {
        FirstAdd(todo, v, p);
        AddPhaseCounts(todo[1..], v, TryAdd(p, v, todo[0]));
      }
    }
  }

  // ----- One lock hold -----

  /** The two phases of a hold, taken apart. */
  lemma HoldPhases(tracked: seq<Key>, v: Visit)
    requires Distinct(tracked)
    ensures
      var p, q := RemovePhase(tracked, v, Start(tracked, v)), Hold(tracked, v);
      && p.commands <= q.commands && |q.commands| <= BATCH_SIZE
      && p.tracked <= q.tracked && Distinct(q.tracked)
      && (|p.commands| == BATCH_SIZE ==> q == p)
      && (forall i :: 0 <= i < |p.commands| ==> q.commands[i] == p.commands[i] && p.commands[i].Remove?)
      && (forall i :: |p.commands| <= i < |q.commands| ==> q.commands[i].Add?)
  {
    RemovePhaseKeeps(tracked, v, Start(tracked, v));
    AddPhaseKeeps(v.desired, v, RemovePhase(tracked, v, Start(tracked, v)));
  }

  /**
   One lock hold: at most two commands; removals are meant for undesired tracked keys, only
   desired untracked ones are added; and an add (or a key taken from the library's cache)
   means that every undesired key was tried first.
   */
  lemma HoldSafe(tracked: seq<Key>, v: Visit)
    requires Distinct(tracked)
    ensures
      var q := Hold(tracked, v);
      && |q.commands| <= BATCH_SIZE
      && Distinct(q.tracked)
      && (forall i :: 0 <= i < |q.commands| ==>
            if q.commands[i].Remove? then q.commands[i].key in tracked && q.commands[i].key !in v.desired
            else q.commands[i].key in v.desired)
      && (forall k :: k in tracked && k in v.desired ==> k in q.tracked)
      && (forall k :: k in q.tracked && k !in tracked ==> k in v.desired)
      && ((exists i :: 0 <= i < |q.commands| && q.commands[i].Add?) || (exists k :: k in q.tracked && k !in tracked) ==>
            forall u :: u in tracked && u !in v.desired ==> TriedToRemove(q.commands, u))
  {
    var p := RemovePhase(tracked, v, Start(tracked, v));
    RemovePhaseKeeps(tracked, v, Start(tracked, v));
    AddPhaseKeeps(v.desired, v, p);
    HoldPhases(tracked, v);
    var q := Hold(tracked, v);
    assert forall u :: TriedToRemove(p.commands, u) ==> TriedToRemove(q.commands, u);
  }

  // ----- Which contact a removal names -----

  lemma {:induction false} MatchFinds(library: seq<Key>, k: Key)
    ensures
      match Match(library, k)
      case Some(l) => l in library && Prefix(k) <= l
      case None => forall l :: l in library ==> !(Prefix(k) <= l)
  {
    if library != [] {
      MatchFinds(library[1..], k);
      assert library == [library[0]] + library[1..];
    }
  }

  /** A removal names the key itself or a cached contact with its prefix. */
  ghost predicate Named(commands: seq<Command>, library: seq<Key>) {
    forall i :: 0 <= i < |commands| && commands[i].Remove? ==>
      commands[i].target == commands[i].key
      || (commands[i].target in library && Prefix(commands[i].key) <= commands[i].target)
  }

  lemma {:induction false} RemovePhaseNames(todo: seq<Key>, v: Visit, p: Progress)
    requires Named(p.commands, v.library) && forall l :: l in p.library ==> l in v.library
    ensures
      var q := RemovePhase(todo, v, p);
      Named(q.commands, v.library) && forall l :: l in q.library ==> l in v.library
  {
    if todo == [] || |p.commands| >= BATCH_SIZE {
    } else if todo[0] in v.desired {
      RemovePhaseNames(todo[1..], v, p);
    } else {
      MatchFinds(p.library, todo[0]);
      RemovePhaseNames(todo[1..], v, TryRemove(p, v, todo[0]));
    }
  }

  lemma HoldNames(tracked: seq<Key>, v: Visit)
    requires Distinct(tracked)
    ensures Named(Hold(tracked, v).commands, v.library)
  {
    RemovePhaseNames(tracked, v, Start(tracked, v));
    HoldPhases(tracked, v);
  }

  /** No two of the keys share their first 12 characters. */
  ghost predicate PrefixesDiffer(keys: set<Key>) {
    forall a, b :: a in keys && b in keys && Prefix(a) <= b ==> a == b
  }

  /** Then every removal names the contact it is meant for. */
  lemma RemovalsNameTheirKey(tracked: seq<Key>, v: Visit)
    requires Distinct(tracked)
    requires PrefixesDiffer(Elems(tracked) + Elems(v.library))
    ensures forall i :: 0 <= i < |Hold(tracked, v).commands| && Hold(tracked, v).commands[i].Remove? ==>
      Hold(tracked, v).commands[i].target == Hold(tracked, v).commands[i].key
  {
    var cs := Hold(tracked, v).commands;
    HoldNames(tracked, v);
    HoldSafe(tracked, v);
    forall i | 0 <= i < |cs| && cs[i].Remove?
      ensures cs[i].target == cs[i].key
    {
      assert cs[i].key in Elems(tracked);
      assert cs[i].target in v.library ==> cs[i].target in Elems(v.library);
    }
  }

  ghost predicate SparesDesired(commands: seq<Command>, desired: seq<Key>) {
    forall i :: 0 <= i < |commands| && commands[i].Remove? ==> commands[i].target !in desired
  }

  /** No hold over these tracked and cached keys, in any order, asks to remove a desired contact. */
  ghost predicate AlwaysSpares(tracked: set<Key>, library: set<Key>, desired: seq<Key>) {
    forall table: seq<Key>, v: Visit ::
      Distinct(table) && Elems(table) <= tracked && Elems(v.library) <= library && v.desired == desired ==>
        SparesDesired(Hold(table, v).commands, desired)
  }

  ghost predicate Collides(u: Key, d: Key) {
    Prefix(u) <= d
  }

  /**
   A desired contact is never the one removed, exactly when no undesired tracked key shares
   its prefix with a desired contact in the library's cache.
   */
  lemma AlwaysSparesIff(tracked: set<Key>, library: set<Key>, desired: seq<Key>)
    ensures AlwaysSpares(tracked, library, desired) <==>
      forall u, d :: u in tracked && u !in desired && d in library && d in desired ==> !Collides(u, d)
  {
    if u, d :| u in tracked && u !in desired && d in library && d in desired && Collides(u, d) {
      var v := Visit(desired, [d], Ok, Ok);
      CollidingHold(u, d, v);
      assert Distinct([u]) && Elems([u]) <= tracked && Elems(v.library) <= library;
    } else {
      forall table: seq<Key>, v: Visit | Distinct(table) && Elems(table) <= tracked
          && Elems(v.library) <= library && v.desired == desired
        ensures SparesDesired(Hold(table, v).commands, desired)
      {
        var cs := Hold(table, v).commands;
        HoldSafe(table, v);
        HoldNames(table, v);
        forall i | 0 <= i < |cs| && cs[i].Remove?
          ensures cs[i].target !in desired
        {
          assert cs[i].key in Elems(table);
          assert cs[i].target in v.library ==> cs[i].target in Elems(v.library);
          assert Collides(cs[i].key, cs[i].target) || cs[i].target == cs[i].key;
        }
      }
    }
  }

  lemma CollidingHold(u: Key, d: Key, v: Visit)
    requires u !in v.desired && v.library == [d] && Collides(u, d)
    ensures Hold([u], v).commands != [] && Hold([u], v).commands[0] == Remove(u, d, v.first)
  {
    var p := TryRemove(Start([u], v), v, u);
    assert Match([d], u) == Some(d);
    assert RemovePhase([u], v, Start([u], v)) == RemovePhase([u][1..], v, p) == p;
    HoldPhases([u], v);
  }

  /**
   The failing pair: the radio loses the desired contact, the table says it is there, and
   the next turn reports completion.
   */
  lemma CollisionLosesDesired(u: Key, d: Key)
    requires u != d && Collides(u, d)
    ensures
      var q := Hold([u], Visit([d], [d], Ok, Ok));
      q.commands == [Remove(u, d, Ok)] && q.tracked == [d]
  {
    var v := Visit([d], [d], Ok, Ok);
    var p := TryRemove(Start([u], v), v, u);
    assert RemovePhase([u], v, Start([u], v)) == RemovePhase([u][1..], v, p) == p;
    assert [u][1..] == [] && [d][1..] == [] && Match([d], u) == Some(d);
    assert Without([u], u) == [] && Without([d], u) == [d] + [];
    assert p == Progress([], [d], [Remove(u, d, Ok)], false);
    assert Prefix(d) <= d;
    assert AddPhase([d], v, p) == AddPhase([d][1..], v, p.(tracked := [] + [d]));
  }

  // ----- Bounds and progress of a hold -----

  /** With no failed removal, the table outgrows its previous size only up to the desired size. */
  lemma HoldBounded(tracked: seq<Key>, v: Visit)
    requires Distinct(tracked) && Distinct(v.desired)
    requires NoFailedRemoval(Hold(tracked, v).commands)
    ensures var n := |Hold(tracked, v).tracked|; n <= |tracked| || n <= |v.desired|
  {
    var p := RemovePhase(tracked, v, Start(tracked, v));
    RemovePhaseKeeps(tracked, v, Start(tracked, v));
    AddPhaseKeeps(v.desired, v, p);
    HoldPhases(tracked, v);
    var q := Hold(tracked, v);
    if |p.commands| == BATCH_SIZE {
      AtMost(p.tracked, tracked);
    } else {
      forall k | k in tracked && k !in v.desired
        ensures k !in p.tracked
      {
        var i :| 0 <= i < |p.commands| && p.commands[i].Remove? && p.commands[i].key == k;
        assert q.commands[i] == p.commands[i];
      }
      AtMost(q.tracked, v.desired);
    }
  }

  lemma AtMost(a: seq<Key>, b: seq<Key>)
    requires Distinct(a) && Distinct(b) && forall k :: k in a ==> k in b
    ensures |a| <= |b|
  {
    SizeOf(a);
    SizeOf(b);
    assert Elems(b) == Elems(a) + (Elems(b) - Elems(a));
  }

  lemma {:induction false} SizeOf(s: seq<Key>)
    requires Distinct(s)
    ensures |Elems(s)| == |s|
  {
    if s != [] {
      SizeOf(s[1..]);
      assert s == [s[0]] + s[1..];
      assert Elems(s) == {s[0]} + Elems(s[1..]);
    }
  }

  /** Two keys that were tried take two commands. */
  lemma TwoTried(commands: seq<Command>, a: Key, b: Key)
    requires a != b && TriedToRemove(commands, a) && TriedToRemove(commands, b)
    ensures |commands| >= 2
  {
  }

  lemma TwoStuck(tracked: seq<Key>, v: Visit, refused: set<Key>)
    requires Distinct(tracked) && |Stuck(tracked, v.desired, refused)| >= 2
    ensures |RemovePhase(tracked, v, Start(tracked, v)).commands| == BATCH_SIZE
  {
    var stuck := Stuck(tracked, v.desired, refused);
    var a :| a in stuck;
    assert |stuck - {a}| >= 1;
    var b :| b in stuck - {a};
    RemovePhaseKeeps(tracked, v, Start(tracked, v));
    var p := RemovePhase(tracked, v, Start(tracked, v));
    if |p.commands| < BATCH_SIZE {
      TwoTried(p.commands, a, b);
    }
  }

  /**
   The measure, with a radio that refuses some removals: stuck keys stay; two of them take
   the whole budget, so nothing is added; with at most one, each hold does some of the work
   that is left, or there is none.
   */
  lemma HoldCounts(tracked: seq<Key>, v: Visit, refused: set<Key>)
    requires Distinct(tracked) && Obeys(Hold(tracked, v).commands, refused)
    ensures
      var q, stuck := Hold(tracked, v), Stuck(tracked, v.desired, refused);
      && !q.full
      && Stuck(q.tracked, v.desired, refused) == stuck
      && (|stuck| >= 2 ==> Missing(q.tracked, v.desired) == Missing(tracked, v.desired))
      && (|stuck| <= 1 ==>
            && Work(q.tracked, v.desired, refused) + |q.commands| <= Work(tracked, v.desired, refused) + |stuck|
            && (|q.commands| < BATCH_SIZE ==> Work(q.tracked, v.desired, refused) == 0))
  {
    var p, q := RemovePhase(tracked, v, Start(tracked, v)), Hold(tracked, v);
    HoldPhases(tracked, v);
    RemovePhaseKeeps(tracked, v, Start(tracked, v));
    assert Obeys(p.commands, refused);
    RemovePhaseCounts(tracked, v, Start(tracked, v), refused);
    AddPhaseKeeps(v.desired, v, p);
    AddPhaseCounts(v.desired, v, p);
    if |Stuck(tracked, v.desired, refused)| >= 2 {
      TwoStuck(tracked, v, refused);
    }
    if |p.commands| < BATCH_SIZE {
      MovedAll(tracked, v, refused);
    }
  }

  /** With budget left, every undesired key that can go is gone. */
  lemma MovedAll(tracked: seq<Key>, v: Visit, refused: set<Key>)
    requires Distinct(tracked) && Obeys(RemovePhase(tracked, v, Start(tracked, v)).commands, refused)
    requires |RemovePhase(tracked, v, Start(tracked, v)).commands| < BATCH_SIZE
    ensures Movable(RemovePhase(tracked, v, Start(tracked, v)).tracked, v.desired, refused) == {}
  {
    RemovePhaseKeeps(tracked, v, Start(tracked, v));
    var p := RemovePhase(tracked, v, Start(tracked, v));
    forall k | k in tracked && k !in v.desired && k !in refused
      ensures k !in p.tracked
    {
      var i :| 0 <= i < |p.commands| && p.commands[i].Remove? && p.commands[i].key == k;
      assert p.commands[i].Succeeded();
    }
  }

  /** With every command successful, a lock hold closes two of the gap, or all of it. */
  lemma HoldProgress(tracked: seq<Key>, v: Visit)
    requires Distinct(tracked) && AllSucceeded(Hold(tracked, v).commands)
    ensures
      var q := Hold(tracked, v);
      && !q.full
      && Gap(q.tracked, v.desired) + |q.commands| <= Gap(tracked, v.desired)
      && (|q.commands| < BATCH_SIZE ==> Gap(q.tracked, v.desired) == 0)
  {
    HoldCounts(tracked, v, {});
    GapIsWork(tracked, v.desired);
    GapIsWork(Hold(tracked, v).tracked, v.desired);
  }

  lemma GapIsWork(tracked: seq<Key>, desired: seq<Key>)
    ensures Gap(tracked, desired) == Work(tracked, desired, {}) && Stuck(tracked, desired, {}) == {}
  {
    assert Movable(tracked, desired, {}) == Undesired(tracked, desired);
  }

  // ----- The whole loop -----

  datatype LockResult = Busy | OtherRadio | Held(visit: Visit)

  /** One pass of the loop: the transport check, the desired keys read before the lock, the lock. */
  datatype Turn = Turn(connected: bool, before: seq<Key>, lock: LockResult)

  datatype Status = Running | Complete | Full | TransportChanged

  /** How the loop ended: at which turn, with which table, after which lock holds. */
  datatype Result = Result(status: Status, tracked: seq<Key>, holds: seq<Progress>, at: nat)

  /** Nothing to remove and nothing to add. */
  predicate Settled(tracked: seq<Key>, desired: seq<Key>) {
    (forall k :: k in tracked ==> k in desired) && (forall k :: k in desired ==> k in tracked)
  }

  /** One pass of the loop; a result still `Running` goes on with the next turn. */
  function OneTurn(t: Turn, tracked: seq<Key>): Result {
    if !t.connected then Result(TransportChanged, tracked, [], 0)
    else if Settled(tracked, t.before) then Result(Complete, tracked, [], 0)
    else
      match t.lock
      case Busy => Result(Running, tracked, [], 0)
      case OtherRadio => Result(TransportChanged, tracked, [], 0)
      case Held(v) =>
        var q := Hold(tracked, v);
        Result(if q.full then Full else Running, q.tracked, [q], 0)
  }

  function Loop(turns: seq<Turn>, tracked: seq<Key>): Result {
    if turns == [] then Result(Running, tracked, [], 0)
    else
      var r := OneTurn(turns[0], tracked);
      if !r.status.Running? then r
      else
        var rest := Loop(turns[1..], r.tracked);
        Result(rest.status, rest.tracked, r.holds + rest.holds, rest.at + 1)
  }

  /** Desired keys come from a dictionary: no run reads a duplicate. */
  ghost predicate WellFormed(turns: seq<Turn>) {
    forall i :: 0 <= i < |turns| && turns[i].lock.Held? ==> Distinct(turns[i].lock.visit.desired)
  }

  /** The desired set never changes and the radio stays. */
  ghost predicate Steady(turns: seq<Turn>, desired: seq<Key>) {
    forall i :: 0 <= i < |turns| ==>
      && turns[i].connected && turns[i].before == desired
      && !turns[i].lock.OtherRadio?
      && (turns[i].lock.Held? ==> turns[i].lock.visit.desired == desired)
  }

  function HeldTurns(turns: seq<Turn>): nat {
    if turns == [] then 0
    else (if turns[0].lock.Held? then 1 else 0) + HeldTurns(turns[1..])
  }

  lemma HoldOfTurn(turns: seq<Turn>, tracked: seq<Key>)
    requires turns != [] && turns[0].connected && !Settled(tracked, turns[0].before) && turns[0].lock.Held?
    ensures Hold(tracked, turns[0].lock.visit) in Loop(turns, tracked).holds
    ensures !Hold(tracked, turns[0].lock.visit).full ==>
      forall h :: h in Loop(turns[1..], Hold(tracked, turns[0].lock.visit).tracked).holds ==>
        h in Loop(turns, tracked).holds
  {
    assert OneTurn(turns[0], tracked).holds == [Hold(tracked, turns[0].lock.visit)];
  }

  /** A bound on the table over the whole run, whatever the desired set becomes. */
  lemma {:induction false} LoopBounded(turns: seq<Turn>, tracked: seq<Key>, bound: nat)
    requires WellFormed(turns) && Distinct(tracked)
    requires forall h :: h in Loop(turns, tracked).holds ==> NoFailedRemoval(h.commands)
    requires |tracked| <= bound
    requires forall i :: 0 <= i < |turns| && turns[i].lock.Held? ==> |turns[i].lock.visit.desired| <= bound
    ensures
      var r := Loop(turns, tracked);
      && |r.tracked| <= bound
      && forall i :: 0 <= i < |r.holds| ==> |r.holds[i].tracked| <= bound && |r.holds[i].commands| <= BATCH_SIZE
  {
    if turns != [] && turns[0].connected && !Settled(tracked, turns[0].before) {
      if turns[0].lock.Held? {
        var v := turns[0].lock.visit;
        HoldOfTurn(turns, tracked);
        HoldSafe(tracked, v);
        HoldBounded(tracked, v);
        if !Hold(tracked, v).full {
          LoopBounded(turns[1..], Hold(tracked, v).tracked, bound);
        }
      } else if turns[0].lock.Busy? {
        LoopBounded(turns[1..], tracked, bound);
      }
    }
  }

  lemma GapZero(tracked: seq<Key>, desired: seq<Key>)
    ensures Gap(tracked, desired) == 0 <==> Settled(tracked, desired)
    ensures Settled(tracked, desired) <==> Elems(tracked) == Elems(desired)
  {
    var u, m := Undesired(tracked, desired), Missing(tracked, desired);
    assert forall k :: k in tracked <==> k in Elems(tracked);
    assert forall k :: k in desired <==> k in Elems(desired);
    if Gap(tracked, desired) == 0 {
      assert u == {} && m == {};
    }
    if Settled(tracked, desired) {
      assert u == {} && m == {};
    }
  }

  /** Lock holds before the last turn. */
  function HeldBeforeLast(turns: seq<Turn>): nat
    requires turns != []
  {
    HeldTurns(turns[..|turns| - 1])
  }

  lemma HeldBeforeLastTail(turns: seq<Turn>)
    requires |turns| >= 2
    ensures HeldBeforeLast(turns) == (if turns[0].lock.Held? then 1 else 0) + HeldBeforeLast(turns[1..])
    ensures HeldBeforeLast(turns) <= HeldTurns(turns)
  {
    assert turns[..|turns| - 1][1..] == turns[1..][..|turns| - 2];
    HeldMonotone(turns);
  }

  lemma {:induction false} HeldMonotone(turns: seq<Turn>)
    requires turns != []
    ensures HeldBeforeLast(turns) <= HeldTurns(turns)
  {
    if |turns| >= 2 {
      assert turns[..|turns| - 1][1..] == turns[1..][..|turns| - 2];
      HeldMonotone(turns[1..]);
    }
  }

  /**
   Convergence.  With a fixed desired set and successful commands, ceil(gap / 2) lock holds
   are enough for the tracked keys to be the desired keys, and any turn after them, busy or
   not, reports completion; busy turns cost nothing.
   */
  lemma {:induction false} LoopConverges(turns: seq<Turn>, tracked: seq<Key>, desired: seq<Key>)
    requires Distinct(tracked) && Steady(turns, desired)
    requires forall h :: h in Loop(turns, tracked).holds ==> AllSucceeded(h.commands)
    requires 2 * HeldTurns(turns) >= Gap(tracked, desired)
    ensures
      var r := Loop(turns, tracked);
      && Elems(r.tracked) == Elems(desired)
      && (r.status == Running || r.status == Complete)
      && (turns != [] && 2 * HeldBeforeLast(turns) >= Gap(tracked, desired) ==> r.status == Complete)
  {
    GapZero(tracked, desired);
    if turns != [] && !Settled(tracked, desired) {
      var rest := turns[1..];
      if |turns| >= 2 {
        HeldBeforeLastTail(turns);
      }
      if turns[0].lock.Held? {
        var v := turns[0].lock.visit;
        HoldOfTurn(turns, tracked);
        HoldSafe(tracked, v);
        HoldProgress(tracked, v);
        LoopConverges(rest, Hold(tracked, v).tracked, desired);
      } else {
        LoopConverges(rest, tracked, desired);
      }
    }
  }

  /** Completion is reported at a turn whose desired keys are the tracked keys. */
  lemma {:induction false} CompleteMeansSettled(turns: seq<Turn>, tracked: seq<Key>)
    requires Loop(turns, tracked).status == Complete
    ensures
      var r := Loop(turns, tracked);
      r.at < |turns| && turns[r.at].connected && Elems(r.tracked) == Elems(turns[r.at].before)
  {
    GapZero(tracked, turns[0].before);
    var r := OneTurn(turns[0], tracked);
    if r.status.Running? {
      CompleteMeansSettled(turns[1..], r.tracked);
    }
  }

  // ----- A radio that refuses some removals -----

  /** The desired set is fixed, the radio stays, and it refuses to remove exactly these keys. */
  ghost predicate Refusing(turns: seq<Turn>, tracked: seq<Key>, desired: seq<Key>, refused: set<Key>) {
    && Distinct(tracked) && Steady(turns, desired)
    && forall h :: h in Loop(turns, tracked).holds ==> Obeys(h.commands, refused)
  }

  /** One turn of such a run, and the run that follows it. */
  lemma RefusingTurn(turns: seq<Turn>, tracked: seq<Key>, desired: seq<Key>, refused: set<Key>)
    requires turns != [] && Refusing(turns, tracked, desired, refused) && !Settled(tracked, desired)
    ensures
      var r, stuck := OneTurn(turns[0], tracked), Stuck(tracked, desired, refused);
      && r.status.Running? && Refusing(turns[1..], r.tracked, desired, refused)
      && Stuck(r.tracked, desired, refused) == stuck
      && (|stuck| >= 2 ==> Missing(r.tracked, desired) == Missing(tracked, desired))
      && (|stuck| <= 1 ==>
            var work, after := Work(tracked, desired, refused), Work(r.tracked, desired, refused);
            if turns[0].lock.Held? then after < work || after == 0 else after == work)
  {
    if turns[0].lock.Held? {
      var v := turns[0].lock.visit;
      HoldOfTurn(turns, tracked);
      HoldSafe(tracked, v);
      HoldCounts(tracked, v, refused);
    }
  }

  /** Stuck keys stay and keep the loop running; two of them also keep everything else out. */
  lemma {:induction false} RefusedRemovalsStarve(
    turns: seq<Turn>, tracked: seq<Key>, desired: seq<Key>, refused: set<Key>)
    requires Refusing(turns, tracked, desired, refused)
    ensures
      var r, stuck := Loop(turns, tracked), Stuck(tracked, desired, refused);
      && Stuck(r.tracked, desired, refused) == stuck
      && (stuck != {} ==> r.status == Running)
      && (|stuck| >= 2 ==> Missing(r.tracked, desired) == Missing(tracked, desired))
  {
    if turns != [] && !Settled(tracked, desired) {
      RefusingTurn(turns, tracked, desired, refused);
      RefusedRemovalsStarve(turns[1..], OneTurn(turns[0], tracked).tracked, desired, refused);
    }
  }

  lemma NoWork(tracked: seq<Key>, desired: seq<Key>, refused: set<Key>)
    ensures Settled(tracked, desired) <==>
      Work(tracked, desired, refused) == 0 && Stuck(tracked, desired, refused) == {}
    ensures Work(tracked, desired, refused) == 0 ==> Missing(tracked, desired) == {}
  {
    GapZero(tracked, desired);
    assert Undesired(tracked, desired) == Movable(tracked, desired, refused) + Stuck(tracked, desired, refused);
  }

  /** At most one stuck key: every hold that is needed does some of the work. */
  lemma {:induction false} WorkGetsDone(turns: seq<Turn>, tracked: seq<Key>, desired: seq<Key>, refused: set<Key>)
    requires Refusing(turns, tracked, desired, refused) && |Stuck(tracked, desired, refused)| <= 1
    requires HeldTurns(turns) >= Work(tracked, desired, refused)
    ensures
      var r := Loop(turns, tracked);
      && Work(r.tracked, desired, refused) == 0
      && (turns != [] && HeldBeforeLast(turns) >= Work(tracked, desired, refused) ==>
            (Stuck(tracked, desired, refused) == {} ==> r.status == Complete))
  {
    NoWork(tracked, desired, refused);
    if turns != [] && !Settled(tracked, desired) {
      RefusingTurn(turns, tracked, desired, refused);
      var next := OneTurn(turns[0], tracked).tracked;
      if |turns| >= 2 {
        HeldBeforeLastTail(turns);
      }
      WorkGetsDone(turns[1..], next, desired, refused);
    }
  }

  /**
   Exactly when the loop converges against a radio that refuses to remove a fixed set of
   keys.  In every run with as many lock holds as there is work: all desired keys end up
   tracked iff at most one tracked undesired key is refused (or none was missing), and the
   loop completes, at the next turn at the latest, iff none is.
   */
  lemma ConvergesIff(turns: seq<Turn>, tracked: seq<Key>, desired: seq<Key>, refused: set<Key>)
    requires Refusing(turns, tracked, desired, refused)
    requires turns != [] && HeldBeforeLast(turns) >= Work(tracked, desired, refused)
    ensures
      var r, stuck := Loop(turns, tracked), Stuck(tracked, desired, refused);
      && (Missing(r.tracked, desired) == {} <==> |stuck| <= 1 || Missing(tracked, desired) == {})
      && (r.status == Complete <==> stuck == {})
      && (|stuck| <= 1 ==> Elems(r.tracked) == Elems(desired) + stuck)
  {
    HeldMonotone(turns);
    RefusedRemovalsStarve(turns, tracked, desired, refused);
    if |Stuck(tracked, desired, refused)| <= 1 {
      WorkGetsDone(turns, tracked, desired, refused);
      WorkDone(Loop(turns, tracked).tracked, desired, refused);
    }
  }

  lemma WorkDone(tracked: seq<Key>, desired: seq<Key>, refused: set<Key>)
    requires Work(tracked, desired, refused) == 0
    ensures Missing(tracked, desired) == {}
    ensures Elems(tracked) == Elems(desired) + Stuck(tracked, desired, refused)
  {
    assert Missing(tracked, desired) == {} && Movable(tracked, desired, refused) == {};
    assert Undesired(tracked, desired) == Stuck(tracked, desired, refused);
  }

  /** A lock hold in which the radio refuses whatever it is asked. */
  function RefusedTurn(desired: seq<Key>): Turn {
    Turn(true, desired, Held(Visit(desired, [], Error(1), Error(1))))
  }

  function RefusedTurns(desired: seq<Key>, n: nat): seq<Turn> {
    seq(n, i => RefusedTurn(desired))
  }

  lemma RefusedHold(a: Key, b: Key, c: Key)
    requires a != b && a != c && b != c
    ensures Hold([a, b], RefusedTurn([c]).lock.visit)
      == Progress([a, b], [], [Remove(a, a, Error(1)), Remove(b, b, Error(1))], false)
  {
    var v, keys := RefusedTurn([c]).lock.visit, [a, b];
    var p0 := Start(keys, v);
    var p1 := Progress(keys, [], [Remove(a, a, Error(1))], false);
    assert TryRemove(p0, v, a) == p1.(commands := [] + [Remove(a, a, Error(1))]);
    var p2 := p1.(commands := p1.commands + [Remove(b, b, Error(1))]);
    assert [] + [Remove(a, a, Error(1))] == [Remove(a, a, Error(1))];
    assert keys[1..] == [b] && keys[1..][1..] == [];
    assert TryRemove(p1, v, b) == p2;
    assert RemovePhase(keys, v, p0) == RemovePhase(keys[1..], v, p1);
    assert RemovePhase(keys[1..], v, p1) == RemovePhase(keys[1..][1..], v, p2) == p2;
  }

  /** A run that starves: two undesired contacts the radio refuses, and `c` is never loaded. */
  lemma {:induction false} StarvingRun(a: Key, b: Key, c: Key, n: nat)
    requires a != b && a != c && b != c
    ensures Refusing(RefusedTurns([c], n), [a, b], [c], {a, b})
    ensures
      var r := Loop(RefusedTurns([c], n), [a, b]);
      r.tracked == [a, b] && r.status == Running && |r.holds| == n
  {
    var turns := RefusedTurns([c], n);
    if n > 0 {
      StarvingRun(a, b, c, n - 1);
      assert turns[1..] == RefusedTurns([c], n - 1);
      RefusedHold(a, b, c);
      assert a in [a, b] && a !in [c];
      assert OneTurn(turns[0], [a, b]) == Result(Running, [a, b], [Hold([a, b], turns[0].lock.visit)], 0);
    }
  }

  // ----- The loop as the program runs it -----

  lemma RemoveFrom(keys: seq<Key>, i: nat, v: Visit, p: Progress)
    requires i < |keys| && |p.commands| < BATCH_SIZE
    ensures RemovePhase(keys[i..], v, p)
      == RemovePhase(keys[i + 1..], v, if keys[i] in v.desired then p else TryRemove(p, v, keys[i]))
  {
    assert keys[i..][1..] == keys[i + 1..];
  }

  lemma AddFrom(keys: seq<Key>, i: nat, v: Visit, p: Progress)
    requires i < |keys| && |p.commands| < BATCH_SIZE && !p.full
    ensures AddPhase(keys[i..], v, p)
      == AddPhase(keys[i + 1..], v,
                  if keys[i] in p.tracked then p
                  else if Match(p.library, keys[i]).Some? then p.(tracked := p.tracked + [keys[i]])
                  else TryAdd(p, v, keys[i]))
  {
    assert keys[i..][1..] == keys[i + 1..];
  }

  class Reconciler {
    var tracked: seq<Key>
    ghost var holds: seq<Progress>

    constructor (initial: seq<Key>)
      ensures tracked == initial && holds == []
    {
      tracked := initial;
      holds := [];
    }

    /** `remove_radio_contact` on the tracked table and the library's cache. */
    method RemoveContact(key: Key, library: seq<Key>, reply: Reply)
      returns (gone: bool, library': seq<Key>, sent: Command)
      modifies this`tracked
      ensures sent == Remove(key, TargetOf(library, key), reply) && gone == sent.Succeeded()
      ensures tracked == if gone then Without(old(tracked), key) else old(tracked)
      ensures library' == if gone then Without(library, key) else library
    {
      var cached := Match(library, key);
      sent := Remove(key, if cached.Some? then cached.value else key, reply);
      gone, library' := Gone(reply), library;
      if gone {
        tracked := Without(tracked, key);
        library' := Without(library, key);
      }
    }

    method RemoveUndesired(v: Visit) returns (library: seq<Key>, ghost commands: seq<Command>, budget: nat)
      modifies this`tracked
      ensures Progress(tracked, library, commands, false) == RemovePhase(old(tracked), v, Start(old(tracked), v))
      ensures budget + |commands| == BATCH_SIZE
    {
      var keys := tracked;
      library, commands, budget := v.library, [], BATCH_SIZE;
      var i := 0;
      assert keys[0..] == keys;
      while i < |keys| && budget > 0
        invariant 0 <= i <= |keys| && budget + |commands| == BATCH_SIZE
        invariant RemovePhase(keys, v, Start(keys, v))
          == RemovePhase(keys[i..], v, Progress(tracked, library, commands, false))
      {
        RemoveFrom(keys, i, v, Progress(tracked, library, commands, false));
        if keys[i] !in v.desired {
          var gone, library', sent := RemoveContact(keys[i], library, v.ReplyTo(BATCH_SIZE - budget));
          library, commands, budget := library', commands + [sent], budget - 1;
        }
        i := i + 1;
      }
    }

    method AddMissing(v: Visit, library: seq<Key>, ghost sent: seq<Command>, budget: nat)
      returns (full: bool, ghost commands: seq<Command>)
      requires budget + |sent| == BATCH_SIZE
      modifies this`tracked
      ensures Progress(tracked, library, commands, full)
        == AddPhase(v.desired, v, Progress(old(tracked), library, sent, false))
    {
      ghost var p := Progress(tracked, library, sent, false);
      var left, j := budget, 0;
      full, commands := false, sent;
      assert v.desired[0..] == v.desired;
      while j < |v.desired| && left > 0 && !full
        invariant 0 <= j <= |v.desired| && left + |commands| == BATCH_SIZE
        invariant AddPhase(v.desired, v, p)
          == AddPhase(v.desired[j..], v, Progress(tracked, library, commands, full))
      {
        var key := v.desired[j];
        AddFrom(v.desired, j, v, Progress(tracked, library, commands, full));
        if key !in tracked {
          if Match(library, key).Some? {
            tracked := tracked + [key];
          } else {
            var reply := v.ReplyTo(BATCH_SIZE - left);
            left := left - 1;
            commands := commands + [Add(key, reply)];
            if reply.Ok? {
              tracked := tracked + [key];
            } else if TableFull(reply) {
              full := true;
            }
          }
        }
        j := j + 1;
      }
    }

    method HoldLock(v: Visit) returns (full: bool)
      modifies this
      ensures holds == old(holds) + [Hold(old(tracked), v)]
      ensures tracked == Hold(old(tracked), v).tracked
      ensures full == Hold(old(tracked), v).full
    {
      var library, commands, budget := RemoveUndesired(v);
      var isFull, all := AddMissing(v, library, commands, budget);
      full := isFull;
      holds := holds + [Progress(tracked, library, all, full)];
    }

    method TakeTurn(t: Turn) returns (status: Status)
      modifies this
      ensures
        var r := OneTurn(t, old(tracked));
        status == r.status && tracked == r.tracked && holds == old(holds) + r.holds
    {
      if !t.connected {
        return TransportChanged;
      }
      if Settled(tracked, t.before) {
        return Complete;
      }
      match t.lock {
        case Busy =>
          return Running;
        case OtherRadio =>
          return TransportChanged;
        case Held(v) =>
          var full := HoldLock(v);
          return if full then Full else Running;
      }
    }

    method Run(turns: seq<Turn>) returns (status: Status)
      modifies this
      ensures
        var r := Loop(turns, old(tracked));
        status == r.status && tracked == r.tracked && holds == old(holds) + r.holds
    {
      ghost var r, done := Loop(turns, tracked), [];
      assert turns[0..] == turns && [] + r.holds == r.holds;
      var i := 0;
      while i < |turns|
        invariant 0 <= i <= |turns| && holds == old(holds) + done
        invariant Remains(r, done, Loop(turns[i..], tracked))
      {
        ghost var turn := OneTurn(turns[i], tracked);
        AfterTurn(turns, i, tracked, r, done);
        status := TakeTurn(turns[i]);
        done := done + turn.holds;
        if !status.Running? {
          return;
        }
        i := i + 1;
      }
      return Running;
    }
  }

  /** A run has made the holds `done`, and what it has left to do is `rest`. */
  ghost predicate Remains(r: Result, done: seq<Progress>, rest: Result) {
    r.status == rest.status && r.tracked == rest.tracked && r.holds == done + rest.holds
  }

  lemma AfterTurn(turns: seq<Turn>, i: nat, tracked: seq<Key>, r: Result, done: seq<Progress>)
    requires i < |turns| && Remains(r, done, Loop(turns[i..], tracked))
    ensures
      var turn := OneTurn(turns[i], tracked);
      if turn.status.Running? then Remains(r, done + turn.holds, Loop(turns[i + 1..], turn.tracked))
      else r.status == turn.status && r.tracked == turn.tracked && r.holds == done + turn.holds
  {
    var turn := OneTurn(turns[i], tracked);
    assert turns[i..][1..] == turns[i + 1..];
    if turn.status.Running? {
      var later := Loop(turns[i + 1..], turn.tracked).holds;
      assert done + (turn.holds + later) == (done + turn.holds) + later;
    }
  }
}
