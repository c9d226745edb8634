/**
 The radio's own contact table under the background reconcile: what completion says about it,
 whatever answers were lost on the way.
 */
module RadioTable {
  import opened Options
  import opened ContactCommands
  import opened ContactReconcile

  /**
   What one command does to the radio's table.  "Not found" is only said of a contact that
   is not there; a command without an answer may have been carried out or not.
   */
  ghost predicate Does(c: Command, before: set<Key>, after: set<Key>) {
    var carriedOut := if c.Remove? then before - {c.target} else before + {c.key};
    match c.reply
    case Ok => after == carriedOut
    case Error(code) => after == before && (c.Remove? && code == 2 ==> c.target !in before)
    case NoAnswer => after == before || after == carriedOut
    case Raised => after == before || after == carriedOut
  }

  /** The tables before, between and after the commands of a lock hold. */
  ghost predicate DoesAll(commands: seq<Command>, tables: seq<set<Key>>) {
    && |tables| == |commands| + 1
    && forall i :: 0 <= i < |commands| ==> Does(commands[i], tables[i], tables[i + 1])
  }

  /** Every desired key that is tracked is on the radio, and all else on the radio is tracked. */
  ghost predicate Agrees(tracked: seq<Key>, desired: seq<Key>, radio: set<Key>) {
    && (forall k :: k in tracked && k in desired ==> k in radio)
    && (forall k :: k in radio && k !in desired ==> k in tracked)
  }

  /** The library's cache lists no desired contact that the radio does not hold. */
  ghost predicate CacheIsTrue(v: Visit, radio: set<Key>) {
    forall k :: k in v.library && k in v.desired ==> k in radio
  }

  // ----- Where tracked keys come from and go -----

  ghost predicate RemovedOk(commands: seq<Command>, k: Key) {
    exists i :: 0 <= i < |commands| && commands[i].Remove? && commands[i].key == k && commands[i].Succeeded()
  }

  ghost predicate AddedOk(commands: seq<Command>, k: Key) {
    exists i :: 0 <= i < |commands| && commands[i].Add? && commands[i].key == k && commands[i].Succeeded()
  }

  lemma {:induction false} LostByRemoval(todo: seq<Key>, v: Visit, p: Progress, k: Key)
    requires k in p.tracked && k !in RemovePhase(todo, v, p).tracked
    ensures RemovedOk(RemovePhase(todo, v, p).commands, k)
  {
    if todo != [] && |p.commands| < BATCH_SIZE {
      if todo[0] in v.desired {
        LostByRemoval(todo[1..], v, p, k);
      } else {
        var p' := TryRemove(p, v, todo[0]);
        if k in p'.tracked {
          LostByRemoval(todo[1..], v, p', k);
        } else {
          RemovePhaseExtends(todo[1..], v, p');
          var q := RemovePhase(todo, v, p);
          assert q.commands[|p.commands|] == p'.commands[|p.commands|];
        }
      }
    }
  }

  /** A key becomes tracked by a successful add, or because the cache has its prefix. */
  lemma {:induction false} GainedByAdd(todo: seq<Key>, v: Visit, p: Progress, k: Key)
    requires k !in p.tracked && k in AddPhase(todo, v, p).tracked
    ensures AddedOk(AddPhase(todo, v, p).commands, k) || Match(p.library, k).Some?
  {
    if todo != [] && |p.commands| < BATCH_SIZE && !p.full {
      if todo[0] in p.tracked {
        GainedByAdd(todo[1..], v, p, k);
      } else if Match(p.library, todo[0]).Some? {
        if todo[0] != k {
          GainedByAdd(todo[1..], v, p.(tracked := p.tracked + [todo[0]]), k);
        }
      } else {
        var next := TryAdd(p, v, todo[0]);
        if k in next.tracked {
          AddPhaseExtends(todo[1..], v, next);
          var q := AddPhase(todo, v, p);
          assert q.commands[|p.commands|] == next.commands[|p.commands|];
        } else {
          GainedByAdd(todo[1..], v, next, k);
        }
      }
    }
  }

  lemma Lost(tracked: seq<Key>, v: Visit, k: Key)
    requires Distinct(tracked) && k in tracked && k !in Hold(tracked, v).tracked
    ensures RemovedOk(Hold(tracked, v).commands, k)
  {
    var p, q := RemovePhase(tracked, v, Start(tracked, v)), Hold(tracked, v);
    HoldPhases(tracked, v);
    LostByRemoval(tracked, v, Start(tracked, v), k);
    var i :| 0 <= i < |p.commands| && p.commands[i].Remove? && p.commands[i].key == k && p.commands[i].Succeeded();
    assert q.commands[i] == p.commands[i];
  }

  lemma Gained(tracked: seq<Key>, v: Visit, k: Key)
    requires Distinct(tracked) && k !in tracked && k in Hold(tracked, v).tracked
    ensures AddedOk(Hold(tracked, v).commands, k) || exists l :: l in v.library && Prefix(k) <= l
  {
    var p := RemovePhase(tracked, v, Start(tracked, v));
    RemovePhaseKeeps(tracked, v, Start(tracked, v));
    RemovePhaseNames(tracked, v, Start(tracked, v));
    GainedByAdd(v.desired, v, p, k);
    MatchFinds(p.library, k);
  }

  // ----- One lock hold -----

  /** What removals and adds are about, when no two keys share a prefix. */
  ghost predicate OnPurpose(commands: seq<Command>, desired: seq<Key>) {
    forall i :: 0 <= i < |commands| ==>
      if commands[i].Remove? then commands[i].target == commands[i].key && commands[i].key !in desired
      else commands[i].key in desired
  }

  /** Desired keys that are on the radio stay there; and nothing undesired appears. */
  lemma {:induction false} TablesKeep(commands: seq<Command>, desired: seq<Key>, tables: seq<set<Key>>, i: nat, j: nat)
    requires OnPurpose(commands, desired) && DoesAll(commands, tables) && i <= j < |tables|
    ensures forall k :: k in desired && k in tables[i] ==> k in tables[j]
    ensures forall k :: k !in desired && k in tables[j] ==> k in tables[i]
    decreases j
  {
    if i < j {
      TablesKeep(commands, desired, tables, i, j - 1);
      assert Does(commands[j - 1], tables[j - 1], tables[j - 1 + 1]);
    }
  }

  lemma AddedStays(commands: seq<Command>, desired: seq<Key>, tables: seq<set<Key>>, k: Key)
    requires OnPurpose(commands, desired) && DoesAll(commands, tables) && AddedOk(commands, k)
    ensures k in tables[|commands|]
  {
    var i :| 0 <= i < |commands| && commands[i].Add? && commands[i].key == k && commands[i].Succeeded();
    assert Does(commands[i], tables[i], tables[i + 1]);
    TablesKeep(commands, desired, tables, i + 1, |commands|);
  }

  lemma RemovedStaysAway(commands: seq<Command>, desired: seq<Key>, tables: seq<set<Key>>, k: Key)
    requires OnPurpose(commands, desired) && DoesAll(commands, tables) && RemovedOk(commands, k)
    ensures k !in tables[|commands|]
  {
    var i :| 0 <= i < |commands| && commands[i].Remove? && commands[i].key == k && commands[i].Succeeded();
    assert Does(commands[i], tables[i], tables[i + 1]);
    TablesKeep(commands, desired, tables, i + 1, |commands|);
  }

  ghost function AllKeys(tracked: seq<Key>, v: Visit): set<Key> {
    Elems(tracked) + Elems(v.library) + Elems(v.desired)
  }

  lemma HoldOnPurpose(tracked: seq<Key>, v: Visit)
    requires Distinct(tracked) && PrefixesDiffer(AllKeys(tracked, v))
    ensures OnPurpose(Hold(tracked, v).commands, v.desired)
  {
    HoldSafe(tracked, v);
    RemovalsNameTheirKey(tracked, v);
  }

  /** A lock hold keeps the agreement, whatever the radio answers or leaves unanswered. */
  lemma HoldAgrees(tracked: seq<Key>, v: Visit, tables: seq<set<Key>>)
    requires Distinct(tracked) && PrefixesDiffer(AllKeys(tracked, v))
    requires DoesAll(Hold(tracked, v).commands, tables) && CacheIsTrue(v, tables[0])
    requires Agrees(tracked, v.desired, tables[0])
    ensures Agrees(Hold(tracked, v).tracked, v.desired, tables[|tables| - 1])
  {
    var q := Hold(tracked, v);
    var n := |q.commands|;
    HoldOnPurpose(tracked, v);
    TablesKeep(q.commands, v.desired, tables, 0, n);
    forall k | k in q.tracked && k in v.desired
      ensures k in tables[n]
    {
      if k !in tracked {
        NewlyTracked(tracked, v, tables, k);
      }
    }
    forall k | k in tables[n] && k !in v.desired
      ensures k in q.tracked
    {
      assert k in tables[0] && k in tracked;
      if k !in q.tracked {
        Lost(tracked, v, k);
        RemovedStaysAway(q.commands, v.desired, tables, k);
        assert false;
      }
    }
  }

  lemma NewlyTracked(tracked: seq<Key>, v: Visit, tables: seq<set<Key>>, k: Key)
    requires Distinct(tracked) && PrefixesDiffer(AllKeys(tracked, v))
    requires DoesAll(Hold(tracked, v).commands, tables) && CacheIsTrue(v, tables[0])
    requires k in v.desired && k !in tracked && k in Hold(tracked, v).tracked
    ensures k in tables[|tables| - 1]
  {
    var commands := Hold(tracked, v).commands;
    HoldOnPurpose(tracked, v);
    Gained(tracked, v, k);
    if AddedOk(commands, k) {
      AddedStays(commands, v.desired, tables, k);
    } else {
      var l :| l in v.library && Prefix(k) <= l;
      assert k in AllKeys(tracked, v) && l in AllKeys(tracked, v);
      TablesKeep(commands, v.desired, tables, 0, |commands|);
    }
  }

  // ----- Whole runs -----

  /**
   The radio through a run: before each turn its table is `radio`, a lock hold changes it as
   its commands do, and nothing else does; the cache is true and no two keys share a prefix.
   The list holds, turn by turn, the tables of that turn's lock hold.
   */
  ghost predicate Follows(turns: seq<Turn>, tracked: seq<Key>, radio: set<Key>, story: seq<seq<set<Key>>>)
    decreases |turns|
  {
    |story| == |turns| &&
    (turns == [] ||
     (var r := OneTurn(turns[0], tracked);
      && story[0] != [] && story[0][0] == radio
      && (if r.holds == [] then |story[0]| == 1
          else
            && turns[0].lock.Held?
            && DoesAll(r.holds[0].commands, story[0])
            && CacheIsTrue(turns[0].lock.visit, radio)
            && PrefixesDiffer(AllKeys(tracked, turns[0].lock.visit)))
      && Follows(turns[1..], r.tracked, story[0][|story[0]| - 1], story[1..])))
  }

  /** The table when the run ends. */
  ghost function TableAt(story: seq<seq<set<Key>>>, radio: set<Key>, at: nat): set<Key> {
    if at < |story| && story[at] != [] then story[at][0] else radio
  }

  /**
   With a fixed desired set, whatever was refused and whatever answers were lost: when the
   loop reports completion the radio holds exactly the desired contacts.
   */
  lemma {:induction false} CompleteMeansLoaded(
    turns: seq<Turn>, tracked: seq<Key>, desired: seq<Key>, radio: set<Key>, story: seq<seq<set<Key>>>)
    requires Distinct(tracked) && Steady(turns, desired) && Follows(turns, tracked, radio, story)
    requires Agrees(tracked, desired, radio) && Loop(turns, tracked).status == Complete
    ensures TableAt(story, radio, Loop(turns, tracked).at) == Elems(desired)
    decreases |turns|
  {
    var r := OneTurn(turns[0], tracked);
    if Settled(tracked, desired) {
      SettledTable(tracked, desired, radio);
    } else {
      if turns[0].lock.Held? {
        HoldSafe(tracked, turns[0].lock.visit);
        HoldAgrees(tracked, turns[0].lock.visit, story[0]);
      }
      CompleteMeansLoaded(turns[1..], r.tracked, desired, story[0][|story[0]| - 1], story[1..]);
      var at := Loop(turns[1..], r.tracked).at;
      CompleteMeansSettled(turns[1..], r.tracked);
      assert story[1..][at] == story[at + 1];
      FollowsShape(turns[1..], r.tracked, story[0][|story[0]| - 1], story[1..], at);
    }
  }

  lemma SettledTable(tracked: seq<Key>, desired: seq<Key>, radio: set<Key>)
    requires Settled(tracked, desired) && Agrees(tracked, desired, radio)
    ensures radio == Elems(desired)
  {
  }

  lemma {:induction false} FollowsShape(
    turns: seq<Turn>, tracked: seq<Key>, radio: set<Key>, story: seq<seq<set<Key>>>, i: nat)
    requires Follows(turns, tracked, radio, story) && i < |turns|
    ensures story[i] != []
    decreases i
  {
    if i > 0 {
      var r := OneTurn(turns[0], tracked);
      FollowsShape(turns[1..], r.tracked, story[0][|story[0]| - 1], story[1..], i - 1);
    }
  }

  // ----- Why the desired set has to be fixed -----

  /**
   A removal that was carried out but never answered, and then the contact is desired again:
   the loop completes at once, and the radio does not hold it.
   */
  lemma LostRemovalForgotten(u: Key, d: Key)
    requires u != d
    ensures
      var turns := [Turn(true, [d], Held(Visit([d], [], NoAnswer, NoAnswer))), Turn(true, [u], Busy)];
      var tables := [{u}, {}, {}];
      && Loop(turns, [u]).status == Complete && Loop(turns, [u]).tracked == [u]
      && DoesAll(Hold([u], turns[0].lock.visit).commands, tables)
  {
    var v := Visit([d], [], NoAnswer, NoAnswer);
    var turns := [Turn(true, [d], Held(v)), Turn(true, [u], Busy)];
    UnansweredHold(u, d, v);
    assert u in [u] && u !in [d];
    assert turns[1..][0] == turns[1];
    assert Loop(turns[1..], [u]).status == Complete;
    assert OneTurn(turns[0], [u]).tracked == [u];
  }

  lemma UnansweredHold(u: Key, d: Key, v: Visit)
    requires u != d && v == Visit([d], [], NoAnswer, NoAnswer)
    ensures Hold([u], v) == Progress([u], [], [Remove(u, u, NoAnswer), Add(d, NoAnswer)], false)
  {
    var p1 := Progress([u], [], [Remove(u, u, NoAnswer)], false);
    assert [] + [Remove(u, u, NoAnswer)] == [Remove(u, u, NoAnswer)];
    assert TryRemove(Start([u], v), v, u) == p1;
    assert [u][1..] == [] && [d][1..] == [];
    assert RemovePhase([u], v, Start([u], v)) == RemovePhase([u][1..], v, p1) == p1;
    var p2 := Progress([u], [], [Remove(u, u, NoAnswer)] + [Add(d, NoAnswer)], false);
    assert TryAdd(p1, v, d) == p2;
    assert AddPhase([d], v, p1) == AddPhase([d][1..], v, p2) == p2;
  }
}
