/**
 Migration 5: give every stored packet the hash of its payload and delete duplicates, so
 that a unique index on the hash can be built.
 */
module HashBackfill {
  import opened Options
  import opened Bytes
  import PacketFraming

  const FETCH_SIZE: nat := 1000
  const DELETE_SIZE: nat := 500

  datatype Row = Row(id: int, data: seq<Byte>, hash: Option<string>)

  datatype Update = Update(hash: string, id: int)

  /** What is hashed: the payload, or the whole data of a malformed packet. */
  function Hashed(data: seq<Byte>): seq<Byte> {
    match PacketFraming.Parse(data)
    case Some(e) => if e.payload != [] then e.payload else data
    case None => data
  }

  function Key(digest: seq<Byte> -> string, r: Row): string {
    digest(Hashed(r.data))
  }

  ghost predicate Increasing(rows: seq<Row>) {
    forall i, j :: 0 <= i < j < |rows| ==> rows[i].id < rows[j].id
  }

  function Keys(digest: seq<Byte> -> string, rows: seq<Row>): set<string> {
    set r | r in rows :: Key(digest, r)
  }

  /** The reference: keep the first row of every hash class, carrying its hash. */
  function Survivors(digest: seq<Byte> -> string, rows: seq<Row>): seq<Row> {
    if rows == [] then []
    else
      var init, last := rows[..|rows| - 1], rows[|rows| - 1];
      var k := Key(digest, last);
      Survivors(digest, init) + (if k in Keys(digest, init) then [] else [last.(hash := Some(k))])
  }

  // ----- What the three passes compute -----

  function UpdatesOf(digest: seq<Byte> -> string, rows: seq<Row>): seq<Update> {
    if rows == [] then []
    else
      var init, last := rows[..|rows| - 1], rows[|rows| - 1];
      var k := Key(digest, last);
      UpdatesOf(digest, init) + (if k in Keys(digest, init) then [] else [Update(k, last.id)])
  }

  function DeletesOf(digest: seq<Byte> -> string, rows: seq<Row>): seq<int> {
    if rows == [] then []
    else
      var init, last := rows[..|rows| - 1], rows[|rows| - 1];
      DeletesOf(digest, init) + (if Key(digest, last) in Keys(digest, init) then [last.id] else [])
  }

  /** `UPDATE ... SET payload_hash = hash WHERE id = id` */
  function SetHash(rows: seq<Row>, u: Update): seq<Row> {
    if rows == [] then []
    else
      var last := rows[|rows| - 1];
      SetHash(rows[..|rows| - 1], u) + [if last.id == u.id then last.(hash := Some(u.hash)) else last]
  }

  function SetHashes(rows: seq<Row>, updates: seq<Update>): seq<Row> {
    if updates == [] then rows
    else SetHash(SetHashes(rows, updates[..|updates| - 1]), updates[|updates| - 1])
  }

  /** `DELETE ... WHERE id IN (ids)` */
  function Delete(rows: seq<Row>, ids: seq<int>): seq<Row> {
    if rows == [] then []
    else
      var last := rows[|rows| - 1];
      Delete(rows[..|rows| - 1], ids) + (if last.id in ids then [] else [last])
  }

  lemma {:induction false} SetHashElsewhere(rows: seq<Row>, u: Update)
    requires Unused(rows, u.id)
    ensures SetHash(rows, u) == rows
  {
    if rows != [] {
      var init, last := rows[..|rows| - 1], rows[|rows| - 1];
      assert last in rows;
      assert forall r :: r in init ==> r in rows;
      SetHashElsewhere(init, u);
      assert rows == init + [last];
    }
  }

  lemma {:induction false} SetHashesLast(init: seq<Row>, last: Row, updates: seq<Update>)
    requires forall u :: u in updates ==> u.id != last.id
    ensures SetHashes(init + [last], updates) == SetHashes(init, updates) + [last]
  {
    if updates != [] {
      var us, u := updates[..|updates| - 1], updates[|updates| - 1];
      SetHashesLast(init, last, us);
      assert u in updates;
      var rows := SetHashes(init, us);
      assert (rows + [last])[..|rows|] == rows;
    }
  }

  lemma {:induction false} IdsKept(rows: seq<Row>, updates: seq<Update>)
    ensures forall r :: r in SetHashes(rows, updates) ==> exists q :: q in rows && q.id == r.id
  {
    if updates != [] {
      IdsKept(rows, updates[..|updates| - 1]);
      OneIdKept(SetHashes(rows, updates[..|updates| - 1]), updates[|updates| - 1]);
    }
  }

  lemma {:induction false} OneIdKept(rows: seq<Row>, u: Update)
    ensures forall r :: r in SetHash(rows, u) ==> exists q :: q in rows && q.id == r.id
  {
    if rows != [] {
      var n := |rows| - 1;
      OneIdKept(rows[..n], u);
      forall r | r in SetHash(rows, u)
        ensures exists q :: q in rows && q.id == r.id
      {
        if r in SetHash(rows[..n], u) {
          var q :| q in rows[..n] && q.id == r.id;
          assert q in rows;
        } else {
          assert rows[n] in rows && rows[n].id == r.id;
        }
      }
    }
  }

  lemma {:induction false} IdsOfRows(digest: seq<Byte> -> string, rows: seq<Row>)
    ensures forall u :: u in UpdatesOf(digest, rows) ==> exists r :: r in rows && r.id == u.id
    ensures forall d :: d in DeletesOf(digest, rows) ==> exists r :: r in rows && r.id == d
  {
    if rows != [] {
      var init, last := rows[..|rows| - 1], rows[|rows| - 1];
      IdsOfRows(digest, init);
      assert forall r :: r in init ==> r in rows;
      assert last in rows && last.id == last.id;
    }
  }

  lemma {:induction false} DeleteElsewhere(rows: seq<Row>, ids: seq<int>, id: int)
    requires forall r :: r in rows ==> r.id != id
    ensures Delete(rows, ids + [id]) == Delete(rows, ids)
  {
    if rows != [] {
      DeleteElsewhere(rows[..|rows| - 1], ids, id);
    }
  }

  lemma {:induction false} DeleteTwice(rows: seq<Row>, a: seq<int>, b: seq<int>)
    ensures Delete(Delete(rows, a), b) == Delete(rows, a + b)
  {
    if rows != [] {
      var init, last := rows[..|rows| - 1], rows[|rows| - 1];
      DeleteTwice(init, a, b);
      var d := Delete(init, a);
      if last.id in a {
        assert Delete(rows, a) == d;
      } else {
        assert Delete(rows, a)[..|d|] == d;
      }
    }
  }

  ghost predicate Unused(rows: seq<Row>, id: int) {
    forall r :: r in rows ==> r.id != id
  }

  lemma DropLast(mid: seq<Row>, last: Row, ids: seq<int>)
    requires Unused(mid, last.id)
    ensures Delete(mid + [last], ids + [last.id]) == Delete(mid, ids)
  {
    assert (mid + [last])[..|mid|] == mid;
    DeleteElsewhere(mid, ids, last.id);
  }

  lemma KeepLast(mid: seq<Row>, last: Row, ids: seq<int>)
    requires last.id !in ids
    ensures Delete(mid + [last], ids) == Delete(mid, ids) + [last]
  {
    assert (mid + [last])[..|mid|] == mid;
  }

  lemma SetLast(mid: seq<Row>, last: Row, u: Update)
    requires Unused(mid, last.id) && u.id == last.id
    ensures SetHash(mid + [last], u) == mid + [last.(hash := Some(u.hash))]
  {
    assert (mid + [last])[..|mid|] == mid;
    SetHashElsewhere(mid, u);
  }

  lemma SetHashesSnoc(rows: seq<Row>, us: seq<Update>, u: Update)
    ensures SetHashes(rows, us + [u]) == SetHash(SetHashes(rows, us), u)
  {
    assert (us + [u])[..|us|] == us;
  }

  lemma UpdateOne(rows: seq<Row>, us: seq<Update>, k: nat)
    requires k < |us|
    ensures SetHashes(rows, us[..k + 1]) == SetHash(SetHashes(rows, us[..k]), us[k])
  {
    assert us[..k + 1] == us[..k] + [us[k]];
    SetHashesSnoc(rows, us[..k], us[k]);
  }

  /** The first two passes on one more row. */
  lemma UpdatedRow(digest: seq<Byte> -> string, init: seq<Row>, last: Row)
    requires Unused(init, last.id)
    ensures
      var mid, k := SetHashes(init, UpdatesOf(digest, init)), Key(digest, last);
      && Unused(mid, last.id) && last.id !in DeletesOf(digest, init)
      && SetHashes(init + [last], UpdatesOf(digest, init + [last]))
           == mid + [if k in Keys(digest, init) then last else last.(hash := Some(k))]
  {
    var rows, us := init + [last], UpdatesOf(digest, init);
    var mid, k := SetHashes(init, us), Key(digest, last);
    assert rows[..|init|] == init && rows[|rows| - 1] == last;
    IdsOfRows(digest, init);
    IdsKept(init, us);
    SetHashesLast(init, last, us);
    if k in Keys(digest, init) {
      assert UpdatesOf(digest, rows) == us;
    } else {
      SetHashesSnoc(rows, us, Update(k, last.id));
      SetLast(mid, last, Update(k, last.id));
    }
  }

  lemma DeletesSnoc(digest: seq<Byte> -> string, init: seq<Row>, last: Row)
    ensures DeletesOf(digest, init + [last])
      == DeletesOf(digest, init) + (if Key(digest, last) in Keys(digest, init) then [last.id] else [])
  {
    assert (init + [last])[..|init|] == init;
  }

  lemma SurvivorsSnoc(digest: seq<Byte> -> string, init: seq<Row>, last: Row)
    ensures
      var k := Key(digest, last);
      Survivors(digest, init + [last])
        == Survivors(digest, init) + (if k in Keys(digest, init) then [] else [last.(hash := Some(k))])
  {
    assert (init + [last])[..|init|] == init;
  }

  function Passes(digest: seq<Byte> -> string, rows: seq<Row>): seq<Row> {
    Delete(SetHashes(rows, UpdatesOf(digest, rows)), DeletesOf(digest, rows))
  }

  lemma PassesSnoc(digest: seq<Byte> -> string, init: seq<Row>, last: Row)
    requires Unused(init, last.id)
    ensures
      var k := Key(digest, last);
      Passes(digest, init + [last])
        == Passes(digest, init) + (if k in Keys(digest, init) then [] else [last.(hash := Some(k))])
  {
    UpdatedRow(digest, init, last);
    DeletesSnoc(digest, init, last);
    var mid, ds := SetHashes(init, UpdatesOf(digest, init)), DeletesOf(digest, init);
    var k := Key(digest, last);
    if k in Keys(digest, init) {
      DropLast(mid, last, ds);
    } else {
      assert ds + [] == ds;
      KeepLast(mid, last.(hash := Some(k)), ds);
    }
  }

  /** The three passes together keep exactly the survivors. */
  lemma {:induction false} PassesKeepSurvivors(digest: seq<Byte> -> string, rows: seq<Row>)
    requires Increasing(rows)
    ensures Delete(SetHashes(rows, UpdatesOf(digest, rows)), DeletesOf(digest, rows)) == Survivors(digest, rows)
  {
    if rows != [] {
      var init, last := rows[..|rows| - 1], rows[|rows| - 1];
      assert rows == init + [last];
      PassesKeepSurvivors(digest, init);
      PassesSnoc(digest, init, last);
      SurvivorsSnoc(digest, init, last);
    }
  }

  // ----- What the survivors are -----

  /** Exactly the lowest id of each hash class, so the unique index can be built. */
  ghost predicate LowestOfEachClass(digest: seq<Byte> -> string, before: seq<Row>, after: seq<Row>) {
    && Increasing(after)
    && DistinctHashes(after)
    && (forall r :: r in after ==> r.hash == Some(Key(digest, r)) && Stored(before, r))
    && (forall r :: r in before ==> Represented(digest, r, after))
  }

  ghost predicate DistinctHashes(rows: seq<Row>) {
    forall i, j :: 0 <= i < j < |rows| ==> rows[i].hash != rows[j].hash
  }

  ghost predicate Stored(before: seq<Row>, r: Row) {
    exists q :: q in before && r == q.(hash := r.hash)
  }

  ghost predicate Represented(digest: seq<Byte> -> string, r: Row, after: seq<Row>) {
    exists s :: s in after && s.hash == Some(Key(digest, r)) && s.id <= r.id
  }

  lemma {:induction false} SurvivorsStored(digest: seq<Byte> -> string, rows: seq<Row>)
    ensures forall r :: r in Survivors(digest, rows) ==> r.hash == Some(Key(digest, r)) && Stored(rows, r)
  {
    if rows != [] {
      var init, last := rows[..|rows| - 1], rows[|rows| - 1];
      SurvivorsStored(digest, init);
      forall r | r in Survivors(digest, rows)
        ensures r.hash == Some(Key(digest, r)) && Stored(rows, r)
      {
        if r in Survivors(digest, init) {
          var q :| q in init && r == q.(hash := r.hash);
          assert q in rows;
        } else {
          assert r == last.(hash := r.hash) && last in rows;
        }
      }
    }
  }

  lemma {:induction false} SurvivorsRepresent(digest: seq<Byte> -> string, rows: seq<Row>)
    requires Increasing(rows)
    ensures forall r :: r in rows ==> Represented(digest, r, Survivors(digest, rows))
  {
    if rows != [] {
      var init, last := rows[..|rows| - 1], rows[|rows| - 1];
      assert rows == init + [last];
      SurvivorsRepresent(digest, init);
      forall r | r in rows
        ensures Represented(digest, r, Survivors(digest, rows))
      {
        LastRepresented(digest, init, last, r);
      }
    }
  }

  lemma SnocDistinct(rows: seq<Row>, r: Row)
    requires Increasing(rows) && DistinctHashes(rows)
    requires forall q :: q in rows ==> q.id < r.id && q.hash != r.hash
    ensures Increasing(rows + [r]) && DistinctHashes(rows + [r])
  {
  }

  lemma {:induction false} SurvivorsDistinct(digest: seq<Byte> -> string, rows: seq<Row>)
    requires Increasing(rows)
    ensures Increasing(Survivors(digest, rows))
    ensures DistinctHashes(Survivors(digest, rows))
  {
    if rows != [] {
      var init, last := rows[..|rows| - 1], rows[|rows| - 1];
      SurvivorsDistinct(digest, init);
      SurvivorsStored(digest, init);
      forall s | s in Survivors(digest, init)
        ensures s.id < last.id && s.hash.Some? && s.hash.value in Keys(digest, init)
      {
        var q :| q in init && s == q.(hash := s.hash);
        assert Key(digest, q) == Key(digest, s);
      }
      var k := Key(digest, last);
      if k !in Keys(digest, init) {
        SnocDistinct(Survivors(digest, init), last.(hash := Some(k)));
      }
    }
  }

  lemma SurvivorsAreLowest(digest: seq<Byte> -> string, rows: seq<Row>)
    requires Increasing(rows)
    ensures LowestOfEachClass(digest, rows, Survivors(digest, rows))
  {
    SurvivorsStored(digest, rows);
    SurvivorsRepresent(digest, rows);
    SurvivorsDistinct(digest, rows);
  }

  lemma LastRepresented(digest: seq<Byte> -> string, init: seq<Row>, last: Row, r: Row)
    requires forall q :: q in init ==> q.id < last.id && Represented(digest, q, Survivors(digest, init))
    requires r in init + [last]
    ensures Represented(digest, r, Survivors(digest, init + [last]))
  {
    assert (init + [last])[..|init|] == init;
    var k := Key(digest, last);
    if r in init || k in Keys(digest, init) {
      var q :| q in init && Key(digest, q) == Key(digest, r) && q.id <= r.id;
      var s :| s in Survivors(digest, init) && s.hash == Some(Key(digest, q)) && s.id <= q.id;
      assert s in Survivors(digest, init + [last]);
    } else {
      assert last.(hash := Some(k)) in Survivors(digest, init + [last]);
    }
  }

  /** What the first pass knows after `n` rows. */
  ghost predicate Scanned(
    digest: seq<Byte> -> string, rows: seq<Row>, n: nat, seen: set<string>, updates: seq<Update>, deletes: seq<int>)
    requires n <= |rows|
  {
    && seen == Keys(digest, rows[..n])
    && updates == UpdatesOf(digest, rows[..n]) && deletes == DeletesOf(digest, rows[..n])
  }

  lemma ScanOne(
    digest: seq<Byte> -> string, rows: seq<Row>, n: nat, seen: set<string>, updates: seq<Update>, deletes: seq<int>)
    requires n < |rows| && Scanned(digest, rows, n, seen, updates, deletes)
    ensures
      var k, id := Key(digest, rows[n]), rows[n].id;
      if k in seen then Scanned(digest, rows, n + 1, seen, updates, deletes + [id])
      else Scanned(digest, rows, n + 1, seen + {k}, updates + [Update(k, id)], deletes)
  {
    var init, next := rows[..n], rows[..n + 1];
    assert next == init + [rows[n]] && next[..n] == init;
    KeysSnoc(digest, init, rows[n]);
  }

  class RawPackets {
    var rows: seq<Row>

    method Migrate(digest: seq<Byte> -> string)
      requires Increasing(rows)
      modifies this
      ensures if exists r :: r in old(rows) && r.hash.None?
              then rows == Survivors(digest, old(rows)) && LowestOfEachClass(digest, old(rows), rows)
              else rows == old(rows)
    {
      if !exists r :: r in rows && r.hash.None? {
        return;
      }
      ghost var before := rows;
      var updates, deletes := FindDuplicates(digest);
      ApplyUpdates(updates);
      DeleteInBatches(deletes);
      PassesKeepSurvivors(digest, before);
      SurvivorsAreLowest(digest, before);
    }

    /** First pass: fetch in batches, remember each new hash, note every later row that has it. */
    method FindDuplicates(digest: seq<Byte> -> string) returns (updates: seq<Update>, deletes: seq<int>)
      ensures updates == UpdatesOf(digest, rows) && deletes == DeletesOf(digest, rows)
    {
      var seen: map<string, int> := map[];
      updates, deletes := [], [];
      var n := 0;
      while n < |rows|
        invariant 0 <= n <= |rows| && Scanned(digest, rows, n, seen.Keys, updates, deletes)
      {
        var end := if n + FETCH_SIZE <= |rows| then n + FETCH_SIZE else |rows|;
        seen, updates, deletes := ScanBatch(digest, n, end, seen, updates, deletes);
        n := end;
      }
      assert rows[..n] == rows;
    }

    method ScanBatch(
      digest: seq<Byte> -> string, start: nat, end: nat,
      seen0: map<string, int>, updates0: seq<Update>, deletes0: seq<int>)
      returns (seen: map<string, int>, updates: seq<Update>, deletes: seq<int>)
      requires start <= end <= |rows| && Scanned(digest, rows, start, seen0.Keys, updates0, deletes0)
      ensures Scanned(digest, rows, end, seen.Keys, updates, deletes)
    {
      seen, updates, deletes := seen0, updates0, deletes0;
      var n := start;
      while n < end
        invariant start <= n <= end && Scanned(digest, rows, n, seen.Keys, updates, deletes)
      {
        ScanOne(digest, rows, n, seen.Keys, updates, deletes);
        var hash := Key(digest, rows[n]);
        if hash in seen {
          deletes := deletes + [rows[n].id];
        } else {
          seen := seen[hash := rows[n].id];
          updates := updates + [Update(hash, rows[n].id)];
        }
        n := n + 1;
      }
    }

    /** Second pass: one update per kept packet. */
    method ApplyUpdates(updates: seq<Update>)
      modifies this
      ensures rows == SetHashes(old(rows), updates)
    {
      var k := 0;
      while k < |updates|
        invariant 0 <= k <= |updates|
        invariant rows == SetHashes(old(rows), updates[..k])
      {
        UpdateOne(old(rows), updates, k);
        rows := SetHash(rows, updates[k]);
        k := k + 1;
      }
      assert updates[..k] == updates;
    }

    /** Third pass: delete the duplicates, in batches. */
    method DeleteInBatches(deletes: seq<int>)
      modifies this
      ensures rows == Delete(old(rows), deletes)
    {
      var i := 0;
      DeleteNothing(rows);
      while i < |deletes|
        invariant 0 <= i <= |deletes|
        invariant rows == Delete(old(rows), deletes[..i])
      {
        var end := if i + DELETE_SIZE <= |deletes| then i + DELETE_SIZE else |deletes|;
        assert deletes[..end] == deletes[..i] + deletes[i..end];
        DeleteTwice(old(rows), deletes[..i], deletes[i..end]);
        rows := Delete(rows, deletes[i..end]);
        i := end;
      }
      assert deletes[..i] == deletes;
    }
  }

  lemma {:induction false} DeleteNothing(rows: seq<Row>)
    ensures Delete(rows, []) == rows
  {
    if rows != [] {
      DeleteNothing(rows[..|rows| - 1]);
    }
  }

  lemma KeysSnoc(digest: seq<Byte> -> string, rows: seq<Row>, r: Row)
    ensures Keys(digest, rows + [r]) == Keys(digest, rows) + {Key(digest, r)}
  {
    assert r in rows + [r];
    forall k | k in Keys(digest, rows)
      ensures k in Keys(digest, rows + [r])
    {
      var q :| q in rows && Key(digest, q) == k;
      assert q in rows + [r];
    }
  }
}
