/** The loops of a collection: marking from every root, then classifying rows and packs. */
module Marking {
  import opened Base
  import opened Types
  import opened Sums
  import opened StoreState
  import opened Compaction
  import opened Gc
  import opened ChunkStores

  method MarkManifest(m: Manifest) returns (reach: set<Hash>)
    ensures reach == ManifestHashes(m)
  {
    reach := {};
    for i := 0 to |m.chunks|
      invariant reach == set c | c in m.chunks[..i] :: c.hash
    {
      reach := reach + {m.chunks[i].hash};
    }
    assert m.chunks[..|m.chunks|] == m.chunks;
  }

  method MarkFiles(files: seq<FileEntry>) returns (reach: set<Hash>)
    ensures reach == FileHashes(files)
  {
    hide ManifestHashes;
    reach := {};
    for i := 0 to |files|
      invariant reach == FileHashes(files[..i])
    {
      var more := MarkManifest(files[i].manifest);
      FileHashesSnoc(files, i);
      reach := reach + more;
    }
    assert files[..|files|] == files;
  }

  lemma FileHashesSnoc(files: seq<FileEntry>, i: nat)
    requires i < |files|
    ensures FileHashes(files[..i + 1]) == FileHashes(files[..i]) + ManifestHashes(files[i].manifest)
  {
    assert files[..i + 1] == files[..i] + [files[i]];
  }

  ghost function MarkedBy(snaps: map<nat, Snapshot>, ids: set<nat>): set<Hash> {
    set id, h | id in ids && id in snaps && h in FileHashes(snaps[id].files) :: h
  }

  ghost function MarkedByKeys(manifests: map<string, Manifest>, keys: set<string>): set<Hash> {
    set key, h | key in keys && key in manifests && h in ManifestHashes(manifests[key]) :: h
  }

  lemma MarkMore(snaps: map<nat, Snapshot>, ids: set<nat>, id: nat)
    requires id in snaps
    ensures MarkedBy(snaps, ids + {id}) == MarkedBy(snaps, ids) + FileHashes(snaps[id].files)
  {
    hide FileHashes;
  }

  lemma MarkMoreKeys(manifests: map<string, Manifest>, keys: set<string>, key: string)
    requires key in manifests
    ensures MarkedByKeys(manifests, keys + {key}) == MarkedByKeys(manifests, keys) + ManifestHashes(manifests[key])
  {
    hide ManifestHashes;
  }

  lemma MarkAll(snaps: map<nat, Snapshot>, manifests: map<string, Manifest>)
    ensures Reachable(snaps, manifests) == MarkedBy(snaps, snaps.Keys) + MarkedByKeys(manifests, manifests.Keys)
  {
    hide FileHashes, ManifestHashes;
  }

  // ----- sweeping, one row and one pack at a time ---------------------------------------

  function PackSet(rows: seq<Row>): set<Uuid> {
    set r | r in rows :: r.1.packId
  }

  function LiveSet(rows: seq<Row>, reach: set<Hash>): set<Uuid> {
    set r | r in rows && r.0 in reach :: r.1.packId
  }

  function Unreached(rows: seq<Row>, reach: set<Hash>): seq<Hash> {
    if rows == [] then []
    else (if rows[0].0 in reach then [] else [rows[0].0]) + Unreached(rows[1..], reach)
  }

  lemma {:induction false} UnreachedSnoc(rows: seq<Row>, r: Row, reach: set<Hash>)
    ensures Unreached(rows + [r], reach) == Unreached(rows, reach) + (if r.0 in reach then [] else [r.0])
  {
    if rows == [] {
      assert rows + [r] == [r];
    } else {
      assert (rows + [r])[1..] == rows[1..] + [r];
      UnreachedSnoc(rows[1..], r, reach);
    }
  }

  lemma PackSetSnoc(rows: seq<Row>, r: Row, reach: set<Hash>)
    ensures PackSet(rows + [r]) == PackSet(rows) + {r.1.packId}
    ensures LiveSet(rows + [r], reach) == LiveSet(rows, reach) + (if r.0 in reach then {r.1.packId} else {})
  {
  }

  /** The orphaned digests, and the non-active packs whose rows are all orphans. */
  method Classify(rows: seq<Row>, reach: set<Hash>, active: Uuid, ghost index: map<Hash, Bytes>)
    returns (orphans: seq<Hash>, dead: set<Uuid>)
    ensures orphans == Unreached(rows, reach)
    ensures dead == PackSet(rows) - {active} - LiveSet(rows, reach)
  {
    orphans := [];
    var livePacks: set<Uuid> := {};
    var allPacks: set<Uuid> := {};
    for i := 0 to |rows|
      invariant orphans == Unreached(rows[..i], reach)
      invariant allPacks == PackSet(rows[..i]) && livePacks == LiveSet(rows[..i], reach)
    {
      assert rows[..i + 1] == rows[..i] + [rows[i]];
      UnreachedSnoc(rows[..i], rows[i], reach);
      PackSetSnoc(rows[..i], rows[i], reach);
      allPacks := allPacks + {rows[i].1.packId};
      if rows[i].0 in reach {
        livePacks := livePacks + {rows[i].1.packId};
      } else {
        orphans := orphans + [rows[i].0];
      }
    }
    assert rows[..|rows|] == rows;
    dead := allPacks - {active} - livePacks;
  }

  method DeletePacks(store: ChunkStore, dead: set<Uuid>) returns (removed: nat, reclaimed: nat)
    modifies store
    ensures store.State() == old(store.State()).(packs := old(store.packs) - dead)
    ensures removed == |dead| && reclaimed == Total(SizesAt(old(store.packs), dead))
  {
    hide SizesAt;
    ghost var before := store.State();
    ghost var done: set<Uuid> := {};
    removed, reclaimed := 0, 0;
    var todo := dead;
    assert SizesAt(before.packs, {}) == map[] by { NoSizes(before.packs); }
    assert before.packs - {} == before.packs;
    while todo != {}
      invariant done !! todo && done + todo == dead
      invariant store.State() == before.(packs := before.packs - done)
      invariant removed == |done| && reclaimed == Total(SizesAt(before.packs, done))
      decreases todo
    {
      var id :| id in todo;
      var freed := store.RemovePackFile(id);
      ReclaimOne(before.packs, done, id);
      removed, reclaimed := removed + 1, reclaimed + freed;
      MinusPack(before.packs, done, id);
      done := done + {id};
      todo := todo - {id};
    }
    assert done == dead;
  }

  lemma NoSizes(packs: map<Uuid, Bytes>)
    ensures SizesAt(packs, {}) == map[]
  {
  }

  lemma MinusPack(packs: map<Uuid, Bytes>, done: set<Uuid>, id: Uuid)
    ensures packs - done - {id} == packs - (done + {id})
  {
  }

  lemma ReclaimOne(packs: map<Uuid, Bytes>, done: set<Uuid>, id: Uuid)
    requires id !in done
    ensures Total(SizesAt(packs, done + {id})) == SizeOf(packs, id) + Total(SizesAt(packs, done))
    ensures SizeOf(packs - done, id) == SizeOf(packs, id)
  {
    assert SizesAt(packs, done + {id}) == SizesAt(packs, done)[id := SizeOf(packs, id)];
    TotalInsert(SizesAt(packs, done), id, SizeOf(packs, id));
  }

  lemma {:induction false} UnreachedMembers(rows: seq<Row>, reach: set<Hash>)
    ensures forall h :: h in Unreached(rows, reach) <==> exists r :: r in rows && r.0 == h && h !in reach
  {
    if rows != [] {
      UnreachedMembers(rows[1..], reach);
      assert forall r :: r in rows <==> r == rows[0] || r in rows[1..];
    }
  }

  lemma {:induction false} UnreachedDistinct(rows: seq<Row>, reach: set<Hash>)
    requires forall i, j :: 0 <= i < j < |rows| ==> rows[i].0 != rows[j].0
    ensures |Unreached(rows, reach)| == |set h | h in Unreached(rows, reach)|
  {
    if rows != [] {
      var rest := Unreached(rows[1..], reach);
      UnreachedDistinct(rows[1..], reach);
      UnreachedMembers(rows[1..], reach);
      if rows[0].0 !in reach {
        assert rows[0].0 !in rest;
        assert (set h | h in [rows[0].0] + rest) == {rows[0].0} + set h | h in rest;
      } else {
        assert [] + rest == rest;
      }
    }
  }

  lemma ListedOrphans(rows: seq<Row>, index: map<Hash, Bytes>, reach: set<Hash>)
    requires Lists(rows, index, index.Keys)
    ensures (set h | h in Unreached(rows, reach)) == index.Keys - reach
    ensures |Unreached(rows, reach)| == |index.Keys - reach|
  {
    hide Loc, Unreached;
    UnreachedMembers(rows, reach);
    UnreachedDistinct(rows, reach);
    forall h | h in index.Keys - reach ensures h in Unreached(rows, reach) {
      var i :| 0 <= i < |rows| && rows[i].0 == h;
      assert rows[i] in rows;
    }
  }

  lemma ListedPacks(rows: seq<Row>, s: Store, reach: set<Hash>)
    requires Lists(rows, s.index, s.index.Keys)
    ensures LiveSet(rows, reach) == LivePacks(s.index, reach)
    ensures PackSet(rows) - {s.active} - LiveSet(rows, reach) == DeadPacks(s, reach)
  {
    hide Loc;
    forall h | h in s.index ensures exists r :: r in rows && r.0 == h && r.1 == Loc(s.index[h]) {
      var i :| 0 <= i < |rows| && rows[i].0 == h;
      assert rows[i] in rows;
    }
  }

  lemma SweepAddsUp(s: Store, reach: set<Hash>, rows: seq<Row>, orphans: seq<Hash>, dead: set<Uuid>)
    requires Lists(rows, s.index, s.index.Keys)
    requires orphans == Unreached(rows, reach)
    requires dead == PackSet(rows) - {s.active} - LiveSet(rows, reach)
    ensures DropRows(s, set h | h in orphans).(packs := s.packs - dead) == Swept(s, reach)
    ensures GcReport(|orphans|, |dead|, Total(SizesAt(s.packs, dead))) == SweepReport(s, reach)
  {
    hide Loc, Unreached, PackSet, LiveSet, DeadPacks, Lists;
    ListedOrphans(rows, s.index, reach);
    ListedPacks(rows, s, reach);
    assert s.index - (s.index.Keys - reach) == Restrict(s.index, reach);
  }
}
