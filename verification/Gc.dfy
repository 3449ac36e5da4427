/** Mark and sweep over the index and the pack files, and what it conserves. */
module Gc {
  import opened Base
  import opened Sums
  import opened Locators
  import opened Library
  import opened StoreState

  datatype GcReport = GcReport(chunksSwept: nat, packsRemoved: nat, bytesReclaimed: nat)

  /** Packs that hold the bytes of at least one reachable chunk. */
  function LivePacks(index: map<Hash, Bytes>, reach: set<Hash>): set<Uuid> {
    set h | h in index && h in reach :: Loc(index[h]).packId
  }

  /** Packs that had rows, are not active, and hold no reachable chunk. */
  function DeadPacks(s: Store, reach: set<Hash>): set<Uuid> {
    set h | h in s.index && Loc(s.index[h]).packId != s.active
            && Loc(s.index[h]).packId !in LivePacks(s.index, reach) :: Loc(s.index[h]).packId
  }

  ghost function Sizes(packs: map<Uuid, Bytes>): map<Uuid, nat> {
    map id | id in packs :: |packs[id]|
  }

  ghost function DiskBytes(packs: map<Uuid, Bytes>): nat {
    Total(Sizes(packs))
  }

  ghost function SizesAt(packs: map<Uuid, Bytes>, ids: set<Uuid>): map<Uuid, nat> {
    map id | id in ids :: SizeOf(packs, id)
  }

  function Swept(s: Store, reach: set<Hash>): Store {
    s.(index := Restrict(s.index, reach), packs := s.packs - DeadPacks(s, reach))
  }

  ghost function SweepReport(s: Store, reach: set<Hash>): GcReport {
    var dead := DeadPacks(s, reach);
    GcReport(|s.index.Keys - reach|, |dead|, Total(SizesAt(s.packs, dead)))
  }

  predicate Decodable(index: map<Hash, Bytes>) {
    forall h :: h in index ==> DecodeLocator(index[h]).Ok?
  }

  /**
   * Whatever the state of the store, sound or damaged, a sweep does not change what `get`
   * answers for a reachable digest, and makes every other digest absent.
   */
  lemma SweepKeepsReachable(lib: Lib, s: Store, reach: set<Hash>, h: Hash)
    ensures var t := Swept(s, reach);
      Get(lib, t.index, t.packs, h) ==
      if h in reach then Get(lib, s.index, s.packs, h) else Ok(None)
  {
    hide DecodeLocator;
    var t := Swept(s, reach);
    if h in reach && h in s.index {
      assert t.index[h] == s.index[h];
      assert Loc(s.index[h]).packId in LivePacks(s.index, reach);
      var l := DecodeLocator(s.index[h]);
      if l.Ok? {
        assert Loc(s.index[h]) == l.value;
        LiveIsNotDead(s, reach, l.value.packId);
      }
    }
  }

  lemma LiveIsNotDead(s: Store, reach: set<Hash>, id: Uuid)
    requires id in LivePacks(s.index, reach)
    ensures id !in DeadPacks(s, reach)
  {
  }

  /** Exactly which packs a sweep deletes. */
  lemma SweepDeletes(s: Store, reach: set<Hash>, id: Uuid)
    requires id in s.packs
    ensures id !in Swept(s, reach).packs <==>
      && id != s.active
      && (exists h :: h in s.index && Loc(s.index[h]).packId == id)
      && (forall h :: h in s.index && h in reach ==> Loc(s.index[h]).packId != id)
  {
    hide Loc;
  }

  /** A sweep keeps the invariant, and the abstract map becomes its reachable part. */
  lemma SweepKeeps(lib: Lib, s: Store, reach: set<Hash>)
    requires StoreInv(lib, s)
    ensures var t := Swept(s, reach);
      && StoreInv(lib, t)
      && Abs(lib, t.index, t.packs) == Restrict(Abs(lib, s.index, s.packs), reach)
      && t.manifests == s.manifests && t.drawn == s.drawn && t.active == s.active
  {
    hide DecodeLocator, Loc, Plain;
    var t := Swept(s, reach);
    assert t.index == s.index - (s.index.Keys - reach);
    DropRowsKeeps(lib, s.index, s.packs, s.index.Keys - reach);
    forall h | h in t.index
      ensures Loc(t.index[h]).packId in t.packs
      ensures s.packs[Loc(t.index[h]).packId] == t.packs[Loc(t.index[h]).packId]
    {
      assert RowOk(lib, s.packs, h, s.index[h]);
      LiveIsNotDead(s, reach, Loc(s.index[h]).packId);
    }
    RowsFrame(lib, t.index, s.packs, t.packs);
    assert Abs(lib, s.index, s.packs) - (s.index.Keys - reach) == Restrict(Abs(lib, s.index, s.packs), reach);
  }

  lemma TotalWithoutZeros(packs: map<Uuid, Bytes>, ids: set<Uuid>)
    ensures Total(SizesAt(packs, ids)) == Total(Restrict(Sizes(packs), ids))
    decreases |ids|
  {
    if ids != {} {
      var id :| id in ids;
      TotalWithoutZeros(packs, ids - {id});
      TotalRemove(SizesAt(packs, ids), id);
      assert SizesAt(packs, ids) - {id} == SizesAt(packs, ids - {id});
      if id in packs {
        TotalRemove(Restrict(Sizes(packs), ids), id);
        assert Restrict(Sizes(packs), ids) - {id} == Restrict(Sizes(packs), ids - {id});
      } else {
        assert Restrict(Sizes(packs), ids) == Restrict(Sizes(packs), ids - {id});
      }
    } else {
      assert SizesAt(packs, ids) == map[] && Restrict(Sizes(packs), ids) == map[];
    }
  }

  lemma SizesWithout(packs: map<Uuid, Bytes>, ids: set<Uuid>)
    ensures Sizes(packs) - ids == Sizes(packs - ids)
  {
  }

  /** Bytes are conserved: what the report says was reclaimed is what the disk lost. */
  lemma SweepConserves(s: Store, reach: set<Hash>)
    ensures DiskBytes(s.packs) == DiskBytes(Swept(s, reach).packs) + SweepReport(s, reach).bytesReclaimed
  {
    hide DeadPacks, Sizes, SizesAt;
    var dead := DeadPacks(s, reach);
    TotalSplit(Sizes(s.packs), dead);
    TotalWithoutZeros(s.packs, dead);
    SizesWithout(s.packs, dead);
  }

  /** Every row's pack is on disk. */
  ghost predicate PacksExist(s: Store) {
    forall h :: h in s.index ==> Loc(s.index[h]).packId in s.packs
  }

  lemma DeadWereThere(s: Store, reach: set<Hash>)
    requires PacksExist(s)
    ensures DeadPacks(s, reach) <= s.packs.Keys
  {
    hide Loc;
  }

  lemma SweepReported(s: Store, reach: set<Hash>)
    ensures var r := SweepReport(s, reach);
      r.chunksSwept == |s.index.Keys - reach| && r.packsRemoved == |DeadPacks(s, reach)|
  {
    hide DeadPacks, SizesAt;
  }

  /**
   * The counts of the report, in any store: the rows that went, and the packs that went, where a
   * pack that rows name and that is not on disk counts as well.
   */
  lemma SweepCounts(s: Store, reach: set<Hash>)
    ensures var t, r := Swept(s, reach), SweepReport(s, reach);
      && r.chunksSwept == |s.index.Keys - t.index.Keys|
      && r.packsRemoved >= |s.packs.Keys - t.packs.Keys|
      && (PacksExist(s) ==> r.packsRemoved == |s.packs.Keys - t.packs.Keys|)
  {
    hide DeadPacks, PacksExist, Swept, SweepReport;
    SweepReported(s, reach);
    SweptAway(s, reach);
    var dead := DeadPacks(s, reach);
    Smaller(s.packs.Keys * dead, dead);
    if PacksExist(s) {
      DeadWereThere(s, reach);
      assert s.packs.Keys * dead == dead;
    }
  }

  lemma SweptAway(s: Store, reach: set<Hash>)
    ensures var t := Swept(s, reach);
      && s.index.Keys - t.index.Keys == s.index.Keys - reach
      && s.packs.Keys - t.packs.Keys == s.packs.Keys * DeadPacks(s, reach)
  {
    hide DeadPacks;
  }

  lemma Smaller<T>(a: set<T>, b: set<T>)
    requires a <= b
    ensures |a| <= |b|
  {
    assert b == a + (b - a);
  }

  /** A second sweep with the same roots finds nothing. */
  lemma SweepIdempotent(s: Store, reach: set<Hash>)
    ensures var t := Swept(s, reach);
      Swept(t, reach) == t && SweepReport(t, reach) == GcReport(0, 0, 0)
  {
    hide Loc;
    var t := Swept(s, reach);
    assert forall h :: h in t.index ==> Loc(t.index[h]).packId in LivePacks(t.index, reach);
    assert DeadPacks(t, reach) == {};
    assert SizesAt(t.packs, {}) == map[];
    assert t.index.Keys - reach == {};
    assert Restrict(t.index, reach) == t.index;
  }
}
