/** The repository object: a snapshot catalog over a chunk store, with its maintenance passes. */
module Repositories {
  import opened Base
  import opened Types
  import opened Library
  import opened StoreState
  import opened Compaction
  import opened Gc
  import opened Space
  import opened ChunkStores
  import opened Chunking
  import opened Manifests
  import opened FileIo
  import opened Snapshots
  import opened Catalog
  import opened VerifyRepair
  import opened Compactor
  import opened Marking
  import opened Verifier
  import opened Diagnosis
  import opened Replication
  import opened Replicator

  datatype ReplicateReport = ReplicateReport(snapshotsCopied: nat, snapshotsSkipped: nat, chunksCopied: nat,
                                             chunksPresent: nat, bytesCopied: nat)

  class Repository {
    const store: ChunkStore
    const cdc: Cdc
    /** The display prefix computed from a caption and the captured files. */
    const prefixOf: (string, seq<FileEntry>) -> string
    var snaps: map<nat, Snapshot>
    var summaries: map<nat, Summary>
    var nextId: nat
    var compression: Compression

    ghost predicate Valid()
      reads this
    {
      && ValidCdc(cdc)
      && KeysMatch(snaps)
      && InSync(snaps, summaries)
      && forall id :: id in snaps ==> id < nextId
    }

    /** A repository over an open store and a catalog read from disk. */
    constructor (store: ChunkStore, cdc: Cdc, prefixOf: (string, seq<FileEntry>) -> string, compression: Compression,
                 snaps: map<nat, Snapshot>, summaries: map<nat, Summary>, nextId: nat)
      requires ValidCdc(cdc) && KeysMatch(snaps) && InSync(snaps, summaries) && forall id :: id in snaps ==> id < nextId
      ensures Valid() && this.store == store && this.cdc == cdc && this.prefixOf == prefixOf
      ensures this.compression == compression
      ensures this.snaps == snaps && this.summaries == summaries && this.nextId == nextId
    {
      this.store, this.cdc, this.prefixOf := store, cdc, prefixOf;
      this.compression := compression;
      this.snaps, this.summaries, this.nextId := snaps, summaries, nextId;
    }

    /** Hand out the next id, in a transaction of its own: an id is spent even if no row follows. */
    method AllocateSnapshotId() returns (id: nat)
      requires Valid()
      modifies this`nextId
      ensures Valid() && id == old(nextId) && nextId == id + 1 && id !in snaps
    {
      id := nextId;
      nextId := nextId + 1;
    }

    /** One transaction: a row under its id, and its summary. */
    method CommitRow(snap: Snapshot)
      requires Valid() && snap.id < nextId
      modifies this`snaps, this`summaries
      ensures Valid() && snaps == old(snaps)[snap.id := snap]
    {
      hide SummaryOf;
      snaps := snaps[snap.id := snap];
      summaries := summaries[snap.id := SummaryOf(snap)];
    }

    /** Commit a row and its summary together, under a fresh id. */
    method RecordInner(kind: Kind, caption: string, sourceKey: Option<string>, createdAt: int, files: seq<FileEntry>)
      returns (id: nat)
      requires Valid()
      modifies this
      ensures Valid() && id == old(nextId) && nextId == id + 1 && id !in old(snaps)
      ensures snaps == old(snaps)[id := Snapshot(id, kind, createdAt, caption, sourceKey, "", [], false,
                                                 prefixOf(caption, files), files)]
      ensures compression == old(compression)
    {
      id := AllocateSnapshotId();
      CommitRow(Snapshot(id, kind, createdAt, caption, sourceKey, "", [], false, prefixOf(caption, files), files));
    }

    method SnapshotBytes(kind: Kind, caption: string, createdAt: int,
                         files: seq<(string, Bytes)>) returns (r: Result<nat>)
      requires Valid()
      modifies this, store
      ensures Valid()
      ensures var t := IngestFiles(store.lib, old(store.State()), cdc, files, old(compression), []);
        && store.State() == t.store
        && match t.result
           case Err(e) => r == Err(e) && snaps == old(snaps) && nextId == old(nextId)
           case Ok(entries) =>
             && r == Ok(old(nextId)) && nextId == old(nextId) + 1
             && snaps == old(snaps)[old(nextId) := Snapshot(old(nextId), kind, createdAt, caption, None, "", [], false,
                                                            prefixOf(caption, entries), entries)]
    {
      hide Cuts, IngestPieces;
      var entries: seq<FileEntry> := [];
      ghost var all := IngestFiles(store.lib, store.State(), cdc, files, compression, []);
      var i := 0;
      assert files[0..] == files;
      while i < |files|
        invariant 0 <= i <= |files|
        invariant Valid() && snaps == old(snaps) && nextId == old(nextId) && compression == old(compression)
        invariant all == IngestFiles(store.lib, store.State(), cdc, files[i..], compression, entries)
      {
        assert files[i..][0] == files[i] && files[i..][1..] == files[i + 1..];
        var m, stats := ChunkIntoStore(store, cdc, files[i].1, compression);
        if m.Err? { return Err(m.error); }
        entries := entries + [FileEntry(files[i].0, m.value)];
        i := i + 1;
      }
      var id := RecordInner(kind, caption, None, createdAt, entries);
      r := Ok(id);
    }

    /** Remove rows and summaries in one transaction; chunks stay until a collection. */
    method RemoveSnapshots(ids: seq<nat>) returns (removed: nat)
      requires Valid()
      modifies this
      ensures Valid() && nextId == old(nextId) && compression == old(compression)
      ensures snaps == old(snaps) - IdSet(ids)
      ensures removed == |old(snaps).Keys * IdSet(ids)|
    {
      hide InSync, KeysMatch, IdSet;
      removed := 0;
      assert IdSet(ids[..0]) == {} by { NoIds(ids); }
      ghost var gone: set<nat> := {};
      for i := 0 to |ids|
        invariant gone == IdSet(ids[..i])
        invariant snaps == old(snaps) - gone && summaries == old(summaries) - gone
        invariant removed == |old(snaps).Keys * gone|
        invariant nextId == old(nextId) && compression == old(compression)
      {
        CountRemoved(old(snaps).Keys, gone, ids[i]);
        IdSetSnoc(ids, i);
        if ids[i] in snaps {
          removed := removed + 1;
        }
        MinusOne(old(snaps), gone, ids[i]);
        MinusOne(old(summaries), gone, ids[i]);
        snaps := snaps - {ids[i]};
        summaries := summaries - {ids[i]};
        gone := gone + {ids[i]};
      }
      assert ids[..|ids|] == ids;
      RemovalValid(old(snaps), old(summaries), gone);
    }

    /** Apply an annotation edit to a row and rewrite its summary with it. */
    method EditSnapshot(id: nat, edit: Snapshot -> Snapshot) returns (existed: bool)
      requires Valid() && forall s: Snapshot :: edit(s).id == s.id && edit(s).files == s.files
      modifies this
      ensures Valid() && nextId == old(nextId) && compression == old(compression)
      ensures existed <==> id in old(snaps)
      ensures snaps == if existed then old(snaps)[id := edit(old(snaps)[id])] else old(snaps)
    {
      existed := id in snaps;
      if existed {
        CommitRow(edit(snaps[id]));
      }
    }

    // ----- collection ---------------------------------------------------------------

    method Mark() returns (reach: set<Hash>)
      ensures reach == Reachable(snaps, store.manifests)
    {
      hide FileHashes, ManifestHashes;
      reach := {};
      var ids := snaps.Keys;
      while ids != {}
        invariant ids <= snaps.Keys
        invariant reach == MarkedBy(snaps, snaps.Keys - ids)
        decreases ids
      {
        var id :| id in ids;
        var more := MarkFiles(snaps[id].files);
        MarkMore(snaps, snaps.Keys - ids, id);
        reach := reach + more;
        ids := ids - {id};
        assert snaps.Keys - ids == snaps.Keys - (ids + {id}) + {id};
      }
      var keys := store.manifests.Keys;
      ghost var fromSnaps := reach;
      while keys != {}
        invariant keys <= store.manifests.Keys
        invariant reach == fromSnaps + MarkedByKeys(store.manifests, store.manifests.Keys - keys)
        decreases keys
      {
        var key :| key in keys;
        var more := MarkManifest(store.manifests[key]);
        MarkMoreKeys(store.manifests, store.manifests.Keys - keys, key);
        reach := reach + more;
        keys := keys - {key};
        assert store.manifests.Keys - keys == store.manifests.Keys - (keys + {key}) + {key};
      }
      MarkAll(snaps, store.manifests);
      assert snaps.Keys - {} == snaps.Keys && store.manifests.Keys - {} == store.manifests.Keys;
    }

    /** Mark and sweep, assuming the exclusive lease. */
    method GcLocked() returns (r: Result<GcReport>)
      modifies store
      ensures !Decodable(old(store.index)) ==> r == Err(BadIndex) && store.State() == old(store.State())
      ensures Decodable(old(store.index)) ==>
        var reach := Reachable(snaps, old(store.manifests));
        && store.State() == Swept(old(store.State()), reach)
        && r == Ok(SweepReport(old(store.State()), reach))
    {
      hide Reachable, Decodable, Lists, Loc, Swept, SweepReport;
      var reach := Mark();
      var listing := store.AllLocators();
      if listing.Err? { return Err(BadIndex); }
      ghost var s := store.State();
      var orphans, dead := Classify(listing.value, reach, store.active, store.index);
      store.RemoveChunkIndexEntries(orphans);
      var removed, reclaimed := DeletePacks(store, dead);
      SweepAddsUp(s, reach, listing.value, orphans, dead);
      r := Ok(GcReport(|orphans|, removed, reclaimed));
    }

    method Gc() returns (r: Result<GcReport>)
      modifies store
      ensures !Decodable(old(store.index)) ==> r == Err(BadIndex) && store.State() == old(store.State())
      ensures Decodable(old(store.index)) ==>
        var reach := Reachable(snaps, old(store.manifests));
        && store.State() == Swept(old(store.State()), reach)
        && r == Ok(SweepReport(old(store.State()), reach))
    {
      r := GcLocked();
    }

    // ----- compaction -----------------------------------------------------------------

    /**
     * Full compaction at threshold num/den. `plan` records the packs it chose and, for each
     * one it reached, the rows it found there. The store's own random identifiers are assumed
     * new, for as many as the pass can draw.
     */
    method Compact(num: nat, den: nat, cancel: nat -> bool)
      returns (r: Result<(GcReport, CompactReport)>, ghost plan: Plan)
      requires den > 0
      requires Fresh(store.lib, store.State(), DrawBound(store.packs, store.index))
      modifies store
      ensures !Decodable(old(store.index)) ==> r == Err(BadIndex) && store.State() == old(store.State())
      ensures Decodable(old(store.index)) ==>
        var swept := Swept(old(store.State()), Reachable(snaps, old(store.manifests)));
        var base := Roll(store.lib, swept);
        && Targets(plan, Selected(base, num, den)) && PlanFits(store.lib, base, plan, cancel, 0)
        && Compacted(store.State(), ReportOf(r)) == CompactAll(store.lib, base, plan, cancel, 0)
        && (r.Ok? ==> r.value.0 == SweepReport(old(store.State()), Reachable(snaps, old(store.manifests))))
      ensures StoreInv(store.lib, old(store.State())) ==>
        CompactResult(store.lib, old(store.State()), Reachable(snaps, old(store.manifests)), store.State(), r, cancel,
                      num, den)
    {
      hide Swept, SweepReport, Reachable, Decodable, Targets, PlanFits, Selected, CompactAll, StoreInv, StatsOf,
           Fresh, CompactResult;
      plan := [];
      ghost var start := store.State();
      ghost var reach := Reachable(snaps, store.manifests);
      var gc := GcLocked();
      if gc.Err? {
        UndecodableIsUnsound(store.lib, start);
        return Err(gc.error), [];
      }
      ghost var swept := store.State();
      store.RollLocked();
      ghost var base := store.State();
      SweptDecodable(start, reach);
      var stats := store.PackStats();
      var targets := ChooseTargets(stats.value, num, den, base);
      ghost var ids := Selected(base, num, den);
      TargetsBound(store.lib, start, reach, targets, num, den);
      var report, error, lives := DrainTargets(store, targets, cancel, base);
      plan := PlanFrom(targets, lives);
      PlanTargets(targets, lives, ids);
      r := if error.Some? then Err(error.value) else Ok((gc.value, report));
      if StoreInv(store.lib, start) {
        CompactSound(store.lib, start, reach, plan, cancel, num, den, store.State(), r);
      }
    }

    // ----- verification and repair --------------------------------------------------------

    method Verify(only: Option<nat>, level: Level) returns (r: Result<VerifyReport>)
      ensures var checked := Checked(only, AllRows(snaps));
        && (r.Ok? <==> forall s :: s in checked ==> FilesLegible(store.index, level, s.files))
        && (r.Err? ==> r.error == BadIndex)
        && (r.Ok? ==> r.value == VerifyReport(|checked|, FileCount(checked), AllChunkCount(checked),
                                              CatalogDamage(store.lib, store.index, store.packs, level, only,
                                                            AllRows(snaps))))
      ensures r.Ok? ==> forall d ::
        d in r.value.damage <==> Damaged(store.lib, store.index, store.packs, level, only, AllRows(snaps), d)
      ensures r.Ok? && only.Some? && KeysMatch(snaps) ==>
        r.value.snapshotsChecked == if only.value in snaps then 1 else 0
    {
      hide AllRows, CatalogDamage, Checked, FilesLegible, Damaged;
      var rows := LoadAll(snaps);
      r := VerifyRows(store, rows, only, level);
      if only.Some? && KeysMatch(snaps) {
        CheckedSingle(snaps, only.value);
      }
    }

    /** Quarantine: drop every snapshot the report names, then collect. */
    method RepairRemoveDamaged(report: VerifyReport, apply: bool) returns (ids: seq<nat>, r: Result<GcReport>)
      requires Valid()
      modifies this, store
      ensures Valid() && ids == Sorted(DamagedIds(report.damage))
      ensures !apply || ids == [] ==>
        snaps == old(snaps) && store.State() == old(store.State()) && r == Ok(GcReport(0, 0, 0))
      ensures apply ==> snaps == old(snaps) - DamagedIds(report.damage)
      ensures apply && ids != [] && !Decodable(old(store.index)) ==>
        r == Err(BadIndex) && store.State() == old(store.State())
      ensures apply && ids != [] && Decodable(old(store.index)) ==>
        var reach := Reachable(snaps, old(store.manifests));
        store.State() == Swept(old(store.State()), reach) && r == Ok(SweepReport(old(store.State()), reach))
      ensures forall level: Level ::
        var damage := CatalogDamage(store.lib, old(store.index), old(store.packs), level, None, AllRows(old(snaps)));
        apply && report.damage == damage ==>
          CatalogDamage(store.lib, store.index, store.packs, level, None, AllRows(snaps)) == []
    {
      hide CatalogDamage, AllRows, Swept, Reachable, SweepReport, Decodable, Sorted, InSync, KeysMatch;
      ghost var before, rows := store.State(), snaps;
      var damaged: set<nat> := DamagedIds(report.damage);
      ids := SortIds(damaged);
      SortedMembers(damaged);
      if !apply || ids == [] {
        EmptySorted(damaged);
        assert apply ==> snaps - DamagedIds(report.damage) == snaps;
        r := Ok(GcReport(0, 0, 0));
      } else {
        var removed := RemoveSnapshots(ids);
        assert IdSet(ids) == damaged;
        r := Gc();
      }
      forall level: Level | apply
        && report.damage == CatalogDamage(store.lib, before.index, before.packs, level, None, AllRows(rows))
        ensures CatalogDamage(store.lib, store.index, store.packs, level, None, AllRows(snaps)) == []
      {
        RepairLeavesClean(store.lib, before, rows, level);
      }
    }

    // ----- replication ----------------------------------------------------------------------

    /** Insert a row with all of the template's metadata, under a fresh id. */
    method InsertFullSnapshot(template: Snapshot, files: seq<FileEntry>) returns (id: nat)
      requires Valid()
      modifies this
      ensures Valid() && id == old(nextId) && nextId == id + 1 && id !in old(snaps)
      ensures snaps == old(snaps)[id := template.(id := id, files := files)]
      ensures compression == old(compression)
    {
      id := AllocateSnapshotId();
      CommitRow(template.(id := id, files := files));
    }

    /** Send the snapshots and chunks that `dst` lacks, in id order. */
    method ReplicateTo(dst: Repository) returns (r: Result<ReplicateReport>)
      requires Valid() && dst.Valid() && SameFormats(store.lib, dst.store.lib)
      modifies dst, dst.store
      ensures dst.Valid()
      ensures
        var ran := SendAll(dst.store.lib, old(store.State()),
                           Begin(dst.store.lib, old(dst.store.State()), old(dst.snaps), old(dst.nextId)),
                           AllRows(old(snaps)), old(dst.compression));
        && dst.store.State() == ran.run.carry.store
        && dst.snaps == ran.run.snaps && dst.nextId == ran.run.nextId
        && r == match ran.error
                case Some(e) => Err(e)
                case None => Ok(ReplicateReport(ran.run.copied, ran.run.skipped, ran.run.carry.copied,
                                                ran.run.carry.present, ran.run.carry.bytes))
    {
      hide SendFiles, Fingerprint, AllRows, Prints, Restamp, KeysMatch, InSync;
      ghost var lib, src := dst.store.lib, store.State();
      ghost var start := Begin(lib, dst.store.State(), dst.snaps, dst.nextId);
      var comp := dst.compression;
      var seen := CollectPrints(dst.store.lib, dst.snaps);
      var rows := LoadAll(snaps);
      var t := Tally(map[], 0, 0, 0);
      var copied, skipped := 0, 0;
      var i := 0;
      assert rows[0..] == rows;
      while i < |rows|
        invariant 0 <= i <= |rows|
        invariant dst.Valid() && store.State() == src && dst.compression == comp
        invariant SendAll(lib, src, start, rows, comp)
          == SendAll(lib, src, Run(With(t, dst.store.State()), seen, dst.snaps, dst.nextId, copied, skipped),
                     rows[i..], comp)
      {
        assert rows[i..][0] == rows[i] && rows[i..][1..] == rows[i + 1..];
        var f := Fingerprint(dst.store.lib, rows[i]);
        if f in seen {
          skipped := skipped + 1;
        } else {
          seen := seen + {f};
          var error: Option<StoreError>;
          t, error := CopyFiles(store, dst.store, t, rows[i].files, comp);
          if error.Some? { return Err(error.value); }
          var id := dst.InsertFullSnapshot(rows[i], Restamp(t.codecOf, rows[i].files));
          copied := copied + 1;
        }
        i := i + 1;
      }
      r := Ok(ReplicateReport(copied, skipped, t.copied, t.present, t.bytes));
    }
  }
}
