/** What a committed snapshot can rely on for the rest of every run. */
module Durability {
  import opened Base
  import opened Types
  import opened Library
  import opened StoreState
  import opened Compaction
  import opened Gc
  import opened Chunking
  import opened Manifests
  import opened FileIo
  import opened Snapshots
  import opened Protocol
  import Cdr

  /** An id that was handed out and that no recorder still holds. */
  ghost predicate Spent(sys: Sys, id: nat) {
    id < sys.nextId && forall t :: t in sys.threads && sys.threads[t].Numbered? ==> sys.threads[t].id != id
  }

  lemma RecordedIsSpent(lib: Lib, sys: Sys, id: nat)
    requires Inv(lib, sys) && id in sys.snaps
    ensures Spent(sys, id)
  {
    hide Usable, CatalogTrue, ThreadsPart, MaintPart;
  }

  /** Catalog effects of one step: files never change under an id, and a spent id stays spent. */
  lemma CatalogEffect(lib: Lib, a: Sys, b: Sys, step: Step, id: nat)
    requires Next(lib, a, b, step) && Spent(a, id)
    ensures Spent(b, id)
    ensures id in b.snaps ==> id in a.snaps && b.snaps[id].files == a.snaps[id].files
  {
    hide ThreadStep, CatalogStep, PutStep, IngestStep, SweepStep, TargetStep, MoveStep, FailStep, CrashStep, Spent;
    if ThreadStep(lib, a, b, step) { ThreadEffect(lib, a, b, step, id); }
    else if CatalogStep(lib, a, b, step) { SnapshotEffect(lib, a, b, step, id); }
    else { OtherEffect(lib, a, b, step, id); }
  }

  lemma ThreadEffect(lib: Lib, a: Sys, b: Sys, step: Step, id: nat)
    requires ThreadStep(lib, a, b, step) && Spent(a, id)
    ensures Spent(b, id) && b.snaps == a.snaps
  {
    hide Loc;
    forall t | t in b.threads && b.threads[t].Numbered? ensures t in a.threads && b.threads[t] == a.threads[t] {
    }
  }

  lemma SnapshotEffect(lib: Lib, a: Sys, b: Sys, step: Step, id: nat)
    requires CatalogStep(lib, a, b, step) && Spent(a, id)
    ensures Spent(b, id)
    ensures id in b.snaps ==> id in a.snaps && b.snaps[id].files == a.snaps[id].files
  {
    hide Loc, Backed;
  }

  lemma OtherEffect(lib: Lib, a: Sys, b: Sys, step: Step, id: nat)
    requires Next(lib, a, b, step) && !ThreadStep(lib, a, b, step) && !CatalogStep(lib, a, b, step) && Spent(a, id)
    ensures Spent(b, id) && b.snaps == a.snaps
  {
    hide ThreadStep, CatalogStep, PutStep, SweepStep, TargetStep, MoveStep, FailStep, CrashStep, IngestStep;
    if PutStep(lib, a, b, step) { PutEffect(lib, a, b, step, id); }
    else if IngestStep(lib, a, b, step) { IngestShape(lib, a, b, step); }
    else if SweepStep(lib, a, b, step) { SweepEffect(lib, a, b, step); }
    else if TargetStep(lib, a, b, step) { TargetEffect(lib, a, b, step); }
    else if MoveStep(lib, a, b, step) { MoveEffect(lib, a, b, step); }
    else if FailStep(lib, a, b, step) { FailEffect(lib, a, b, step, id); }
    else { CrashEffect(lib, a, b, step); }
  }

  lemma PutEffect(lib: Lib, a: Sys, b: Sys, step: Step, id: nat)
    requires PutStep(lib, a, b, step) && Spent(a, id)
    ensures Spent(b, id) && b.snaps == a.snaps
  {
    hide Loc, Encode, NextLocator, AppendTo, SetRow, CreatePack;
    forall t | t in b.threads && b.threads[t].Numbered? ensures t in a.threads && b.threads[t] == a.threads[t] {
    }
  }

  lemma SweepEffect(lib: Lib, a: Sys, b: Sys, step: Step)
    requires SweepStep(lib, a, b, step)
    ensures b.snaps == a.snaps && b.threads == a.threads && b.nextId == a.nextId
  {
    hide Reachable, DeadPacks, DeletePack;
  }

  lemma TargetEffect(lib: Lib, a: Sys, b: Sys, step: Step)
    requires TargetStep(lib, a, b, step)
    ensures b.snaps == a.snaps && b.threads == a.threads && b.nextId == a.nextId
  {
    hide RowsOf, DeletePack, CreatePack;
  }

  lemma MoveEffect(lib: Lib, a: Sys, b: Sys, step: Step)
    requires MoveStep(lib, a, b, step)
    ensures b.snaps == a.snaps && b.threads == a.threads && b.nextId == a.nextId
  {
    hide Loc, Stored, AppendTo, SetRow, CreatePack;
  }

  lemma FailEffect(lib: Lib, a: Sys, b: Sys, step: Step, id: nat)
    requires FailStep(lib, a, b, step) && Spent(a, id)
    ensures Spent(b, id) && b.snaps == a.snaps
  {
    forall t | t in b.threads && b.threads[t].Numbered? ensures t in a.threads && b.threads[t] == a.threads[t] {
    }
  }

  lemma CrashEffect(lib: Lib, a: Sys, b: Sys, step: Step)
    requires CrashStep(lib, a, b, step)
    ensures b.snaps == a.snaps && b.threads == map[] && b.nextId == a.nextId
  {
    hide Reopen, Torn;
  }

  lemma {:induction false} SpentStays(lib: Lib, states: seq<Sys>, steps: seq<Step>, i: nat, j: nat, id: nat)
    requires Run(lib, states, steps) && i <= j < |states| && Spent(states[i], id)
    ensures Spent(states[j], id)
    decreases j - i
  {
    hide Next, Spent;
    if i < j {
      SpentStays(lib, states, steps, i, j - 1, id);
      CatalogEffect(lib, states[j - 1], states[j], steps[j - 1], id);
    }
  }

  /** The catalog entry and the stored texts behind it are the same in both states. */
  ghost predicate SameSnapshot(lib: Lib, a: Sys, b: Sys, id: nat) {
    && id in a.snaps && id in b.snaps && b.snaps[id].files == a.snaps[id].files
    && forall h :: h in FileHashes(a.snaps[id].files) ==>
         h in Contents(lib, a) && h in Contents(lib, b) && Contents(lib, b)[h] == Contents(lib, a)[h]
  }

  /**
   * A snapshot found in the catalog at two points of a run has the same files at both, and
   * every chunk they refer to holds the same text, whatever recorders, removals of other
   * snapshots, collections, compactions and crashes came between.
   */
  lemma {:induction false} SnapshotDurable(lib: Lib, states: seq<Sys>, steps: seq<Step>, i: nat, j: nat, id: nat)
    requires Lossless(lib) && Run(lib, states, steps) && Inv(lib, states[0])
    requires i <= j < |states| && id in states[i].snaps && id in states[j].snaps
    ensures SameSnapshot(lib, states[i], states[j], id)
    decreases j - i
  {
    hide Inv, Next, Lossless, Contents, Keeps, Spent, FileHashes, Reachable;
    RunInv(lib, states, steps, j);
    if i == j {
      FilesProtected(states[i], id);
      forall h | h in FileHashes(states[i].snaps[id].files) ensures h in Contents(lib, states[i]) {
        ProtectedIndexed(lib, states[i], h);
      }
    } else {
      RunInv(lib, states, steps, i);
      RecordedIsSpent(lib, states[i], id);
      SpentStays(lib, states, steps, i, j - 1, id);
      CatalogEffect(lib, states[j - 1], states[j], steps[j - 1], id);
      SnapshotDurable(lib, states, steps, i, j - 1, id);
      RunInv(lib, states, steps, j - 1);
      StepSafe(lib, states[j - 1], states[j], steps[j - 1]);
      FilesProtected(states[j - 1], id);
      KeepsFiles(lib, states[j - 1], states[j], id);
    }
  }

  lemma FilesProtected(sys: Sys, id: nat)
    requires id in sys.snaps
    ensures FileHashes(sys.snaps[id].files) <= Protected(sys)
  {
    hide FileHashes;
    forall h | h in FileHashes(sys.snaps[id].files) ensures h in Reachable(sys.snaps, sys.store.manifests) {
    }
  }

  lemma KeepsFiles(lib: Lib, a: Sys, b: Sys, id: nat)
    requires Keeps(lib, a, b) && id in a.snaps && FileHashes(a.snaps[id].files) <= Protected(a)
    ensures forall h :: h in FileHashes(a.snaps[id].files) ==>
      h in Contents(lib, a) && h in Contents(lib, b) && Contents(lib, b)[h] == Contents(lib, a)[h]
  {
    hide Contents, FileHashes, Protected;
  }

  /** The refs of a file whose pieces were these: digest and length, in order. */
  ghost predicate RefersTo(lib: Lib, chunks: seq<ChunkRef>, pieces: seq<Bytes>) {
    && |chunks| == |pieces|
    && forall i :: 0 <= i < |chunks| ==> chunks[i].hash == lib.hash(pieces[i]) && chunks[i].len == |pieces[i]|
  }

  lemma PieceHeld(lib: Lib, sys: Sys, c: ChunkRef, p: Bytes)
    requires Inv(lib, sys) && c.hash in Contents(lib, sys) && Contents(lib, sys)[c.hash] == p && c.len == |p|
    ensures Holds(lib, sys.store.index, sys.store.packs, c, p)
  {
    hide RowsInv, Abs, Get, CatalogTrue, ThreadsPart, IdsPart, MaintPart;
    GetRefines(lib, sys.store.index, sys.store.packs, c.hash);
  }

  lemma OriginalHeld(lib: Lib, sys: Sys, h: Hash, p: Bytes, pieces: seq<Bytes>)
    requires Inv(lib, sys) && h in Contents(lib, sys) && h == lib.hash(p) && p in pieces
    requires CollisionFree(lib, Contents(lib, sys).Values + Texts(pieces))
    ensures Contents(lib, sys)[h] == p
  {
    hide RowsInv, Abs, CatalogTrue, ThreadsPart, IdsPart, MaintPart;
    GetRefines(lib, sys.store.index, sys.store.packs, h);
    assert Contents(lib, sys)[h] in Contents(lib, sys).Values;
  }

  lemma SameAnswers(lib: Lib, a: Sys, b: Sys, id: nat, h: Hash)
    requires SameSnapshot(lib, a, b, id) && Inv(lib, a) && Inv(lib, b) && h in FileHashes(a.snaps[id].files)
    ensures h in b.store.index
    ensures Get(lib, a.store.index, a.store.packs, h) == Get(lib, b.store.index, b.store.packs, h)
  {
    hide RowsInv, Abs, Get, CatalogTrue, ThreadsPart, IdsPart, MaintPart, FileHashes;
    GetRefines(lib, a.store.index, a.store.packs, h);
    GetRefines(lib, b.store.index, b.store.packs, h);
  }

  /**
   * End to end: reading a file of a snapshot back gives the same answer at every two points of
   * a run at which the snapshot is in the catalog, whatever came between and whatever the
   * digests.
   */
  lemma ReadbackDurable(lib: Lib, states: seq<Sys>, steps: seq<Step>, i: nat, j: nat, id: nat, n: nat)
    requires Lossless(lib) && Run(lib, states, steps) && Inv(lib, states[0])
    requires i <= j < |states| && id in states[i].snaps && id in states[j].snaps
    requires n < |states[i].snaps[id].files|
    ensures states[j].snaps[id].files == states[i].snaps[id].files
    ensures var m := states[i].snaps[id].files[n].manifest;
      && Materialise(lib, states[j].store.index, states[j].store.packs, m.chunks)
         == Materialise(lib, states[i].store.index, states[i].store.packs, m.chunks)
      && ManifestHashes(m) <= states[j].store.index.Keys
  {
    hide Inv, Next, Lossless, Contents, FileHashes, Get, Materialise, SameSnapshot;
    SnapshotDurable(lib, states, steps, i, j, id);
    RunInv(lib, states, steps, i);
    RunInv(lib, states, steps, j);
    SameFiles(lib, states[i], states[j], id);
    var chunks := states[i].snaps[id].files[n].manifest.chunks;
    forall c | c in chunks
      ensures c.hash in states[j].store.index
      ensures Get(lib, states[j].store.index, states[j].store.packs, c.hash)
           == Get(lib, states[i].store.index, states[i].store.packs, c.hash)
    {
      var k :| 0 <= k < |chunks| && chunks[k] == c;
      InFiles(states[i].snaps[id].files, n, k);
      SameAnswers(lib, states[i], states[j], id, c.hash);
    }
    MaterialiseSame(lib, states[j].store.index, states[j].store.packs, states[i].store.index, states[i].store.packs,
                    chunks);
  }

  lemma SameFiles(lib: Lib, a: Sys, b: Sys, id: nat)
    requires SameSnapshot(lib, a, b, id)
    ensures b.snaps[id].files == a.snaps[id].files
  {
  }

  /**
   * A snapshot that captures its originals, as recording one does, captures them at every later
   * point of a run at which it is still in the catalog: every file reads back as the original.
   */
  lemma CaptureDurable(lib: Lib, states: seq<Sys>, steps: seq<Step>, i: nat, j: nat, id: nat,
                       originals: seq<(string, Bytes)>)
    requires Lossless(lib) && Run(lib, states, steps) && Inv(lib, states[0])
    requires i <= j < |states| && id in states[i].snaps && id in states[j].snaps
    requires Captures(lib, states[i].store, states[i].snaps[id].files, originals)
    ensures Captures(lib, states[j].store, states[j].snaps[id].files, originals)
  {
    hide Inv, Next, Lossless, Materialise, Tiled, ManifestHashes, Run;
    SnapshotDurable(lib, states, steps, i, j, id);
    var files := states[i].snaps[id].files;
    forall n | 0 <= n < |originals| ensures CapturesFile(lib, states[j].store, states[j].snaps[id].files[n],
                                                         originals[n]) {
      assert CapturesFile(lib, states[i].store, files[n], originals[n]);
      ReadbackDurable(lib, states, steps, i, j, id, n);
    }
  }

  /**
   * The same from the pieces a file was cut into: if at some point no piece shares a digest with
   * a different text, the file reads back as the original at every later point.
   */
  lemma RestoreIsOriginal(lib: Lib, states: seq<Sys>, steps: seq<Step>, i: nat, j: nat, id: nat, n: nat,
                          pieces: seq<Bytes>)
    requires Lossless(lib) && Run(lib, states, steps) && Inv(lib, states[0])
    requires i <= j < |states| && id in states[i].snaps && id in states[j].snaps
    requires n < |states[i].snaps[id].files|
    requires RefersTo(lib, states[i].snaps[id].files[n].manifest.chunks, pieces)
    requires CollisionFree(lib, Contents(lib, states[i]).Values + Texts(pieces))
    ensures n < |states[j].snaps[id].files|
    ensures Materialise(lib, states[j].store.index, states[j].store.packs,
                        states[j].snaps[id].files[n].manifest.chunks) == Ok(Flatten(pieces))
  {
    hide Inv, Next, Lossless, Contents, Holds, CollisionFree, Texts, FileHashes, Materialise, Run;
    ReadbackDurable(lib, states, steps, i, j, id, n);
    RunInv(lib, states, steps, i);
    var files := states[i].snaps[id].files;
    var chunks := files[n].manifest.chunks;
    forall k | 0 <= k < |chunks|
      ensures Holds(lib, states[i].store.index, states[i].store.packs, chunks[k], pieces[k])
    {
      InFiles(files, n, k);
      SnapshotDurable(lib, states, steps, i, i, id);
      OriginalHeld(lib, states[i], chunks[k].hash, pieces[k], pieces);
      PieceHeld(lib, states[i], chunks[k], pieces[k]);
    }
    MaterialisePieces(lib, states[i].store.index, states[i].store.packs, chunks, pieces);
  }

  lemma InFiles(files: seq<FileEntry>, n: nat, k: nat)
    requires n < |files| && k < |files[n].manifest.chunks|
    ensures files[n].manifest.chunks[k].hash in FileHashes(files)
  {
    assert files[n] in files && files[n].manifest.chunks[k] in files[n].manifest.chunks;
  }

  /**
   * The manifest a streamed ingest builds, under any schedule of short reads: it refers to the
   * streamed pieces, tiles the file, carries the file's own digest, passes interchange
   * validation, and reads back as the input.
   */
  lemma StreamedIngest(lib: Lib, s: Store, c: Cdc, data: Bytes, plan: nat -> nat, comp: Compression)
    requires ValidCdc(c) && c.max < U32_LIMIT
    requires Lossless(lib) && StoreInv(lib, s) && Fresh(lib, s, |Stream(c, data, plan)|)
    ensures var t := IngestPieces(lib, s, Stream(c, data, plan), comp);
      && t.result.Ok?
      && var m := ManifestFor(lib, data, t.result.value);
         && Tiled(m) && RefersTo(lib, m.chunks, Stream(c, data, plan))
         && Cdr.WellFormed(Cdr.FromManifest(m))
         && (CollisionFree(lib, Abs(lib, s.index, s.packs).Values + Texts(Stream(c, data, plan))) ==>
               Materialise(lib, t.store.index, t.store.packs, m.chunks) == Ok(data))
  {
    hide Streamed, StoreInv, Lossless, Fresh, IngestPieces, GoodStore, TilesFrom, SumLens, CollisionFree, Loc, Abs,
         Get, Flatten, Materialise;
    var pieces := Stream(c, data, plan);
    StreamedCovers(c, data, plan, 0, 0, false, 0);
    StreamedSizes(c, data, plan, 0, 0, false, 0);
    assert data[0..] == data;
    IngestKeeps(lib, s, pieces, comp);
    var t := IngestPieces(lib, s, pieces, comp);
    var m := ManifestFor(lib, data, t.result.value);
    forall i | 0 <= i < |m.chunks| ensures m.chunks[i].hash == lib.hash(pieces[i]) && m.chunks[i].len == |pieces[i]| {
      assert RefFor(lib, t.store.index, m.chunks[i], pieces[i]);
    }
    Cdr.OutAndBack(m);
    if CollisionFree(lib, Abs(lib, s.index, s.packs).Values + Texts(pieces)) {
      IngestThenMaterialise(lib, s, pieces, comp);
    }
  }
}
