/** Capturing many files as one snapshot. */
module Snapshots {
  import opened Base
  import opened Types
  import opened Library
  import opened StoreState
  import opened Compaction
  import opened Chunking
  import opened Manifests
  import opened FileIo

  datatype Entries = Entries(store: Store, result: Result<seq<FileEntry>>)

  /** Chunk and store the files of a snapshot one after another; the first failure stops. */
  function IngestFiles(lib: Lib, s: Store, c: Cdc, files: seq<(string, Bytes)>, comp: Compression,
                       done: seq<FileEntry>): Entries
    requires ValidCdc(c)
    decreases |files|
  {
    if files == [] then Entries(s, Ok(done))
    else
      var t := IngestPieces(lib, s, Cuts(c, files[0].1), comp);
      match AsManifest(lib, files[0].1, t.result)
      case Err(e) => Entries(t.store, Err(e))
      case Ok(m) => IngestFiles(lib, t.store, c, files[1..], comp, done + [FileEntry(files[0].0, m)])
  }

  /** How many chunks the files cut into, and their texts. */
  function PieceCount(c: Cdc, files: seq<(string, Bytes)>): nat
    requires ValidCdc(c)
  {
    if files == [] then 0 else |Cuts(c, files[0].1)| + PieceCount(c, files[1..])
  }

  function AllTexts(c: Cdc, files: seq<(string, Bytes)>): set<Bytes>
    requires ValidCdc(c)
  {
    if files == [] then {} else Texts(Cuts(c, files[0].1)) + AllTexts(c, files[1..])
  }

  /** Entry by entry: the path, a tiled manifest, and the original bytes on reading back. */
  ghost predicate Captures(lib: Lib, s: Store, entries: seq<FileEntry>, files: seq<(string, Bytes)>) {
    && |entries| == |files|
    && forall i :: 0 <= i < |files| ==> CapturesFile(lib, s, entries[i], files[i])
  }

  ghost predicate CapturesFile(lib: Lib, s: Store, e: FileEntry, file: (string, Bytes)) {
    && e.path == file.0 && Tiled(e.manifest) && e.manifest.fileHash == lib.hash(file.1)
    && ManifestHashes(e.manifest) <= s.index.Keys
    && Materialise(lib, s.index, s.packs, e.manifest.chunks) == Ok(file.1)
  }

  lemma {:induction false} PutAllFresh(lib: Lib, s: Store, pieces: seq<Bytes>, comp: Compression,
                                       stats: IngestStats, refs: seq<ChunkRef>, offset: nat, n: nat)
    requires Lossless(lib) && StoreInv(lib, s) && Fresh(lib, s, |pieces| + n) && Storable(pieces)
    ensures Fresh(lib, PutAll(lib, s, pieces, comp, stats, refs, offset).store, n)
    decreases |pieces|
  {
    hide Put, StoreInv, Fresh, Lossless, Count;
    if pieces != [] {
      var p := pieces[0];
      FreshFewer(lib, s, |pieces| + n, 1);
      PutGood(lib, s, p, comp);
      PutFresh(lib, s, lib.hash(p), p, comp, |pieces| - 1 + n);
      var (t, r) := Put(lib, s, lib.hash(p), p, comp);
      PutAllFresh(lib, t, pieces[1..], comp, Count(stats, lib.hash(p) in s.index, |p|),
                  refs + [ChunkRef(lib.hash(p), offset, |p|, r.value)], offset + |p|, n);
    }
  }

  lemma GetGrows(lib: Lib, a: Store, b: Store, h: Hash)
    requires RowsInv(lib, a.index, a.packs) && RowsInv(lib, b.index, b.packs) && h in a.index
    requires Grows(Abs(lib, a.index, a.packs), Abs(lib, b.index, b.packs))
    ensures Get(lib, a.index, a.packs, h) == Get(lib, b.index, b.packs, h) && h in b.index
  {
    hide RowsInv, Abs, Get;
    GetRefines(lib, a.index, a.packs, h);
    GetRefines(lib, b.index, b.packs, h);
  }

  /** A captured file stays captured as the store grows. */
  lemma CapturedStays(lib: Lib, a: Store, b: Store, e: FileEntry, file: (string, Bytes))
    requires CapturesFile(lib, a, e, file)
    requires RowsInv(lib, a.index, a.packs) && RowsInv(lib, b.index, b.packs)
    requires Grows(Abs(lib, a.index, a.packs), Abs(lib, b.index, b.packs))
    ensures CapturesFile(lib, b, e, file)
  {
    hide RowsInv, Abs, Get, Grows, Tiled, Materialise;
    forall c | c in e.manifest.chunks
      ensures Get(lib, a.index, a.packs, c.hash) == Get(lib, b.index, b.packs, c.hash) && c.hash in b.index
    {
      assert c.hash in ManifestHashes(e.manifest);
      GetGrows(lib, a, b, c.hash);
    }
    MaterialiseSame(lib, a.index, a.packs, b.index, b.packs, e.manifest.chunks);
  }

  lemma OneFile(lib: Lib, s: Store, c: Cdc, file: (string, Bytes), comp: Compression, n: nat)
    requires ValidCdc(c) && c.max < U32_LIMIT && Lossless(lib) && StoreInv(lib, s)
    requires Fresh(lib, s, |Cuts(c, file.1)| + n)
    requires CollisionFree(lib, Abs(lib, s.index, s.packs).Values + Texts(Cuts(c, file.1)))
    ensures var t := IngestPieces(lib, s, Cuts(c, file.1), comp);
      && t.result.Ok? && StoreInv(lib, t.store) && Fresh(lib, t.store, n)
      && Grows(Abs(lib, s.index, s.packs), Abs(lib, t.store.index, t.store.packs))
      && Abs(lib, t.store.index, t.store.packs).Values <= Abs(lib, s.index, s.packs).Values + Texts(Cuts(c, file.1))
      && CapturesFile(lib, t.store, FileEntry(file.0, ManifestFor(lib, file.1, t.result.value)), file)
  {
    hide StoreInv, Abs, Lossless, Fresh, Get, PutAll, Flatten, Loc, Cuts, CollisionFree, Grows, TilesFrom, SumLens,
         Texts, Materialise, Extends, Digests;
    var pieces := Cuts(c, file.1);
    CutsFlatten(c, file.1);
    CutsSizes(c, file.1);
    assert Storable(pieces);
    FreshFewer(lib, s, |pieces| + n, |pieces|);
    IngestKeeps(lib, s, pieces, comp);
    IngestThenMaterialise(lib, s, pieces, comp);
    PutAllFresh(lib, s, pieces, comp, NO_STATS.(chunksTotal := |pieces|), [], 0, n);
    var t := IngestPieces(lib, s, pieces, comp);
    forall r | r in t.result.value ensures r.hash in t.store.index {
      var i :| 0 <= i < |t.result.value| && t.result.value[i] == r;
      assert RefFor(lib, t.store.index, t.result.value[i], pieces[i]);
    }
  }

  lemma FewerTexts(lib: Lib, all: set<Bytes>, some: set<Bytes>)
    requires CollisionFree(lib, all) && some <= all
    ensures CollisionFree(lib, some)
  {
  }

  /**
   * A snapshot of any list of files into a sound store succeeds, disturbs nothing stored, and
   * every file of it reads back as the original, unless two different texts share a digest.
   */
  lemma {:induction false} SnapshotCaptures(lib: Lib, s: Store, c: Cdc, files: seq<(string, Bytes)>, comp: Compression,
                                            done: seq<FileEntry>)
    requires ValidCdc(c) && c.max < U32_LIMIT && Lossless(lib) && StoreInv(lib, s)
    requires Fresh(lib, s, PieceCount(c, files))
    requires CollisionFree(lib, Abs(lib, s.index, s.packs).Values + AllTexts(c, files))
    ensures var t := IngestFiles(lib, s, c, files, comp, done);
      && t.result.Ok? && |t.result.value| == |done| + |files|
      && t.result.value[..|done|] == done
      && StoreInv(lib, t.store)
      && Grows(Abs(lib, s.index, s.packs), Abs(lib, t.store.index, t.store.packs))
      && Captures(lib, t.store, t.result.value[|done|..], files)
    decreases |files|
  {
    hide StoreInv, Abs, Lossless, Fresh, Cuts, CollisionFree, Grows, IngestPieces, CapturesFile, Texts;
    if files == [] {
      GrowsSelf(Abs(lib, s.index, s.packs));
      assert done[|done|..] == [];
    } else {
      var f := files[0];
      var a := Abs(lib, s.index, s.packs).Values;
      FewerTexts(lib, a + AllTexts(c, files), a + Texts(Cuts(c, f.1)));
      OneFile(lib, s, c, f, comp, PieceCount(c, files[1..]));
      var u := IngestPieces(lib, s, Cuts(c, f.1), comp);
      var e := FileEntry(f.0, ManifestFor(lib, f.1, u.result.value));
      FewerTexts(lib, a + AllTexts(c, files), Abs(lib, u.store.index, u.store.packs).Values + AllTexts(c, files[1..]));
      SnapshotCaptures(lib, u.store, c, files[1..], comp, done + [e]);
      var t := IngestFiles(lib, u.store, c, files[1..], comp, done + [e]);
      assert t == IngestFiles(lib, s, c, files, comp, done);
      GrowsTransitive(Abs(lib, s.index, s.packs), Abs(lib, u.store.index, u.store.packs),
                      Abs(lib, t.store.index, t.store.packs));
      SoundRows(lib, u.store);
      SoundRows(lib, t.store);
      CapturedStays(lib, u.store, t.store, e, f);
      CapturesCons(lib, t.store, t.result.value, done, e, files);
    }
  }

  lemma SoundRows(lib: Lib, s: Store)
    requires StoreInv(lib, s)
    ensures RowsInv(lib, s.index, s.packs)
  {
  }

  lemma CapturesCons(lib: Lib, s: Store, entries: seq<FileEntry>, done: seq<FileEntry>, e: FileEntry,
                     files: seq<(string, Bytes)>)
    requires files != [] && |entries| == |done| + |files| && entries[..|done| + 1] == done + [e]
    requires CapturesFile(lib, s, e, files[0]) && Captures(lib, s, entries[|done| + 1..], files[1..])
    ensures entries[..|done|] == done && Captures(lib, s, entries[|done|..], files)
  {
    hide CapturesFile;
    assert entries[..|done|] == entries[..|done| + 1][..|done|];
    assert entries[|done|] == entries[..|done| + 1][|done|];
    forall i | 0 <= i < |files| ensures CapturesFile(lib, s, entries[|done|..][i], files[i]) {
      if i > 0 {
        assert entries[|done|..][i] == entries[|done| + 1..][i - 1] && files[i] == files[1..][i - 1];
      }
    }
  }
}
