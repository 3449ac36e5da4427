/** The loops of a replication pass, between two open chunk stores. */
module Replicator {
  import opened Base
  import opened Types
  import opened Library
  import opened StoreState
  import opened ChunkStores
  import opened Catalog
  import opened Replication

  /** Both sides run the same program: the same digests, zstd frames and catalog encoding. */
  ghost predicate SameFormats(a: Lib, b: Lib) {
    a.hash == b.hash && a.decompress == b.decompress && a.json == b.json
  }

  lemma SameGet(a: Lib, b: Lib, index: map<Hash, Bytes>, packs: map<Uuid, Bytes>, h: Hash)
    requires SameFormats(a, b)
    ensures Get(a, index, packs, h) == Get(b, index, packs, h)
  {
    hide Locate, Stored;
  }

  /** In particular a store that is its own source never has to deliver: what it lacks is missing. */
  lemma NotIndexed(lib: Lib, index: map<Hash, Bytes>, packs: map<Uuid, Bytes>, h: Hash)
    ensures Locate(index, h) == Ok(None) ==> Get(lib, index, packs, h) == Ok(None)
  {
    hide Stored;
  }

  /** The local variables of the pass, which with the destination store make up its carry. */
  datatype Tally = Tally(codecOf: map<Hash, Codec>, present: nat, copied: nat, bytes: nat)

  function With(t: Tally, s: Store): Carry {
    Carry(s, t.codecOf, t.present, t.copied, t.bytes)
  }

  method CopyChunk(src: ChunkStore, dst: ChunkStore, before: Tally, h: Hash, comp: Compression)
    returns (t: Tally, error: Option<StoreError>)
    requires SameFormats(src.lib, dst.lib)
    modifies dst
    ensures Sent(With(t, dst.State()), error)
      == SendChunk(dst.lib, old(src.State()), With(before, old(dst.State())), h, comp)
    ensures src.State() == old(src.State())
  {
    hide Get, Put, Locate;
    t := before;
    if h in t.codecOf { return t, None; }
    var found := Locate(dst.index, h);
    if found.Err? { return t, Some(found.error); }
    if found.value.Some? {
      return t.(present := t.present + 1, codecOf := t.codecOf[h := found.value.value.codec]), None;
    }
    SameGet(src.lib, dst.lib, src.index, src.packs, h);
    NotIndexed(dst.lib, src.index, src.packs, h);
    var got := src.GetChunk(h);
    if got.Err? { return t, Some(got.error); }
    if got.value.None? { return t, Some(MissingChunk(h)); }
    t := t.(copied := t.copied + 1, bytes := t.bytes + |got.value.value|);
    var put := dst.PutChunk(h, got.value.value, comp);
    if put.Err? { return t, Some(put.error); }
    t := t.(codecOf := t.codecOf[h := put.value]);
    error := None;
  }

  method CopyChunks(src: ChunkStore, dst: ChunkStore, before: Tally, chunks: seq<ChunkRef>, comp: Compression)
    returns (t: Tally, error: Option<StoreError>)
    requires SameFormats(src.lib, dst.lib)
    modifies dst
    ensures Sent(With(t, dst.State()), error)
      == SendChunks(dst.lib, old(src.State()), With(before, old(dst.State())), chunks, comp)
    ensures src.State() == old(src.State())
  {
    hide SendChunk;
    t := before;
    ghost var from := src.State();
    ghost var all := SendChunks(dst.lib, from, With(t, dst.State()), chunks, comp);
    var i := 0;
    assert chunks[0..] == chunks;
    while i < |chunks|
      invariant 0 <= i <= |chunks|
      invariant src.State() == from
      invariant all == SendChunks(dst.lib, from, With(t, dst.State()), chunks[i..], comp)
    {
      assert chunks[i..][0] == chunks[i] && chunks[i..][1..] == chunks[i + 1..];
      t, error := CopyChunk(src, dst, t, chunks[i].hash, comp);
      if error.Some? { return; }
      i := i + 1;
    }
    error := None;
  }

  method CopyFiles(src: ChunkStore, dst: ChunkStore, before: Tally, files: seq<FileEntry>, comp: Compression)
    returns (t: Tally, error: Option<StoreError>)
    requires SameFormats(src.lib, dst.lib)
    modifies dst
    ensures Sent(With(t, dst.State()), error)
      == SendFiles(dst.lib, old(src.State()), With(before, old(dst.State())), files, comp)
    ensures src.State() == old(src.State())
  {
    hide SendChunks;
    t := before;
    ghost var from := src.State();
    ghost var all := SendFiles(dst.lib, from, With(t, dst.State()), files, comp);
    var i := 0;
    assert files[0..] == files;
    while i < |files|
      invariant 0 <= i <= |files|
      invariant src.State() == from
      invariant all == SendFiles(dst.lib, from, With(t, dst.State()), files[i..], comp)
    {
      assert files[i..][0] == files[i] && files[i..][1..] == files[i + 1..];
      t, error := CopyChunks(src, dst, t, files[i].manifest.chunks, comp);
      if error.Some? { return; }
      i := i + 1;
    }
    error := None;
  }

  /** The fingerprints of a listing. */
  method CollectPrints(lib: Lib, snaps: map<nat, Snapshot>) returns (prints: set<Hash>)
    ensures prints == Prints(lib, snaps)
  {
    hide Fingerprint, AllRows;
    var rows := LoadAll(snaps);
    prints := {};
    for i := 0 to |rows|
      invariant prints == RowPrints(lib, rows[..i])
    {
      assert rows[..i + 1] == rows[..i] + [rows[i]];
      RowPrintsSnoc(lib, rows[..i], rows[i]);
      prints := prints + {Fingerprint(lib, rows[i])};
    }
    assert rows[..|rows|] == rows;
    ListedPrints(lib, snaps);
  }

  lemma ListedPrints(lib: Lib, snaps: map<nat, Snapshot>)
    ensures RowPrints(lib, AllRows(snaps)) == Prints(lib, snaps)
  {
    hide Fingerprint, AllRows;
    forall s | s in AllRows(snaps) ensures Fingerprint(lib, s) in Prints(lib, snaps) {
      AllRowsMembers(snaps, s);
    }
    forall id | id in snaps ensures Fingerprint(lib, snaps[id]) in RowPrints(lib, AllRows(snaps)) {
      AllRowsMembers(snaps, snaps[id]);
    }
  }

  /** A repository replicated into itself copies nothing and changes nothing. */
  lemma SelfCopiesNothing(lib: Lib, s: Store, snaps: map<nat, Snapshot>, nextId: nat, comp: Compression)
    ensures SendAll(lib, s, Begin(lib, s, snaps, nextId), AllRows(snaps), comp)
      == Ran(Begin(lib, s, snaps, nextId).(skipped := |AllRows(snaps)|), None)
  {
    hide Fingerprint, AllRows, SendAll;
    ListedPrints(lib, snaps);
    AllSeen(lib, s, Begin(lib, s, snaps, nextId), AllRows(snaps), comp);
  }
}
