/** Copying one repository's snapshots into another that lacks them. */
module Replication {
  import opened Base
  import opened Types
  import opened Sums
  import opened Locators
  import opened Library
  import opened StoreState
  import opened Compaction
  import opened Manifests
  import opened Catalog
  import opened Verifier

  // ----- what identifies a snapshot ---------------------------------------------

  function RawRef(c: ChunkRef): ChunkRef {
    c.(codec := Raw)
  }

  function RawFile(f: FileEntry): FileEntry {
    f.(manifest := f.manifest.(chunks := seq(|f.manifest.chunks|, i requires 0 <= i < |f.manifest.chunks| =>
      RawRef(f.manifest.chunks[i]))))
  }

  function RawFiles(files: seq<FileEntry>): seq<FileEntry> {
    seq(|files|, i requires 0 <= i < |files| => RawFile(files[i]))
  }

  /** A snapshot with its id, its editable annotations and its storage codecs blanked. */
  function Probe(s: Snapshot): Snapshot {
    s.(id := 0, caption := "", description := "", tags := [], pinned := false, source := "", files := RawFiles(s.files))
  }

  function Fingerprint(lib: Lib, s: Snapshot): Hash {
    lib.hash(lib.json(Probe(s)))
  }

  function Prints(lib: Lib, snaps: map<nat, Snapshot>): set<Hash> {
    set id | id in snaps :: Fingerprint(lib, snaps[id])
  }

  function RowPrints(lib: Lib, rows: seq<Snapshot>): set<Hash> {
    set s | s in rows :: Fingerprint(lib, s)
  }

  /** The same capture, whatever was edited since. */
  predicate SameCapture(a: Snapshot, b: Snapshot) {
    && a.kind == b.kind && a.createdAt == b.createdAt && a.sourceKey == b.sourceKey
    && RawFiles(a.files) == RawFiles(b.files)
  }

  /** Two snapshots share a probe exactly when they are the same capture. */
  lemma ProbeIffSameCapture(a: Snapshot, b: Snapshot)
    ensures Probe(a) == Probe(b) <==> SameCapture(a, b)
  {
    hide RawFiles;
  }

  // ----- the pass ---------------------------------------------------------------

  /** The destination store, the codec of each digest met so far, and the chunk counters. */
  datatype Carry = Carry(store: Store, codecOf: map<Hash, Codec>, present: nat, copied: nat, bytes: nat)

  datatype Sent = Sent(carry: Carry, error: Option<StoreError>)

  /** One chunk reference: met before, already at the destination, or copied. */
  function SendChunk(lib: Lib, src: Store, c: Carry, h: Hash, comp: Compression): Sent {
    if h in c.codecOf then Sent(c, None)
    else
      match Locate(c.store.index, h)
      case Err(e) => Sent(c, Some(e))
      case Ok(Some(l)) => Sent(c.(codecOf := c.codecOf[h := l.codec], present := c.present + 1), None)
      case Ok(None) =>
        match Get(lib, src.index, src.packs, h)
        case Err(e) => Sent(c, Some(e))
        case Ok(None) => Sent(c, Some(MissingChunk(h)))
        case Ok(Some(b)) => Deliver(lib, c, h, b, comp)
  }

  function Deliver(lib: Lib, c: Carry, h: Hash, b: Bytes, comp: Compression): Sent {
    var (t, r) := Put(lib, c.store, h, b, comp);
    var next := c.(store := t, copied := c.copied + 1, bytes := c.bytes + |b|);
    match r
    case Err(e) => Sent(next, Some(e))
    case Ok(codec) => Sent(next.(codecOf := c.codecOf[h := codec]), None)
  }

  function SendChunks(lib: Lib, src: Store, c: Carry, chunks: seq<ChunkRef>, comp: Compression): Sent
    decreases |chunks|
  {
    if chunks == [] then Sent(c, None)
    else
      var s := SendChunk(lib, src, c, chunks[0].hash, comp);
      if s.error.Some? then s else SendChunks(lib, src, s.carry, chunks[1..], comp)
  }

  function SendFiles(lib: Lib, src: Store, c: Carry, files: seq<FileEntry>, comp: Compression): Sent
    decreases |files|
  {
    if files == [] then Sent(c, None)
    else
      var s := SendChunks(lib, src, c, files[0].manifest.chunks, comp);
      if s.error.Some? then s else SendFiles(lib, src, s.carry, files[1..], comp)
  }

  function RestampRef(codecOf: map<Hash, Codec>, c: ChunkRef): ChunkRef {
    if c.hash in codecOf then c.(codec := codecOf[c.hash]) else c
  }

  function RestampFile(codecOf: map<Hash, Codec>, f: FileEntry): FileEntry {
    f.(manifest := f.manifest.(chunks := seq(|f.manifest.chunks|, i requires 0 <= i < |f.manifest.chunks| =>
      RestampRef(codecOf, f.manifest.chunks[i]))))
  }

  /** The files with each chunk's codec as the destination stores it. */
  function Restamp(codecOf: map<Hash, Codec>, files: seq<FileEntry>): seq<FileEntry> {
    seq(|files|, i requires 0 <= i < |files| => RestampFile(codecOf, files[i]))
  }

  datatype Run = Run(carry: Carry, seen: set<Hash>, snaps: map<nat, Snapshot>, nextId: nat, copied: nat, skipped: nat)

  datatype Ran = Ran(run: Run, error: Option<StoreError>)

  function AddRow(r: Run, snap: Snapshot): Run {
    r.(snaps := r.snaps[r.nextId := snap.(id := r.nextId, files := Restamp(r.carry.codecOf, snap.files))],
       nextId := r.nextId + 1, copied := r.copied + 1)
  }

  function SendSnapshot(lib: Lib, src: Store, r: Run, snap: Snapshot, comp: Compression): Ran {
    var f := Fingerprint(lib, snap);
    if f in r.seen then Ran(r.(skipped := r.skipped + 1), None)
    else
      var s := SendFiles(lib, src, r.carry, snap.files, comp);
      var next := r.(carry := s.carry, seen := r.seen + {f});
      if s.error.Some? then Ran(next, s.error) else Ran(AddRow(next, snap), None)
  }

  function SendAll(lib: Lib, src: Store, r: Run, rows: seq<Snapshot>, comp: Compression): Ran
    decreases |rows|
  {
    if rows == [] then Ran(r, None)
    else
      var n := SendSnapshot(lib, src, r, rows[0], comp);
      if n.error.Some? then n else SendAll(lib, src, n.run, rows[1..], comp)
  }

  function Begin(lib: Lib, dst: Store, snaps: map<nat, Snapshot>, nextId: nat): Run {
    Run(Carry(dst, map[], 0, 0, 0), Prints(lib, snaps), snaps, nextId, 0, 0)
  }

  // ----- re-runs ------------------------------------------------------------------

  /**
   * When every source snapshot is the same capture as some snapshot of the destination,
   * a run copies nothing and changes nothing, whatever labels, tags, pins or descriptions
   * either side has edited and whatever the state of either store.
   */
  lemma RerunCopiesNothing(lib: Lib, src: Store, dst: Store, snaps: map<nat, Snapshot>, nextId: nat,
                           rows: seq<Snapshot>, comp: Compression)
    requires forall s :: s in rows ==> exists id :: id in snaps && SameCapture(snaps[id], s)
    ensures SendAll(lib, src, Begin(lib, dst, snaps, nextId), rows, comp)
      == Ran(Begin(lib, dst, snaps, nextId).(skipped := |rows|), None)
  {
    hide SameCapture, SendAll;
    forall s | s in rows ensures Fingerprint(lib, s) in Prints(lib, snaps) {
      var id :| id in snaps && SameCapture(snaps[id], s);
      ProbeIffSameCapture(snaps[id], s);
    }
    AllSeen(lib, src, Begin(lib, dst, snaps, nextId), rows, comp);
  }

  lemma {:induction false} AllSeen(lib: Lib, src: Store, r: Run, rows: seq<Snapshot>, comp: Compression)
    requires forall s :: s in rows ==> Fingerprint(lib, s) in r.seen
    ensures SendAll(lib, src, r, rows, comp) == Ran(r.(skipped := r.skipped + |rows|), None)
    decreases |rows|
  {
    hide Fingerprint, SendFiles;
    if rows != [] {
      AllSeen(lib, src, r.(skipped := r.skipped + 1), rows[1..], comp);
    }
  }

  // ----- one chunk ----------------------------------------------------------------

  /** Every text of `m` comes, under the same digest, from one of the two. */
  ghost predicate From(m: map<Hash, Bytes>, a: map<Hash, Bytes>, b: map<Hash, Bytes>) {
    forall h :: h in m ==> (h in a && a[h] == m[h]) || (h in b && b[h] == m[h])
  }

  /** Every recorded codec is the one the index holds. */
  ghost predicate Truthful(index: map<Hash, Bytes>, codecOf: map<Hash, Codec>) {
    forall h :: h in codecOf ==> h in index && Loc(index[h]).codec == codecOf[h]
  }

  /** What holds between two chunks of a run that began with destination store `s0`. */
  ghost predicate CarryGood(lib: Lib, src: Store, s0: Store, c: Carry) {
    && StoreInv(lib, c.store)
    && Extends(s0.packs, c.store.packs) && c.store.manifests == s0.manifests
    && Grows(s0.index, c.store.index)
    && Grows(Abs(lib, s0.index, s0.packs), Abs(lib, c.store.index, c.store.packs))
    && From(Abs(lib, c.store.index, c.store.packs), Abs(lib, s0.index, s0.packs), Abs(lib, src.index, src.packs))
    && Truthful(c.store.index, c.codecOf)
    && c.copied == |c.store.index| - |s0.index|
    && c.present + c.copied == |c.codecOf|
    && TextBytes(Abs(lib, c.store.index, c.store.packs)) == TextBytes(Abs(lib, s0.index, s0.packs)) + c.bytes
  }

  ghost function Lengths(m: map<Hash, Bytes>): map<Hash, nat> {
    map h | h in m :: |m[h]|
  }

  /** The bytes of all the texts a store stands for. */
  ghost function TextBytes(m: map<Hash, Bytes>): nat {
    Total(Lengths(m))
  }

  lemma OneMoreText(m: map<Hash, Bytes>, h: Hash, p: Bytes)
    requires h !in m
    ensures TextBytes(Insert(m, h, p)) == TextBytes(m) + |p|
  {
    TotalInsert(Lengths(m), h, |p|);
    assert Lengths(m[h := p]) == Lengths(m)[h := |p|];
  }

  lemma CarryStart(lib: Lib, src: Store, s: Store)
    requires StoreInv(lib, s)
    ensures CarryGood(lib, src, s, Carry(s, map[], 0, 0, 0))
  {
    hide StoreInv, Abs, Loc, TextBytes;
  }

  /** What the source holds is short enough for a locator and hashes to its digest. */
  lemma SourceText(lib: Lib, src: Store, h: Hash)
    requires RowsInv(lib, src.index, src.packs) && h in src.index
    ensures var m := Abs(lib, src.index, src.packs);
      && h in m && lib.hash(m[h]) == h && |m[h]| < U32_LIMIT
      && Get(lib, src.index, src.packs, h) == Ok(Some(m[h]))
  {
    hide Get, GetRange, DecodeLocator, Plain, Loc;
    GetRefines(lib, src.index, src.packs, h);
    assert RowOk(lib, src.packs, h, src.index[h]);
  }

  lemma FromInsert(m: map<Hash, Bytes>, a: map<Hash, Bytes>, b: map<Hash, Bytes>, h: Hash, p: Bytes)
    requires From(m, a, b) && h in b && b[h] == p
    ensures From(Insert(m, h, p), a, b)
    ensures Grows(m, Insert(m, h, p))
  {
  }

  lemma TruthfulGrows(before: map<Hash, Bytes>, after: map<Hash, Bytes>, codecOf: map<Hash, Codec>, h: Hash,
                      codec: Codec)
    requires Truthful(before, codecOf) && Grows(before, after)
    requires h in after && Loc(after[h]).codec == codec && h !in codecOf
    ensures Truthful(after, codecOf[h := codec])
    ensures |codecOf[h := codec]| == |codecOf| + 1
    ensures Grows(codecOf, codecOf[h := codec])
  {
    hide Loc;
    CountKeys(codecOf, codecOf[h := codec], h);
  }

  /** A chunk the destination already stores. */
  lemma PresentGood(lib: Lib, src: Store, s0: Store, c: Carry, h: Hash, comp: Compression)
    requires CarryGood(lib, src, s0, c) && h !in c.codecOf && h in c.store.index
    ensures var s := SendChunk(lib, src, c, h, comp);
      && s.error.None? && CarryGood(lib, src, s0, s.carry) && s.carry.store == c.store
      && Grows(c.codecOf, s.carry.codecOf) && h in s.carry.codecOf
  {
    hide Abs, Get, Grows, From, Extends, DecodeLocator, Truthful, LocOk, Deliver, TextBytes;
    assert RowOk(lib, c.store.packs, h, c.store.index[h]);
    var l := Locate(c.store.index, h).value.value;
    assert Grows(c.store.index, c.store.index) by { GrowsSelf(c.store.index); }
    TruthfulGrows(c.store.index, c.store.index, c.codecOf, h, l.codec);
  }

  /** A chunk that has to be copied. */
  lemma DeliverGood(lib: Lib, src: Store, s0: Store, c: Carry, h: Hash, comp: Compression, n: nat)
    requires Lossless(lib) && RowsInv(lib, src.index, src.packs) && h in src.index
    requires CarryGood(lib, src, s0, c) && h !in c.codecOf && h !in c.store.index
    requires Fresh(lib, c.store, n + 1)
    ensures var p := Abs(lib, src.index, src.packs);
      h in p && var s := Deliver(lib, c, h, p[h], comp);
      && s.error.None? && CarryGood(lib, src, s0, s.carry) && Fresh(lib, s.carry.store, n)
      && Grows(c.codecOf, s.carry.codecOf) && h in s.carry.codecOf
  {
    hide Abs, Get, Grows, From, Extends, Loc, Truthful, StoreInv, Put, Lossless, Fresh, RowsInv, Insert, TextBytes;
    SourceText(lib, src, h);
    NotStored(lib, c.store, h);
    OneMoreText(Abs(lib, c.store.index, c.store.packs), h, Abs(lib, src.index, src.packs)[h]);
    var p := Abs(lib, src.index, src.packs)[h];
    FreshFewer(lib, c.store, n + 1, 1);
    PutRefines(lib, c.store, h, p, comp);
    PutGrows(lib, c.store, h, p, comp);
    PutFresh(lib, c.store, h, p, comp, n);
    IndexGrowth(lib, c.store, h, p, comp);
    var (t, r) := Put(lib, c.store, h, p, comp);
    ExtendsTransitive(s0.packs, c.store.packs, t.packs);
    GrowsTransitive(s0.index, c.store.index, t.index);
    FromInsert(Abs(lib, c.store.index, c.store.packs), Abs(lib, s0.index, s0.packs), Abs(lib, src.index, src.packs),
               h, p);
    GrowsTransitive(Abs(lib, s0.index, s0.packs), Abs(lib, c.store.index, c.store.packs), Abs(lib, t.index, t.packs));
    TruthfulGrows(c.store.index, t.index, c.codecOf, h, r.value);
  }

  lemma NotStored(lib: Lib, s: Store, h: Hash)
    requires StoreInv(lib, s) && h !in s.index
    ensures h !in Abs(lib, s.index, s.packs)
  {
  }

  lemma ChunkGood(lib: Lib, src: Store, s0: Store, c: Carry, h: Hash, comp: Compression, n: nat)
    requires Lossless(lib) && RowsInv(lib, src.index, src.packs) && h in src.index
    requires CarryGood(lib, src, s0, c) && Fresh(lib, c.store, n + 1)
    ensures var s := SendChunk(lib, src, c, h, comp);
      && s.error.None? && CarryGood(lib, src, s0, s.carry) && Fresh(lib, s.carry.store, n)
      && Grows(c.codecOf, s.carry.codecOf) && h in s.carry.codecOf
  {
    hide Abs, Get, Grows, CarryGood, RowsInv, Deliver, Lossless, DecodeLocator;
    if h in c.codecOf {
      GrowsSelf(c.codecOf);
    } else if h in c.store.index {
      PresentGood(lib, src, s0, c, h, comp);
    } else {
      SourceText(lib, src, h);
      DeliverGood(lib, src, s0, c, h, comp, n);
    }
  }

  lemma {:induction false} ChunksGood(lib: Lib, src: Store, s0: Store, c: Carry, chunks: seq<ChunkRef>,
                                      comp: Compression, n: nat)
    requires Lossless(lib) && RowsInv(lib, src.index, src.packs)
    requires forall k :: k in chunks ==> k.hash in src.index
    requires CarryGood(lib, src, s0, c) && Fresh(lib, c.store, |chunks| + n)
    ensures var s := SendChunks(lib, src, c, chunks, comp);
      && s.error.None? && CarryGood(lib, src, s0, s.carry) && Fresh(lib, s.carry.store, n)
      && Grows(c.codecOf, s.carry.codecOf) && forall k :: k in chunks ==> k.hash in s.carry.codecOf
    decreases |chunks|
  {
    hide CarryGood, RowsInv, SendChunk, Lossless, Fresh;
    if chunks != [] {
      ChunkGood(lib, src, s0, c, chunks[0].hash, comp, |chunks| - 1 + n);
      var s := SendChunk(lib, src, c, chunks[0].hash, comp);
      ChunksGood(lib, src, s0, s.carry, chunks[1..], comp, n);
    }
  }

  lemma {:induction false} FilesGood(lib: Lib, src: Store, s0: Store, c: Carry, files: seq<FileEntry>,
                                     comp: Compression, n: nat)
    requires Lossless(lib) && RowsInv(lib, src.index, src.packs)
    requires FileHashes(files) <= src.index.Keys
    requires CarryGood(lib, src, s0, c) && Fresh(lib, c.store, ChunkCount(files) + n)
    ensures var s := SendFiles(lib, src, c, files, comp);
      && s.error.None? && CarryGood(lib, src, s0, s.carry) && Fresh(lib, s.carry.store, n)
      && Grows(c.codecOf, s.carry.codecOf) && FileHashes(files) <= s.carry.codecOf.Keys
    decreases |files|
  {
    hide CarryGood, RowsInv, SendChunks, Lossless, Fresh;
    if files != [] {
      var f := files[0];
      FirstHashes(files);
      assert forall k :: k in f.manifest.chunks ==> k.hash in ManifestHashes(f.manifest);
      ChunksGood(lib, src, s0, c, f.manifest.chunks, comp, ChunkCount(files[1..]) + n);
      var s := SendChunks(lib, src, c, f.manifest.chunks, comp);
      FilesGood(lib, src, s0, s.carry, files[1..], comp, n);
    }
  }

  lemma FirstHashes(files: seq<FileEntry>)
    requires files != []
    ensures FileHashes(files) == ManifestHashes(files[0].manifest) + FileHashes(files[1..])
  {
    assert forall f :: f in files <==> f == files[0] || f in files[1..];
  }

  // ----- one snapshot -----------------------------------------------------------------

  /** Same paths, digests, sizes and chunks, each chunk under the codec `index` stores it with. */
  ghost predicate Delivered(index: map<Hash, Bytes>, from: seq<FileEntry>, to: seq<FileEntry>) {
    && |to| == |from|
    && forall i :: 0 <= i < |to| ==> DeliveredFile(index, from[i], to[i])
  }

  ghost predicate DeliveredFile(index: map<Hash, Bytes>, from: FileEntry, to: FileEntry) {
    && to.path == from.path && to.manifest.fileHash == from.manifest.fileHash && to.manifest.size == from.manifest.size
    && |to.manifest.chunks| == |from.manifest.chunks|
    && forall i :: 0 <= i < |to.manifest.chunks| ==> DeliveredRef(index, from.manifest.chunks[i], to.manifest.chunks[i])
  }

  ghost predicate DeliveredRef(index: map<Hash, Bytes>, from: ChunkRef, to: ChunkRef) {
    && to.hash == from.hash && to.offset == from.offset && to.len == from.len
    && to.hash in index && to.codec == Loc(index[to.hash]).codec
  }

  lemma RestampDelivers(index: map<Hash, Bytes>, codecOf: map<Hash, Codec>, files: seq<FileEntry>)
    requires Truthful(index, codecOf) && FileHashes(files) <= codecOf.Keys
    ensures Delivered(index, files, Restamp(codecOf, files))
    ensures RawFiles(Restamp(codecOf, files)) == RawFiles(files)
  {
    hide Loc;
    var out := Restamp(codecOf, files);
    forall i | 0 <= i < |files|
      ensures DeliveredFile(index, files[i], out[i])
      ensures RawFile(out[i]) == RawFile(files[i])
    {
      RestampOne(index, codecOf, files, i);
    }
  }

  lemma RestampOne(index: map<Hash, Bytes>, codecOf: map<Hash, Codec>, files: seq<FileEntry>, i: nat)
    requires Truthful(index, codecOf) && FileHashes(files) <= codecOf.Keys && i < |files|
    ensures DeliveredFile(index, files[i], RestampFile(codecOf, files[i]))
    ensures RawFile(RestampFile(codecOf, files[i])) == RawFile(files[i])
  {
    hide Loc;
    var f := files[i];
    var out := RestampFile(codecOf, f);
    forall j | 0 <= j < |f.manifest.chunks| ensures DeliveredRef(index, f.manifest.chunks[j], out.manifest.chunks[j]) {
      assert f in files && f.manifest.chunks[j] in f.manifest.chunks;
      assert f.manifest.chunks[j].hash in FileHashes(files);
    }
    assert RawFile(out).manifest.chunks == RawFile(f).manifest.chunks;
  }

  lemma DeliveredGrows(before: map<Hash, Bytes>, after: map<Hash, Bytes>, from: seq<FileEntry>, to: seq<FileEntry>)
    requires Delivered(before, from, to) && Grows(before, after)
    ensures Delivered(after, from, to)
  {
    hide Loc;
    forall i | 0 <= i < |to| ensures DeliveredFile(after, from[i], to[i]) {
      assert DeliveredFile(before, from[i], to[i]);
    }
  }

  /** `row` is a faithful copy of one of `rows` under a fresh id. */
  ghost predicate CopyOf(index: map<Hash, Bytes>, rows: seq<Snapshot>, row: Snapshot) {
    exists i :: 0 <= i < |rows| && Copied(index, rows[i], row)
  }

  /** Everything but the id and the codecs is as in the original, annotations included. */
  ghost predicate Copied(index: map<Hash, Bytes>, from: Snapshot, to: Snapshot) {
    to == from.(id := to.id, files := to.files) && Delivered(index, from.files, to.files)
  }

  /** What holds between two snapshots of a run, after those of `done`. */
  ghost predicate RunGood(lib: Lib, src: Store, s0: Store, snaps0: map<nat, Snapshot>, r: Run, done: seq<Snapshot>) {
    && CarryGood(lib, src, s0, r.carry)
    && CatalogGood(lib, r.carry.store.index, snaps0, r, done)
  }

  ghost predicate CatalogGood(lib: Lib, index: map<Hash, Bytes>, snaps0: map<nat, Snapshot>, r: Run,
                              done: seq<Snapshot>) {
    && r.seen == Prints(lib, snaps0) + RowPrints(lib, done)
    && Prints(lib, r.snaps) == r.seen
    && r.copied + r.skipped == |done|
    && |r.snaps| == |snaps0| + r.copied
    && Grows(snaps0, r.snaps)
    && (forall id :: id in r.snaps ==> id < r.nextId && r.snaps[id].id == id)
    && (forall id :: id in r.snaps && id !in snaps0 ==> CopyOf(index, done, r.snaps[id]))
  }

  lemma RunStart(lib: Lib, src: Store, dst: Store, snaps: map<nat, Snapshot>, nextId: nat)
    requires StoreInv(lib, dst) && KeysMatch(snaps) && forall id :: id in snaps ==> id < nextId
    ensures RunGood(lib, src, dst, snaps, Begin(lib, dst, snaps, nextId), [])
  {
    hide CarryGood, StoreInv, Fingerprint;
    CarryStart(lib, src, dst);
    assert RowPrints(lib, []) == {};
  }

  lemma RowPrintsSnoc(lib: Lib, rows: seq<Snapshot>, s: Snapshot)
    ensures RowPrints(lib, rows + [s]) == RowPrints(lib, rows) + {Fingerprint(lib, s)}
  {
    hide Fingerprint;
  }

  lemma PrintsInsert(lib: Lib, snaps: map<nat, Snapshot>, id: nat, s: Snapshot)
    requires id !in snaps
    ensures Prints(lib, snaps[id := s]) == Prints(lib, snaps) + {Fingerprint(lib, s)}
  {
    hide Fingerprint;
    var next := snaps[id := s];
    forall f | f in Prints(lib, snaps) + {Fingerprint(lib, s)} ensures f in Prints(lib, next) {
      if f == Fingerprint(lib, s) {
        assert next[id] == s;
      } else {
        var k :| k in snaps && Fingerprint(lib, snaps[k]) == f;
        assert next[k] == snaps[k];
      }
    }
  }

  lemma InsertCounts(snaps: map<nat, Snapshot>, id: nat, s: Snapshot)
    requires id !in snaps
    ensures |snaps[id := s]| == |snaps| + 1
    ensures Grows(snaps, snaps[id := s])
  {
    var next := snaps[id := s];
    assert next.Keys == snaps.Keys + {id};
    assert |next| == |next.Keys| && |snaps| == |snaps.Keys|;
  }

  lemma CopySnoc(index: map<Hash, Bytes>, after: map<Hash, Bytes>, rows: seq<Snapshot>, s: Snapshot, row: Snapshot)
    requires Grows(index, after)
    ensures CopyOf(index, rows, row) ==> CopyOf(after, rows + [s], row)
    ensures Copied(after, s, row) ==> CopyOf(after, rows + [s], row)
  {
    hide Delivered;
    if CopyOf(index, rows, row) {
      var i :| 0 <= i < |rows| && Copied(index, rows[i], row);
      DeliveredGrows(index, after, rows[i].files, row.files);
      assert (rows + [s])[i] == rows[i];
    }
    if Copied(after, s, row) {
      assert (rows + [s])[|rows|] == s;
    }
  }

  lemma SkipGood(lib: Lib, index: map<Hash, Bytes>, snaps0: map<nat, Snapshot>, r: Run, done: seq<Snapshot>,
                 s: Snapshot)
    requires CatalogGood(lib, index, snaps0, r, done) && Fingerprint(lib, s) in r.seen
    ensures CatalogGood(lib, index, snaps0, r.(skipped := r.skipped + 1), done + [s])
  {
    hide Fingerprint, CopyOf, Prints, RowPrints;
    RowPrintsSnoc(lib, done, s);
    GrowsSelf(index);
    forall id | id in r.snaps && id !in snaps0 ensures CopyOf(index, done + [s], r.snaps[id]) {
      CopySnoc(index, index, done, s, r.snaps[id]);
    }
  }

  lemma InsertGood(lib: Lib, before: map<Hash, Bytes>, after: map<Hash, Bytes>, snaps0: map<nat, Snapshot>,
                   r: Run, carry: Carry, done: seq<Snapshot>, s: Snapshot)
    requires CatalogGood(lib, before, snaps0, r, done) && Grows(before, after)
    requires Truthful(after, carry.codecOf) && FileHashes(s.files) <= carry.codecOf.Keys
    ensures CatalogGood(lib, after, snaps0, AddRow(r.(carry := carry, seen := r.seen + {Fingerprint(lib, s)}), s),
                        done + [s])
  {
    hide CopyOf, Prints, RowPrints, Restamp, RawFiles, FileHashes, Delivered, Truthful;
    var files := Restamp(carry.codecOf, s.files);
    var row := s.(id := r.nextId, files := files);
    RestampDelivers(after, carry.codecOf, s.files);
    RowPrintsSnoc(lib, done, s);
    PrintsInsert(lib, r.snaps, r.nextId, row);
    InsertCounts(r.snaps, r.nextId, row);
    assert Probe(row) == Probe(s);
    GrowsTransitive(snaps0, r.snaps, r.snaps[r.nextId := row]);
    CopySnoc(before, after, done, s, row);
    forall id | id in r.snaps && id !in snaps0 ensures CopyOf(after, done + [s], r.snaps[id]) {
      CopySnoc(before, after, done, s, r.snaps[id]);
    }
  }

  lemma SnapshotGood(lib: Lib, src: Store, s0: Store, snaps0: map<nat, Snapshot>, r: Run, done: seq<Snapshot>,
                     s: Snapshot, comp: Compression, n: nat)
    requires Lossless(lib) && RowsInv(lib, src.index, src.packs) && FileHashes(s.files) <= src.index.Keys
    requires RunGood(lib, src, s0, snaps0, r, done) && Fresh(lib, r.carry.store, ChunkCount(s.files) + n)
    ensures var next := SendSnapshot(lib, src, r, s, comp);
      && next.error.None? && RunGood(lib, src, s0, snaps0, next.run, done + [s]) && Fresh(lib, next.run.carry.store, n)
  {
    hide Lossless, RowsInv, CarryGood, CatalogGood, Fingerprint, SendFiles, FileHashes, Fresh, AddRow;
    FreshFewer(lib, r.carry.store, ChunkCount(s.files) + n, n);
    if Fingerprint(lib, s) in r.seen {
      SkipGood(lib, r.carry.store.index, snaps0, r, done, s);
    } else {
      FilesGood(lib, src, s0, r.carry, s.files, comp, n);
      SentIndexGrows(lib, src, r.carry, s.files, comp);
      var sent := SendFiles(lib, src, r.carry, s.files, comp);
      assert Truthful(sent.carry.store.index, sent.carry.codecOf) by { CarryTruthful(lib, src, s0, sent.carry); }
      InsertGood(lib, r.carry.store.index, sent.carry.store.index, snaps0, r, sent.carry, done, s);
      InsertCarry(r.(carry := sent.carry, seen := r.seen + {Fingerprint(lib, s)}), s);
    }
  }

  lemma InsertCarry(r: Run, s: Snapshot)
    ensures AddRow(r, s).carry == r.carry
  {
  }

  lemma CarryTruthful(lib: Lib, src: Store, s0: Store, c: Carry)
    requires CarryGood(lib, src, s0, c)
    ensures Truthful(c.store.index, c.codecOf)
  {
  }

  lemma SentOneGrows(lib: Lib, src: Store, c: Carry, h: Hash, comp: Compression)
    ensures Grows(c.store.index, SendChunk(lib, src, c, h, comp).carry.store.index)
  {
    hide Put, Get, Locate;
    if Get(lib, src.index, src.packs, h).Ok? && Get(lib, src.index, src.packs, h).value.Some? {
      PutGrows(lib, c.store, h, Get(lib, src.index, src.packs, h).value.value, comp);
    }
  }

  lemma {:induction false} SentChunksGrow(lib: Lib, src: Store, c: Carry, chunks: seq<ChunkRef>, comp: Compression)
    ensures Grows(c.store.index, SendChunks(lib, src, c, chunks, comp).carry.store.index)
    decreases |chunks|
  {
    hide SendChunk;
    if chunks != [] {
      SentOneGrows(lib, src, c, chunks[0].hash, comp);
      SentChunksGrow(lib, src, SendChunk(lib, src, c, chunks[0].hash, comp).carry, chunks[1..], comp);
    }
  }

  lemma {:induction false} SentIndexGrows(lib: Lib, src: Store, c: Carry, files: seq<FileEntry>, comp: Compression)
    ensures Grows(c.store.index, SendFiles(lib, src, c, files, comp).carry.store.index)
    decreases |files|
  {
    hide SendChunks;
    if files != [] {
      SentChunksGrow(lib, src, c, files[0].manifest.chunks, comp);
      SentIndexGrows(lib, src, SendChunks(lib, src, c, files[0].manifest.chunks, comp).carry, files[1..], comp);
    }
  }

  // ----- which digests a run meets --------------------------------------------------------

  /** The digests that the rows added refer to. */
  function NewHashes(before: map<nat, Snapshot>, after: map<nat, Snapshot>): set<Hash> {
    set id, h | id in after && id !in before && h in FileHashes(after[id].files) :: h
  }

  lemma {:induction false} MetChunks(lib: Lib, src: Store, c: Carry, chunks: seq<ChunkRef>, comp: Compression)
    ensures var s := SendChunks(lib, src, c, chunks, comp);
      s.error.None? ==> s.carry.codecOf.Keys == c.codecOf.Keys + set k | k in chunks :: k.hash
    decreases |chunks|
  {
    hide Put, Get, Locate;
    if chunks != [] {
      var s := SendChunk(lib, src, c, chunks[0].hash, comp);
      assert s.error.None? ==> s.carry.codecOf.Keys == c.codecOf.Keys + {chunks[0].hash};
      MetChunks(lib, src, s.carry, chunks[1..], comp);
      assert forall k :: k in chunks <==> k == chunks[0] || k in chunks[1..];
    }
  }

  lemma {:induction false} MetFiles(lib: Lib, src: Store, c: Carry, files: seq<FileEntry>, comp: Compression)
    ensures var s := SendFiles(lib, src, c, files, comp);
      s.error.None? ==> s.carry.codecOf.Keys == c.codecOf.Keys + FileHashes(files)
    decreases |files|
  {
    hide SendChunks, FileHashes;
    if files == [] {
      assert FileHashes([]) == {} by { NoFiles(); }
    } else {
      FirstHashes(files);
      MetChunks(lib, src, c, files[0].manifest.chunks, comp);
      MetFiles(lib, src, SendChunks(lib, src, c, files[0].manifest.chunks, comp).carry, files[1..], comp);
    }
  }

  lemma NoFiles()
    ensures FileHashes([]) == {}
  {
  }

  lemma RestampFileHashes(codecOf: map<Hash, Codec>, f: FileEntry)
    ensures ManifestHashes(RestampFile(codecOf, f).manifest) == ManifestHashes(f.manifest)
  {
    var from, to := f.manifest.chunks, RestampFile(codecOf, f).manifest.chunks;
    assert forall i :: 0 <= i < |to| ==> to[i].hash == from[i].hash && to[i] in to && from[i] in from;
  }

  lemma {:induction false} RestampHashes(codecOf: map<Hash, Codec>, files: seq<FileEntry>)
    ensures FileHashes(Restamp(codecOf, files)) == FileHashes(files)
  {
    hide FileHashes, ManifestHashes, RestampFile;
    if files == [] {
      assert Restamp(codecOf, files) == files;
    } else {
      RestampHashes(codecOf, files[1..]);
      RestampFileHashes(codecOf, files[0]);
      assert Restamp(codecOf, files)[1..] == Restamp(codecOf, files[1..]);
      FirstHashes(files);
      FirstHashes(Restamp(codecOf, files));
    }
  }

  lemma NewHashesInsert(before: map<nat, Snapshot>, after: map<nat, Snapshot>, id: nat, s: Snapshot)
    requires id !in before && id !in after
    ensures NewHashes(before, after[id := s]) == NewHashes(before, after) + FileHashes(s.files)
  {
    hide FileHashes;
    var next := after[id := s];
    forall h | h in NewHashes(before, after) + FileHashes(s.files) ensures h in NewHashes(before, next) {
      if h in FileHashes(s.files) {
        assert next[id] == s;
      } else {
        var k :| k in after && k !in before && h in FileHashes(after[k].files);
        assert next[k] == after[k];
      }
    }
  }

  /** A run has met exactly the digests that the rows it added refer to. */
  lemma {:induction false} MetAll(lib: Lib, src: Store, snaps0: map<nat, Snapshot>, r: Run, rows: seq<Snapshot>,
                                  comp: Compression)
    requires r.carry.codecOf.Keys == NewHashes(snaps0, r.snaps)
    requires forall id :: id in r.snaps || id in snaps0 ==> id < r.nextId
    ensures var end := SendAll(lib, src, r, rows, comp);
      end.error.None? ==> end.run.carry.codecOf.Keys == NewHashes(snaps0, end.run.snaps)
    decreases |rows|
  {
    hide SendFiles, Fingerprint, FileHashes, NewHashes, Restamp;
    if rows != [] {
      var s := rows[0];
      var next := SendSnapshot(lib, src, r, s, comp);
      if next.error.None? {
        if Fingerprint(lib, s) !in r.seen {
          MetFiles(lib, src, r.carry, s.files, comp);
          var codecOf := SendFiles(lib, src, r.carry, s.files, comp).carry.codecOf;
          RestampHashes(codecOf, s.files);
          NewHashesInsert(snaps0, r.snaps, r.nextId, s.(id := r.nextId, files := Restamp(codecOf, s.files)));
        }
        MetAll(lib, src, snaps0, next.run, rows[1..], comp);
      }
    }
  }

  // ----- any two stores -------------------------------------------------------------------

  /** Every digest the run has met has a row at the destination. */
  ghost predicate AllIndexed(c: Carry) {
    c.codecOf.Keys <= c.store.index.Keys
  }

  lemma {:induction false} ChunksIndexed(lib: Lib, src: Store, c: Carry, chunks: seq<ChunkRef>, comp: Compression)
    requires AllIndexed(c)
    ensures AllIndexed(SendChunks(lib, src, c, chunks, comp).carry)
    decreases |chunks|
  {
    hide Get, Encode, EncodeLocator, DecodeLocator;
    if chunks != [] {
      ChunksIndexed(lib, src, SendChunk(lib, src, c, chunks[0].hash, comp).carry, chunks[1..], comp);
    }
  }

  lemma {:induction false} FilesIndexed(lib: Lib, src: Store, c: Carry, files: seq<FileEntry>, comp: Compression)
    requires AllIndexed(c)
    ensures AllIndexed(SendFiles(lib, src, c, files, comp).carry)
    decreases |files|
  {
    hide SendChunks;
    if files != [] {
      ChunksIndexed(lib, src, c, files[0].manifest.chunks, comp);
      FilesIndexed(lib, src, SendChunks(lib, src, c, files[0].manifest.chunks, comp).carry, files[1..], comp);
    }
  }

  lemma {:induction false} AllRowsIndexed(lib: Lib, src: Store, r: Run, rows: seq<Snapshot>, comp: Compression)
    requires AllIndexed(r.carry)
    ensures AllIndexed(SendAll(lib, src, r, rows, comp).run.carry)
    decreases |rows|
  {
    hide SendFiles, Fingerprint, Restamp;
    if rows != [] {
      FilesIndexed(lib, src, r.carry, rows[0].files, comp);
      AllRowsIndexed(lib, src, SendSnapshot(lib, src, r, rows[0], comp).run, rows[1..], comp);
    }
  }

  /**
   * Whatever the state of either store, a run that succeeds leaves nothing out: each digest that
   * an added row refers to has a row in the destination's index.
   */
  lemma NothingLeftOut(lib: Lib, src: Store, dst: Store, snaps: map<nat, Snapshot>, nextId: nat,
                       rows: seq<Snapshot>, comp: Compression)
    requires forall id :: id in snaps ==> id < nextId
    ensures var end := SendAll(lib, src, Begin(lib, dst, snaps, nextId), rows, comp);
      end.error.None? ==> NewHashes(snaps, end.run.snaps) <= end.run.carry.store.index.Keys
  {
    hide SendAll, FileHashes, Prints;
    assert NewHashes(snaps, snaps) == {};
    MetAll(lib, src, snaps, Begin(lib, dst, snaps, nextId), rows, comp);
    AllRowsIndexed(lib, src, Begin(lib, dst, snaps, nextId), rows, comp);
  }

  /** When a chunk that has to be copied fails the run, and how: exactly as reading it from the source fails. */
  lemma SendFails(lib: Lib, src: Store, c: Carry, h: Hash, comp: Compression)
    requires h !in c.codecOf && h !in c.store.index && c.store.active in c.store.packs && c.store.size < lib.rollover
    ensures var r, s := Get(lib, src.index, src.packs, h), SendChunk(lib, src, c, h, comp);
      && (s.error.None? <==> r.Ok? && r.value.Some?)
      && (r.Err? ==> s.error == Some(r.error)) && (r == Ok(None) ==> s.error == Some(MissingChunk(h)))
      && (s.error.Some? ==> s.carry == c)
  {
    hide Get, Encode, EncodeLocator, DecodeLocator;
  }

  // ----- the whole run ------------------------------------------------------------------

  ghost predicate Backed(src: Store, rows: seq<Snapshot>) {
    forall s :: s in rows ==> FileHashes(s.files) <= src.index.Keys
  }

  lemma {:induction false} AllGood(lib: Lib, src: Store, s0: Store, snaps0: map<nat, Snapshot>, r: Run,
                                   done: seq<Snapshot>, rows: seq<Snapshot>, comp: Compression)
    requires Lossless(lib) && RowsInv(lib, src.index, src.packs) && Backed(src, rows)
    requires RunGood(lib, src, s0, snaps0, r, done) && Fresh(lib, r.carry.store, AllChunkCount(rows))
    ensures var end := SendAll(lib, src, r, rows, comp);
      end.error.None? && RunGood(lib, src, s0, snaps0, end.run, done + rows)
    decreases |rows|
  {
    hide Lossless, RowsInv, RunGood, SendSnapshot, FileHashes, Fresh;
    if rows == [] {
      assert done + rows == done;
    } else {
      SnapshotGood(lib, src, s0, snaps0, r, done, rows[0], comp, AllChunkCount(rows[1..]));
      var next := SendSnapshot(lib, src, r, rows[0], comp);
      assert done + [rows[0]] + rows[1..] == done + rows;
      AllGood(lib, src, s0, snaps0, next.run, done + [rows[0]], rows[1..], comp);
    }
  }

  /**
   * A run between sound repositories succeeds; afterwards the destination's fingerprints are
   * the union of both sides'; every source snapshot was copied or skipped; every row added is
   * a faithful copy whose codecs are the ones the destination's index holds; nothing the
   * destination had is changed; each index row added is one chunk reported as copied, with the
   * bytes of its text; and the chunks reported are the digests the added rows refer to.
   */
  lemma ReplicationFaithful(lib: Lib, src: Store, dst: Store, snaps: map<nat, Snapshot>, nextId: nat,
                            rows: seq<Snapshot>, comp: Compression)
    requires Lossless(lib) && RowsInv(lib, src.index, src.packs) && Backed(src, rows)
    requires StoreInv(lib, dst) && Fresh(lib, dst, AllChunkCount(rows))
    requires KeysMatch(snaps) && forall id :: id in snaps ==> id < nextId
    ensures var end := SendAll(lib, src, Begin(lib, dst, snaps, nextId), rows, comp);
      var now := end.run.carry.store;
      && end.error.None?
      && StoreInv(lib, now)
      && Prints(lib, end.run.snaps) == Prints(lib, snaps) + RowPrints(lib, rows)
      && end.run.copied + end.run.skipped == |rows|
      && |end.run.snaps| == |snaps| + end.run.copied
      && end.run.carry.copied == |now.index| - |dst.index|
      && end.run.carry.present + end.run.carry.copied == |NewHashes(snaps, end.run.snaps)|
      && TextBytes(Abs(lib, now.index, now.packs)) == TextBytes(Abs(lib, dst.index, dst.packs)) + end.run.carry.bytes
      && Grows(snaps, end.run.snaps)
      && Grows(dst.index, now.index)
      && Grows(Abs(lib, dst.index, dst.packs), Abs(lib, now.index, now.packs))
      && From(Abs(lib, now.index, now.packs), Abs(lib, dst.index, dst.packs), Abs(lib, src.index, src.packs))
      && forall id :: id in end.run.snaps && id !in snaps ==> CopyOf(now.index, rows, end.run.snaps[id])
  {
    hide Lossless, RowsInv, SendAll, FileHashes, Fresh, StoreInv, Abs, Fingerprint, Prints, RowPrints, CopyOf, From,
         Grows;
    hide AllChunkCount, Backed;
    RunStart(lib, src, dst, snaps, nextId);
    assert AllChunkCount(rows) == AllChunkCount(rows) + 0;
    AllGood(lib, src, dst, snaps, Begin(lib, dst, snaps, nextId), [], rows, comp);
    assert [] + rows == rows;
    assert NewHashes(snaps, snaps) == {};
    MetAll(lib, src, snaps, Begin(lib, dst, snaps, nextId), rows, comp);
    CountMet(SendAll(lib, src, Begin(lib, dst, snaps, nextId), rows, comp).run.carry.codecOf);
  }

  lemma CountMet(codecOf: map<Hash, Codec>)
    ensures |codecOf| == |codecOf.Keys|
  {
  }

  /** A second run straight after the first, even across edits of annotations on both sides. */
  lemma SecondRunCopiesNothing(lib: Lib, src: Store, dst: Store, snaps: map<nat, Snapshot>, nextId: nat,
                               rows: seq<Snapshot>, comp: Compression,
                               src': Store, dst': Store, edited: map<nat, Snapshot>, rows': seq<Snapshot>, nextId': nat)
    requires SendAll(lib, src, Begin(lib, dst, snaps, nextId), rows, comp).error.None?
    requires StoreInv(lib, dst) && Lossless(lib) && RowsInv(lib, src.index, src.packs) && Backed(src, rows)
    requires Fresh(lib, dst, AllChunkCount(rows)) && KeysMatch(snaps) && forall id :: id in snaps ==> id < nextId
    requires var now := SendAll(lib, src, Begin(lib, dst, snaps, nextId), rows, comp).run.snaps;
      edited.Keys == now.Keys && forall id :: id in now ==> SameCapture(edited[id], now[id])
    requires |rows'| == |rows| && forall i :: 0 <= i < |rows| ==> SameCapture(rows'[i], rows[i])
    ensures var again := SendAll(lib, src', Begin(lib, dst', edited, nextId'), rows', comp);
      && again.error.None? && again.run.copied == 0 && again.run.skipped == |rows'|
      && again.run.carry == Carry(dst', map[], 0, 0, 0) && again.run.snaps == edited
  {
    hide Lossless, RowsInv, SendAll, FileHashes, Fresh, StoreInv, Abs, CopyOf, From, Grows, SameCapture, Probe,
         AllChunkCount;
    ReplicationFaithful(lib, src, dst, snaps, nextId, rows, comp);
    var now := SendAll(lib, src, Begin(lib, dst, snaps, nextId), rows, comp).run.snaps;
    EditedPrints(lib, edited, now);
    forall i | 0 <= i < |rows| ensures Fingerprint(lib, rows'[i]) in Prints(lib, edited) {
      ProbeIffSameCapture(rows'[i], rows[i]);
      assert rows[i] in rows;
      assert Fingerprint(lib, rows[i]) in RowPrints(lib, rows);
    }
    AllSeen(lib, src', Begin(lib, dst', edited, nextId'), rows', comp);
  }

  lemma EditedPrints(lib: Lib, a: map<nat, Snapshot>, b: map<nat, Snapshot>)
    requires a.Keys == b.Keys && forall id :: id in b ==> SameCapture(a[id], b[id])
    ensures Prints(lib, a) == Prints(lib, b)
  {
    hide SameCapture, Probe;
    forall id | id in b ensures Fingerprint(lib, a[id]) == Fingerprint(lib, b[id]) {
      ProbeIffSameCapture(a[id], b[id]);
    }
    forall f | f in Prints(lib, b) ensures f in Prints(lib, a) {
      var id :| id in b && Fingerprint(lib, b[id]) == f;
      assert id in a;
    }
    forall f | f in Prints(lib, a) ensures f in Prints(lib, b) {
      var id :| id in a && Fingerprint(lib, a[id]) == f;
      assert id in b;
    }
  }

  /** No two captures on either side share a fingerprint without sharing a probe. */
  ghost predicate PrintsApart(lib: Lib, all: set<Snapshot>) {
    forall a, b :: a in all && b in all && Fingerprint(lib, a) == Fingerprint(lib, b) ==> SameCapture(a, b)
  }

  /** Every source snapshot ends up at the destination as the same capture. */
  lemma EverySnapshotArrives(lib: Lib, src: Store, dst: Store, snaps: map<nat, Snapshot>, nextId: nat,
                             rows: seq<Snapshot>, comp: Compression, s: Snapshot)
    requires Lossless(lib) && RowsInv(lib, src.index, src.packs) && Backed(src, rows)
    requires StoreInv(lib, dst) && Fresh(lib, dst, AllChunkCount(rows))
    requires KeysMatch(snaps) && forall id :: id in snaps ==> id < nextId
    requires s in rows
    ensures var now := SendAll(lib, src, Begin(lib, dst, snaps, nextId), rows, comp).run.snaps;
      PrintsApart(lib, now.Values + {s}) ==> exists id :: id in now && SameCapture(now[id], s)
  {
    hide Lossless, RowsInv, SendAll, FileHashes, Fresh, StoreInv, Abs, CopyOf, From, Grows, Fingerprint, SameCapture;
    ReplicationFaithful(lib, src, dst, snaps, nextId, rows, comp);
    var now := SendAll(lib, src, Begin(lib, dst, snaps, nextId), rows, comp).run.snaps;
    if PrintsApart(lib, now.Values + {s}) {
      assert Fingerprint(lib, s) in RowPrints(lib, rows);
      var id :| id in now && Fingerprint(lib, now[id]) == Fingerprint(lib, s);
      assert now[id] in now.Values;
    }
  }

  /** A delivered file reads back from the destination as the bytes it has at the source. */
  lemma {:induction false} DeliveredReads(lib: Lib, src: Store, now: Store, from: seq<ChunkRef>, to: seq<ChunkRef>,
                                          dst: Store)
    requires RowsInv(lib, src.index, src.packs) && RowsInv(lib, now.index, now.packs)
    requires |to| == |from| && forall i :: 0 <= i < |to| ==> DeliveredRef(now.index, from[i], to[i])
    requires forall c :: c in from ==> c.hash in src.index
    requires From(Abs(lib, now.index, now.packs), Abs(lib, dst.index, dst.packs), Abs(lib, src.index, src.packs))
    requires CollisionFree(lib, Abs(lib, dst.index, dst.packs).Values + Abs(lib, src.index, src.packs).Values)
    ensures Materialise(lib, now.index, now.packs, to) == Materialise(lib, src.index, src.packs, from)
    decreases |to|
  {
    hide RowsInv, Abs, From, Get, Loc, CollisionFree;
    if to != [] {
      assert DeliveredRef(now.index, from[0], to[0]);
      SameText(lib, src, now, dst, from[0].hash);
      forall i | 0 <= i < |to[1..]| ensures DeliveredRef(now.index, from[1..][i], to[1..][i]) {
        assert DeliveredRef(now.index, from[i + 1], to[i + 1]);
      }
      DeliveredReads(lib, src, now, from[1..], to[1..], dst);
    }
  }

  lemma SameText(lib: Lib, src: Store, now: Store, dst: Store, h: Hash)
    requires RowsInv(lib, src.index, src.packs) && RowsInv(lib, now.index, now.packs)
    requires h in src.index && h in now.index
    requires From(Abs(lib, now.index, now.packs), Abs(lib, dst.index, dst.packs), Abs(lib, src.index, src.packs))
    requires CollisionFree(lib, Abs(lib, dst.index, dst.packs).Values + Abs(lib, src.index, src.packs).Values)
    ensures Get(lib, now.index, now.packs, h) == Get(lib, src.index, src.packs, h)
  {
    hide RowsInv, Abs, Get;
    GetRefines(lib, src.index, src.packs, h);
    GetRefines(lib, now.index, now.packs, h);
    var a, b, m := Abs(lib, dst.index, dst.packs), Abs(lib, src.index, src.packs), Abs(lib, now.index, now.packs);
    assert b[h] in b.Values;
    assert h in a && a[h] == m[h] ==> m[h] in a.Values;
  }

  /**
   * Every snapshot copied by a run restores, file by file, to exactly the bytes it restores
   * to at the source, whatever compression the destination uses.
   */
  lemma CopiesRestoreTheSame(lib: Lib, src: Store, dst: Store, snaps: map<nat, Snapshot>, nextId: nat,
                             rows: seq<Snapshot>, comp: Compression, id: nat)
    requires Lossless(lib) && RowsInv(lib, src.index, src.packs) && Backed(src, rows)
    requires StoreInv(lib, dst) && Fresh(lib, dst, AllChunkCount(rows))
    requires KeysMatch(snaps) && forall id :: id in snaps ==> id < nextId
    requires CollisionFree(lib, Abs(lib, dst.index, dst.packs).Values + Abs(lib, src.index, src.packs).Values)
    requires id in SendAll(lib, src, Begin(lib, dst, snaps, nextId), rows, comp).run.snaps && id !in snaps
    ensures var run := SendAll(lib, src, Begin(lib, dst, snaps, nextId), rows, comp).run;
      var now := run.carry.store;
      exists i :: 0 <= i < |rows| && RestoresAs(lib, src, rows[i].files, now, run.snaps[id].files)
  {
    hide Lossless, RowsInv, SendAll, FileHashes, Fresh, Abs, From, Grows, Prints, RowPrints, CollisionFree, RestoresAs;
    hide Delivered, ActiveInv;
    ReplicationFaithful(lib, src, dst, snaps, nextId, rows, comp);
    var run := SendAll(lib, src, Begin(lib, dst, snaps, nextId), rows, comp).run;
    var now := run.carry.store;
    assert CopyOf(now.index, rows, run.snaps[id]);
    var i :| 0 <= i < |rows| && Copied(now.index, rows[i], run.snaps[id]);
    assert rows[i] in rows;
    DeliveredRestores(lib, src, dst, now, rows[i].files, run.snaps[id].files);
  }

  /** File by file the same path and the same reading. */
  ghost predicate RestoresAs(lib: Lib, src: Store, from: seq<FileEntry>, now: Store, to: seq<FileEntry>) {
    && |to| == |from|
    && forall i :: 0 <= i < |to| ==>
      && to[i].path == from[i].path
      && Materialise(lib, now.index, now.packs, to[i].manifest.chunks)
         == Materialise(lib, src.index, src.packs, from[i].manifest.chunks)
  }

  lemma DeliveredRestores(lib: Lib, src: Store, dst: Store, now: Store, from: seq<FileEntry>, to: seq<FileEntry>)
    requires RowsInv(lib, src.index, src.packs) && RowsInv(lib, now.index, now.packs)
    requires Delivered(now.index, from, to) && FileHashes(from) <= src.index.Keys
    requires From(Abs(lib, now.index, now.packs), Abs(lib, dst.index, dst.packs), Abs(lib, src.index, src.packs))
    requires CollisionFree(lib, Abs(lib, dst.index, dst.packs).Values + Abs(lib, src.index, src.packs).Values)
    ensures RestoresAs(lib, src, from, now, to)
  {
    hide RowsInv, Abs, From, CollisionFree, Materialise, DeliveredRef;
    forall i | 0 <= i < |to|
      ensures to[i].path == from[i].path
      ensures Materialise(lib, now.index, now.packs, to[i].manifest.chunks)
         == Materialise(lib, src.index, src.packs, from[i].manifest.chunks)
    {
      assert DeliveredFile(now.index, from[i], to[i]);
      forall c | c in from[i].manifest.chunks ensures c.hash in src.index {
        assert from[i] in from;
        assert c.hash in FileHashes(from);
      }
      DeliveredReads(lib, src, now, from[i].manifest.chunks, to[i].manifest.chunks, dst);
    }
  }
}
