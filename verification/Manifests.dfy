/** File manifests: chunking a file into the store, and reading it back whole or in part. */
module Manifests {
  import opened Base
  import opened Types
  import opened Locators
  import opened Library
  import opened StoreState
  import opened Compaction

  // ----- writing --------------------------------------------------------------

  datatype IngestStats = IngestStats(chunksTotal: nat, chunksNew: nat, chunksDedup: nat, bytesNew: nat, bytesDedup: nat)

  const NO_STATS := IngestStats(0, 0, 0, 0, 0)

  function Count(stats: IngestStats, present: bool, len: nat): IngestStats {
    if present then stats.(chunksDedup := stats.chunksDedup + 1, bytesDedup := stats.bytesDedup + len)
    else stats.(chunksNew := stats.chunksNew + 1, bytesNew := stats.bytesNew + len)
  }

  datatype Ingested = Ingested(store: Store, stats: IngestStats, result: Result<seq<ChunkRef>>)

  /**
   * Put the pieces of a file one by one. `stats` and `refs` are what came before; the refs
   * carry the codec the store reports for each chunk.
   */
  function PutAll(lib: Lib, s: Store, pieces: seq<Bytes>, comp: Compression,
                  stats: IngestStats, refs: seq<ChunkRef>, offset: nat): Ingested
    decreases |pieces|
  {
    if pieces == [] then Ingested(s, stats, Ok(refs))
    else
      var p := pieces[0];
      var h := lib.hash(p);
      var (t, r) := Put(lib, s, h, p, comp);
      match r
      case Err(e) => Ingested(t, stats, Err(e))
      case Ok(codec) =>
        PutAll(lib, t, pieces[1..], comp, Count(stats, h in s.index, |p|),
               refs + [ChunkRef(h, offset, |p|, codec)], offset + |p|)
  }

  function IngestPieces(lib: Lib, s: Store, pieces: seq<Bytes>, comp: Compression): Ingested {
    PutAll(lib, s, pieces, comp, NO_STATS.(chunksTotal := |pieces|), [], 0)
  }

  /** The chunk refs tile the file from `base` on. */
  predicate TilesFrom(chunks: seq<ChunkRef>, base: nat) {
    chunks == [] || (chunks[0].offset == base && TilesFrom(chunks[1..], base + chunks[0].len))
  }

  function SumLens(chunks: seq<ChunkRef>): nat {
    if chunks == [] then 0 else chunks[0].len + SumLens(chunks[1..])
  }

  predicate Tiled(m: Manifest) {
    TilesFrom(m.chunks, 0) && SumLens(m.chunks) == m.size
  }

  lemma {:induction false} TilesSnoc(chunks: seq<ChunkRef>, base: nat, c: ChunkRef)
    requires TilesFrom(chunks, base) && c.offset == base + SumLens(chunks)
    ensures TilesFrom(chunks + [c], base) && SumLens(chunks + [c]) == SumLens(chunks) + c.len
  {
    if chunks == [] {
      assert chunks + [c] == [c];
    } else {
      assert (chunks + [c])[1..] == chunks[1..] + [c];
      TilesSnoc(chunks[1..], base + chunks[0].len, c);
    }
  }

  /** The hashes, lengths and codecs the refs must have for these pieces in this store. */
  ghost predicate RefsFor(lib: Lib, index: map<Hash, Bytes>, refs: seq<ChunkRef>, pieces: seq<Bytes>) {
    && |refs| == |pieces|
    && forall i :: 0 <= i < |refs| ==> RefFor(lib, index, refs[i], pieces[i])
  }

  ghost predicate RefFor(lib: Lib, index: map<Hash, Bytes>, c: ChunkRef, p: Bytes) {
    c.hash == lib.hash(p) && c.len == |p| && c.hash in index && c.codec == Loc(index[c.hash]).codec
  }

  /** Everything `m` maps, `n` maps the same way. */
  predicate Grows<K(==), V(==)>(m: map<K, V>, n: map<K, V>) {
    forall k :: k in m ==> k in n && n[k] == m[k]
  }

  lemma PutGrows(lib: Lib, s: Store, h: Hash, plain: Bytes, comp: Compression)
    ensures Grows(s.index, Put(lib, s, h, plain, comp).0.index)
    ensures Put(lib, s, h, plain, comp).0.index.Keys <= s.index.Keys + {h}
  {
    hide DecodeLocator, EncodeLocator, Encode;
  }

  lemma RefsGrow(lib: Lib, a: map<Hash, Bytes>, b: map<Hash, Bytes>, refs: seq<ChunkRef>, pieces: seq<Bytes>)
    requires RefsFor(lib, a, refs, pieces) && Grows(a, b)
    ensures RefsFor(lib, b, refs, pieces)
  {
    hide Loc;
    forall i | 0 <= i < |refs| ensures RefFor(lib, b, refs[i], pieces[i]) {
      assert RefFor(lib, a, refs[i], pieces[i]);
    }
  }

  ghost predicate Storable(pieces: seq<Bytes>) {
    forall p :: p in pieces ==> |p| < U32_LIMIT
  }

  /**
   * What putting a file's pieces establishes: it succeeds, keeps the invariant, disturbs
   * nothing, and the refs tile the file, name every piece, and carry the codec the index has.
   * The counters account for every byte and every row added.
   */
  ghost predicate IngestGood(lib: Lib, s: Store, done: seq<Bytes>, t: Ingested, total: nat) {
    && t.result.Ok?
    && GoodStore(lib, s, done, t.store)
    && GoodRefs(lib, t.store.index, t.result.value, done)
    && GoodStats(s.index, t.store.index, t.stats, done, total)
  }

  ghost predicate GoodStore(lib: Lib, s: Store, done: seq<Bytes>, t: Store) {
    && StoreInv(lib, t)
    && Extends(s.packs, t.packs)
    && t.manifests == s.manifests
    && Grows(s.index, t.index)
    && t.index.Keys == s.index.Keys + Digests(lib, done)
    && Grows(Abs(lib, s.index, s.packs), Abs(lib, t.index, t.packs))
    && Abs(lib, t.index, t.packs).Values <= Abs(lib, s.index, s.packs).Values + Texts(done)
  }

  function Texts(pieces: seq<Bytes>): set<Bytes> {
    set p | p in pieces
  }

  ghost predicate GoodRefs(lib: Lib, index: map<Hash, Bytes>, refs: seq<ChunkRef>, done: seq<Bytes>) {
    RefsFor(lib, index, refs, done) && TilesFrom(refs, 0) && SumLens(refs) == |Flatten(done)|
  }

  predicate GoodStats(before: map<Hash, Bytes>, after: map<Hash, Bytes>, stats: IngestStats, done: seq<Bytes>,
                      total: nat) {
    && stats.chunksTotal == total
    && stats.chunksNew + stats.chunksDedup == |done|
    && stats.chunksNew == |after| - |before|
    && stats.bytesNew + stats.bytesDedup == |Flatten(done)|
  }

  function Digests(lib: Lib, pieces: seq<Bytes>): set<Hash> {
    set p | p in pieces :: lib.hash(p)
  }

  lemma TextsSnoc(done: seq<Bytes>, p: Bytes)
    ensures Texts(done + [p]) == Texts(done) + {p}
  {
  }

  lemma DigestsSnoc(lib: Lib, done: seq<Bytes>, p: Bytes)
    ensures Digests(lib, done + [p]) == Digests(lib, done) + {lib.hash(p)}
  {
  }

  lemma IndexGrowth(lib: Lib, s: Store, h: Hash, plain: Bytes, comp: Compression)
    requires Put(lib, s, h, plain, comp).1.Ok?
    ensures var t := Put(lib, s, h, plain, comp).0;
      && h in t.index && t.index.Keys == s.index.Keys + {h}
      && |t.index| == |s.index| + (if h in s.index then 0 else 1)
  {
    hide DecodeLocator, EncodeLocator, Encode, AppendTo, RollIfFull, NextLocator;
    var t := Put(lib, s, h, plain, comp).0;
    PutGrows(lib, s, h, plain, comp);
    assert h in t.index;
    assert t.index.Keys == s.index.Keys + {h};
    CountKeys(s.index, t.index, h);
  }

  lemma CountKeys<V>(a: map<Hash, V>, b: map<Hash, V>, h: Hash)
    requires b.Keys == a.Keys + {h}
    ensures |b| == |a| + (if h in a then 0 else 1)
  {
    assert |b| == |b.Keys| && |a| == |a.Keys|;
    if h in a {
      assert b.Keys == a.Keys;
    }
  }

  lemma StoreSnoc(lib: Lib, s0: Store, s: Store, done: seq<Bytes>, p: Bytes, comp: Compression)
    requires Lossless(lib) && Fresh(lib, s, 1) && |p| < U32_LIMIT
    requires GoodStore(lib, s0, done, s)
    ensures Put(lib, s, lib.hash(p), p, comp).1.Ok?
    ensures GoodStore(lib, s0, done + [p], Put(lib, s, lib.hash(p), p, comp).0)
  {
    hide Put, StoreInv, Abs, Lossless, Fresh, Extends, Grows, Digests, Texts;
    var h := lib.hash(p);
    var t := Put(lib, s, h, p, comp).0;
    PutGood(lib, s, p, comp);
    DigestsSnoc(lib, done, p);
    TextsSnoc(done, p);
    ExtendsTransitive(s0.packs, s.packs, t.packs);
    GrowsTransitive(s0.index, s.index, t.index);
    GrowsTransitive(Abs(lib, s0.index, s0.packs), Abs(lib, s.index, s.packs), Abs(lib, t.index, t.packs));
  }

  lemma PutGood(lib: Lib, s: Store, p: Bytes, comp: Compression)
    requires Lossless(lib) && StoreInv(lib, s) && Fresh(lib, s, 1) && |p| < U32_LIMIT
    ensures var (t, r) := Put(lib, s, lib.hash(p), p, comp);
      && r.Ok? && StoreInv(lib, t) && Extends(s.packs, t.packs) && t.manifests == s.manifests
      && Grows(s.index, t.index) && t.index.Keys == s.index.Keys + {lib.hash(p)}
      && Grows(Abs(lib, s.index, s.packs), Abs(lib, t.index, t.packs))
      && Abs(lib, t.index, t.packs).Values <= Abs(lib, s.index, s.packs).Values + {p}
  {
    hide Put, StoreInv, Abs, Lossless, Fresh, Extends, Grows, Insert;
    PutRefines(lib, s, lib.hash(p), p, comp);
    PutGrows(lib, s, lib.hash(p), p, comp);
    IndexGrowth(lib, s, lib.hash(p), p, comp);
    InsertGrows(Abs(lib, s.index, s.packs), lib.hash(p), p);
  }

  lemma InsertGrows(m: map<Hash, Bytes>, h: Hash, p: Bytes)
    ensures Grows(m, Insert(m, h, p))
    ensures Insert(m, h, p).Values <= m.Values + {p}
  {
  }

  lemma RefsStep(lib: Lib, s: Store, refs: seq<ChunkRef>, done: seq<Bytes>, p: Bytes, comp: Compression)
    requires Lossless(lib) && StoreInv(lib, s) && Fresh(lib, s, 1) && |p| < U32_LIMIT
    requires GoodRefs(lib, s.index, refs, done)
    ensures var (t, r) := Put(lib, s, lib.hash(p), p, comp);
      r.Ok? && GoodRefs(lib, t.index, refs + [ChunkRef(lib.hash(p), |Flatten(done)|, |p|, r.value)], done + [p])
  {
    hide Put, StoreInv, Abs, Loc, Lossless, Fresh, Flatten, TilesFrom, SumLens, Extends, Grows, RefsFor;
    var h := lib.hash(p);
    PutRefines(lib, s, h, p, comp);
    PutGrows(lib, s, h, p, comp);
    var (t, r) := Put(lib, s, h, p, comp);
    var c := ChunkRef(h, |Flatten(done)|, |p|, r.value);
    RefsGrow(lib, s.index, t.index, refs, done);
    RefsSnoc(lib, t.index, refs, done, c, p);
    TilesSnoc(refs, 0, c);
    FlattenLast(done, p);
  }

  lemma {:induction false} PutAllKeeps(lib: Lib, s0: Store, s: Store, done: seq<Bytes>, pieces: seq<Bytes>,
                                       comp: Compression, stats: IngestStats, refs: seq<ChunkRef>, total: nat)
    requires Lossless(lib) && Fresh(lib, s, |pieces|) && Storable(pieces)
    requires IngestGood(lib, s0, done, Ingested(s, stats, Ok(refs)), total)
    ensures IngestGood(lib, s0, done + pieces, PutAll(lib, s, pieces, comp, stats, refs, |Flatten(done)|), total)
    decreases |pieces|
  {
    hide Put, IngestGood, StoreInv, Fresh, Count, Flatten;
    if pieces == [] {
      assert done + pieces == done;
    } else {
      var p := pieces[0];
      PutOne(lib, s0, s, done, p, comp, stats, refs, total, |pieces| - 1);
      FlattenLast(done, p);
      assert done + [p] + pieces[1..] == done + pieces;
      var (t, r) := Put(lib, s, lib.hash(p), p, comp);
      PutAllKeeps(lib, s0, t, done + [p], pieces[1..], comp, Count(stats, lib.hash(p) in s.index, |p|),
                  refs + [ChunkRef(lib.hash(p), |Flatten(done)|, |p|, r.value)], total);
    }
  }

  /** One step of the loop. */
  lemma PutOne(lib: Lib, s0: Store, s: Store, done: seq<Bytes>, p: Bytes, comp: Compression,
               stats: IngestStats, refs: seq<ChunkRef>, total: nat, n: nat)
    requires Lossless(lib) && Fresh(lib, s, n + 1) && |p| < U32_LIMIT
    requires IngestGood(lib, s0, done, Ingested(s, stats, Ok(refs)), total)
    ensures var (t, r) := Put(lib, s, lib.hash(p), p, comp);
      && r.Ok? && Fresh(lib, t, n)
      && IngestGood(lib, s0, done + [p],
           Ingested(t, Count(stats, lib.hash(p) in s.index, |p|),
                    Ok(refs + [ChunkRef(lib.hash(p), |Flatten(done)|, |p|, r.value)])), total)
  {
    hide Put, Lossless, Fresh, Flatten, GoodRefs, GoodStore, GoodStats, Count;
    FreshFewer(lib, s, n + 1, 1);
    GoodIsSound(lib, s0, done, s);
    StoreSnoc(lib, s0, s, done, p, comp);
    RefsStep(lib, s, refs, done, p, comp);
    PutFresh(lib, s, lib.hash(p), p, comp, n);
    StatsStep(lib, s0.index, s, done, p, comp, stats, total);
  }

  lemma GoodIsSound(lib: Lib, s0: Store, done: seq<Bytes>, s: Store)
    requires GoodStore(lib, s0, done, s)
    ensures StoreInv(lib, s)
  {
    hide StoreInv, Abs, Extends, Grows;
  }

  lemma StatsStep(lib: Lib, before: map<Hash, Bytes>, s: Store, done: seq<Bytes>, p: Bytes, comp: Compression,
                  stats: IngestStats, total: nat)
    requires GoodStats(before, s.index, stats, done, total) && Put(lib, s, lib.hash(p), p, comp).1.Ok?
    ensures GoodStats(before, Put(lib, s, lib.hash(p), p, comp).0.index, Count(stats, lib.hash(p) in s.index, |p|),
                      done + [p], total)
  {
    hide Put, Flatten;
    IndexGrowth(lib, s, lib.hash(p), p, comp);
    FlattenLast(done, p);
  }

  lemma RefsSnoc(lib: Lib, index: map<Hash, Bytes>, refs: seq<ChunkRef>, done: seq<Bytes>, c: ChunkRef, p: Bytes)
    requires RefsFor(lib, index, refs, done) && RefFor(lib, index, c, p)
    ensures RefsFor(lib, index, refs + [c], done + [p])
  {
    hide RefFor;
  }

  lemma GrowsSelf<K, V>(m: map<K, V>)
    ensures Grows(m, m)
  {
  }

  lemma GrowsTransitive<K, V>(a: map<K, V>, b: map<K, V>, c: map<K, V>)
    requires Grows(a, b) && Grows(b, c)
    ensures Grows(a, c)
  {
  }

  lemma IngestStart(lib: Lib, s: Store, total: nat)
    requires StoreInv(lib, s)
    ensures IngestGood(lib, s, [], Ingested(s, NO_STATS.(chunksTotal := total), Ok([])), total)
  {
    hide StoreInv, Abs;
    assert Digests(lib, []) == {} && Texts([]) == {};
  }

  /** Chunking a file into a sound store, from either chunker. */
  lemma IngestKeeps(lib: Lib, s: Store, pieces: seq<Bytes>, comp: Compression)
    requires Lossless(lib) && StoreInv(lib, s) && Fresh(lib, s, |pieces|) && Storable(pieces)
    ensures IngestGood(lib, s, pieces, IngestPieces(lib, s, pieces, comp), |pieces|)
  {
    hide StoreInv, Fresh, PutAll, IngestGood, Lossless;
    var start := Ingested(s, NO_STATS.(chunksTotal := |pieces|), Ok([]));
    IngestStart(lib, s, |pieces|);
    PutAllKeeps(lib, s, s, [], pieces, comp, start.stats, [], |pieces|);
    assert [] + pieces == pieces;
  }

  // ----- reading back -----------------------------------------------------------

  /** `materialise_file`: the first missing, corrupt or wrongly sized chunk aborts. */
  function Materialise(lib: Lib, index: map<Hash, Bytes>, packs: map<Uuid, Bytes>,
                       chunks: seq<ChunkRef>): Result<Bytes> {
    if chunks == [] then Ok([])
    else
      match Get(lib, index, packs, chunks[0].hash)
      case Err(e) => Err(e)
      case Ok(None) => Err(MissingChunk(chunks[0].hash))
      case Ok(Some(b)) =>
        if |b| != chunks[0].len then Err(CorruptChunk(chunks[0].hash))
        else
          match Materialise(lib, index, packs, chunks[1..])
          case Err(e) => Err(e)
          case Ok(rest) => Ok(b + rest)
  }

  /** Reading back depends only on what `get` answers for the file's own digests. */
  lemma {:induction false} MaterialiseSame(lib: Lib, i1: map<Hash, Bytes>, p1: map<Uuid, Bytes>,
                                           i2: map<Hash, Bytes>, p2: map<Uuid, Bytes>, chunks: seq<ChunkRef>)
    requires forall c :: c in chunks ==> Get(lib, i1, p1, c.hash) == Get(lib, i2, p2, c.hash)
    ensures Materialise(lib, i1, p1, chunks) == Materialise(lib, i2, p2, chunks)
  {
    hide Get;
    if chunks != [] {
      MaterialiseSame(lib, i1, p1, i2, p2, chunks[1..]);
    }
  }

  /** Pieces with the digests and the lengths the references record. */
  ghost predicate Matching(lib: Lib, chunks: seq<ChunkRef>, pieces: seq<Bytes>) {
    |pieces| == |chunks| &&
    forall i :: 0 <= i < |chunks| ==> lib.hash(pieces[i]) == chunks[i].hash && |pieces[i]| == chunks[i].len
  }

  /** `get` answers a digest with this piece. */
  ghost predicate Holds(lib: Lib, index: map<Hash, Bytes>, packs: map<Uuid, Bytes>, c: ChunkRef, p: Bytes) {
    Get(lib, index, packs, c.hash) == Ok(Some(p)) && c.len == |p|
  }

  /**
   * Whatever has happened to the store, a file that is handed out is put together from pieces
   * that have the recorded digests and lengths.
   */
  lemma {:induction false} MaterialiseHonest(lib: Lib, index: map<Hash, Bytes>, packs: map<Uuid, Bytes>,
                                             chunks: seq<ChunkRef>) returns (pieces: seq<Bytes>)
    requires Materialise(lib, index, packs, chunks).Ok?
    ensures Matching(lib, chunks, pieces) && Materialise(lib, index, packs, chunks).value == Flatten(pieces)
    ensures forall i :: 0 <= i < |chunks| ==> Holds(lib, index, packs, chunks[i], pieces[i])
  {
    hide Get;
    pieces := [];
    if chunks != [] {
      GetExactly(lib, index, packs, chunks[0].hash);
      var rest := MaterialiseHonest(lib, index, packs, chunks[1..]);
      pieces := [Get(lib, index, packs, chunks[0].hash).value.value] + rest;
      assert pieces[1..] == rest;
      forall i | 0 <= i < |chunks| ensures Holds(lib, index, packs, chunks[i], pieces[i]) {
        if i > 0 {
          assert Holds(lib, index, packs, chunks[1..][i - 1], rest[i - 1]);
        }
      }
    }
  }

  /** Why one chunk cannot be used, if it cannot. */
  function Fault(lib: Lib, index: map<Hash, Bytes>, packs: map<Uuid, Bytes>, c: ChunkRef): Option<StoreError> {
    var r := Get(lib, index, packs, c.hash);
    if r.Err? then Some(r.error)
    else if r.value.None? then Some(MissingChunk(c.hash))
    else if |r.value.value| != c.len then Some(CorruptChunk(c.hash))
    else None
  }

  /** A file that is not handed out fails with the fault of its first unusable chunk. */
  lemma {:induction false} MaterialiseFails(lib: Lib, index: map<Hash, Bytes>, packs: map<Uuid, Bytes>,
                                            chunks: seq<ChunkRef>) returns (k: nat)
    requires Materialise(lib, index, packs, chunks).Err?
    ensures k < |chunks| && Fault(lib, index, packs, chunks[k]) == Some(Materialise(lib, index, packs, chunks).error)
    ensures forall i :: 0 <= i < k ==> Fault(lib, index, packs, chunks[i]).None?
  {
    hide Get;
    k := 0;
    if Fault(lib, index, packs, chunks[0]).None? {
      var j := MaterialiseFails(lib, index, packs, chunks[1..]);
      k := j + 1;
      forall i | 0 <= i < k ensures Fault(lib, index, packs, chunks[i]).None? {
        if i > 0 {
          assert chunks[i] == chunks[1..][i - 1];
        }
      }
    }
  }

  lemma {:induction false} MaterialisePieces(lib: Lib, index: map<Hash, Bytes>, packs: map<Uuid, Bytes>,
                                             chunks: seq<ChunkRef>, pieces: seq<Bytes>)
    requires |chunks| == |pieces|
    requires forall i :: 0 <= i < |chunks| ==> Holds(lib, index, packs, chunks[i], pieces[i])
    ensures Materialise(lib, index, packs, chunks) == Ok(Flatten(pieces))
  {
    hide Get;
    if chunks != [] {
      assert Holds(lib, index, packs, chunks[0], pieces[0]);
      forall i | 0 <= i < |chunks[1..]| ensures Holds(lib, index, packs, chunks[1..][i], pieces[1..][i]) {
        assert Holds(lib, index, packs, chunks[i + 1], pieces[i + 1]);
      }
      MaterialisePieces(lib, index, packs, chunks[1..], pieces[1..]);
    }
  }

  /**
   * A file put into a sound store reads back as the original bytes, if none of its pieces
   * shares a digest with a different text already stored or with another piece.
   */
  lemma IngestThenMaterialise(lib: Lib, s: Store, pieces: seq<Bytes>, comp: Compression)
    requires Lossless(lib) && StoreInv(lib, s) && Fresh(lib, s, |pieces|) && Storable(pieces)
    requires CollisionFree(lib, Abs(lib, s.index, s.packs).Values + Texts(pieces))
    ensures var t := IngestPieces(lib, s, pieces, comp);
      t.result.Ok? && Materialise(lib, t.store.index, t.store.packs, t.result.value) == Ok(Flatten(pieces))
  {
    hide StoreInv, Abs, Lossless, Fresh, Get, IngestPieces, Flatten, Loc;
    IngestKeeps(lib, s, pieces, comp);
    var t := IngestPieces(lib, s, pieces, comp);
    var refs := t.result.value;
    forall i | 0 <= i < |refs| ensures Holds(lib, t.store.index, t.store.packs, refs[i], pieces[i]) {
      assert RefFor(lib, t.store.index, refs[i], pieces[i]);
      StoredText(lib, s, t.store, pieces, i, refs[i].hash);
    }
    MaterialisePieces(lib, t.store.index, t.store.packs, refs, pieces);
  }

  lemma StoredText(lib: Lib, s: Store, t: Store, pieces: seq<Bytes>, i: nat, h: Hash)
    requires GoodStore(lib, s, pieces, t) && i < |pieces| && h == lib.hash(pieces[i]) && h in t.index
    requires CollisionFree(lib, Abs(lib, s.index, s.packs).Values + Texts(pieces))
    ensures Get(lib, t.index, t.packs, h) == Ok(Some(pieces[i]))
  {
    hide Abs, RowsInv, Get, Extends, Grows;
    GetRefines(lib, t.index, t.packs, h);
    var m := Abs(lib, t.index, t.packs);
    assert m[h] in m.Values;
    assert pieces[i] in Texts(pieces);
  }

  // ----- range reads ------------------------------------------------------------

  /** The loop of `materialise_range` over the chunks, for a non-empty range. */
  function RangeChunks(lib: Lib, index: map<Hash, Bytes>, packs: map<Uuid, Bytes>, chunks: seq<ChunkRef>,
                       offset: nat, end: nat): Result<Bytes>
    requires offset <= end
    decreases |chunks|
  {
    if chunks == [] then Ok([])
    else
      var c := chunks[0];
      if c.offset + c.len <= offset || c.offset >= end then RangeChunks(lib, index, packs, chunks[1..], offset, end)
      else
        match Get(lib, index, packs, c.hash)
        case Err(e) => Err(e)
        case Ok(None) => Err(MissingChunk(c.hash))
        case Ok(Some(b)) =>
          if |b| != c.len then Err(CorruptChunk(c.hash))
          else
            var part := b[Max(offset, c.offset) - c.offset..Min(end, c.offset + c.len) - c.offset];
            match RangeChunks(lib, index, packs, chunks[1..], offset, end)
            case Err(e) => Err(e)
            case Ok(rest) => Ok(part + rest)
  }

  /**
   * `materialise_range`. The end is computed in 64 bits; when it wraps it falls before the
   * start, and sizing the output buffer overflows.
   */
  function MaterialiseRange(lib: Lib, index: map<Hash, Bytes>, packs: map<Uuid, Bytes>, m: Manifest,
                            offset: u64, len: u64): Result<Bytes> {
    if len == 0 || offset >= m.size then Ok([])
    else
      var end := Min((offset + len) % U64_LIMIT, m.size);
      if end < offset then Err(CapacityOverflow)
      else RangeChunks(lib, index, packs, m.chunks, offset, end)
  }

  /** The part of `d` between two positions, either of which may lie outside it. */
  function Slice(d: Bytes, a: int, b: int): Bytes
    requires a <= b
  {
    d[Max(0, Min(a, |d|))..Max(0, Min(b, |d|))]
  }

  lemma FrontSlice(x: Bytes, y: Bytes, lo: nat, hi: nat)
    requires lo <= hi <= |x|
    ensures (x + y)[lo..hi] == x[lo..hi]
  {
  }

  lemma BackSlice(x: Bytes, y: Bytes, lo: nat, hi: nat)
    requires |x| <= lo <= hi <= |x + y|
    ensures (x + y)[lo..hi] == y[lo - |x|..hi - |x|]
  {
  }

  lemma CrossSlice(x: Bytes, y: Bytes, lo: nat, hi: nat)
    requires lo <= |x| <= hi <= |x + y|
    ensures (x + y)[lo..hi] == x[lo..] + y[..hi - |x|]
  {
  }

  lemma SliceJoin(x: Bytes, y: Bytes, a: int, b: int)
    requires a <= b
    ensures Slice(x + y, a, b) == Slice(x, a, b) + Slice(y, a - |x|, b - |x|)
  {
    var lo, hi := Max(0, Min(a, |x + y|)), Max(0, Min(b, |x + y|));
    if hi <= |x| {
      FrontSlice(x, y, lo, hi);
      assert Slice(x, a, b) == x[lo..hi] && Slice(y, a - |x|, b - |x|) == [];
    } else if lo >= |x| {
      BackSlice(x, y, lo, hi);
      assert Slice(x, a, b) == [] && Slice(y, a - |x|, b - |x|) == y[lo - |x|..hi - |x|];
    } else {
      CrossSlice(x, y, lo, hi);
      assert Slice(x, a, b) == x[lo..] && Slice(y, a - |x|, b - |x|) == y[..hi - |x|];
    }
  }

  /** Joining one chunk's share of a range to the share of the chunks after it. */
  lemma SliceStep(b: Bytes, rest: Bytes, base: nat, offset: nat, end: nat)
    requires offset < end
    ensures Slice(b + rest, offset - base, end - base)
      == (if base + |b| <= offset || base >= end then []
          else b[Max(offset, base) - base..Min(end, base + |b|) - base])
         + Slice(rest, offset - (base + |b|), end - (base + |b|))
  {
    hide Slice;
    SliceJoin(b, rest, offset - base, end - base);
    SliceOfOne(b, base, offset, end);
  }

  /** The range and the chunk have a byte in common, or would have if the chunk had one. */
  predicate Meets(c: ChunkRef, offset: nat, end: nat) {
    c.offset + c.len > offset && c.offset < end
  }

  /** Pieces of the recorded lengths, those that the range meets as `get` answers them. */
  ghost predicate Touched(lib: Lib, index: map<Hash, Bytes>, packs: map<Uuid, Bytes>, chunks: seq<ChunkRef>,
                          pieces: seq<Bytes>, offset: nat, end: nat) {
    && |pieces| == |chunks|
    && forall i :: 0 <= i < |chunks| ==>
         && |pieces[i]| == chunks[i].len
         && (Meets(chunks[i], offset, end) ==> Holds(lib, index, packs, chunks[i], pieces[i]))
  }

  /** One chunk of a range read. */
  lemma RangeStep(lib: Lib, index: map<Hash, Bytes>, packs: map<Uuid, Bytes>, chunks: seq<ChunkRef>, b: Bytes,
                  offset: nat, end: nat)
    requires offset < end && chunks != [] && |b| == chunks[0].len
    requires Meets(chunks[0], offset, end) ==> Holds(lib, index, packs, chunks[0], b)
    requires RangeChunks(lib, index, packs, chunks[1..], offset, end).Ok?
    ensures var c := chunks[0];
      RangeChunks(lib, index, packs, chunks, offset, end)
      == Ok((if c.offset + |b| <= offset || c.offset >= end then []
             else b[Max(offset, c.offset) - c.offset..Min(end, c.offset + |b|) - c.offset])
            + RangeChunks(lib, index, packs, chunks[1..], offset, end).value)
  {
    hide Get;
    var rest := RangeChunks(lib, index, packs, chunks[1..], offset, end).value;
    assert [] + rest == rest;
  }

  /** A range read depends on the chunks it meets, and on no other. */
  lemma {:induction false} RangeIsSlice(lib: Lib, index: map<Hash, Bytes>, packs: map<Uuid, Bytes>,
                                        chunks: seq<ChunkRef>, pieces: seq<Bytes>, base: nat, offset: nat, end: nat)
    requires offset < end && TilesFrom(chunks, base) && Touched(lib, index, packs, chunks, pieces, offset, end)
    ensures RangeChunks(lib, index, packs, chunks, offset, end)
      == Ok(Slice(Flatten(pieces), offset - base, end - base))
    decreases |chunks|
  {
    hide Holds, Slice, RangeChunks, Meets;
    NoRange(lib, index, packs, chunks, offset, end);
    if chunks == [] {
      SliceOfNone(offset - base, end - base);
    } else {
      var b := pieces[0];
      RangeIsSlice(lib, index, packs, chunks[1..], pieces[1..], base + |b|, offset, end);
      RangeStep(lib, index, packs, chunks, b, offset, end);
      SliceStep(b, Flatten(pieces[1..]), base, offset, end);
    }
  }

  lemma NoRange(lib: Lib, index: map<Hash, Bytes>, packs: map<Uuid, Bytes>, chunks: seq<ChunkRef>, offset: nat,
                end: nat)
    requires offset < end
    ensures chunks == [] ==> RangeChunks(lib, index, packs, chunks, offset, end) == Ok([])
  {
  }

  /** A range read fails exactly when a chunk it meets is unusable, and with the fault of the first. */
  lemma {:induction false} RangeFails(lib: Lib, index: map<Hash, Bytes>, packs: map<Uuid, Bytes>,
                                      chunks: seq<ChunkRef>, offset: nat, end: nat) returns (k: nat)
    requires offset < end
    ensures k <= |chunks|
    ensures forall i :: 0 <= i < k && Meets(chunks[i], offset, end) ==> Fault(lib, index, packs, chunks[i]).None?
    ensures RangeChunks(lib, index, packs, chunks, offset, end).Ok? <==> k == |chunks|
    ensures k < |chunks| ==>
      && Meets(chunks[k], offset, end)
      && Fault(lib, index, packs, chunks[k]) == Some(RangeChunks(lib, index, packs, chunks, offset, end).error)
  {
    hide Get;
    k := 0;
    if chunks != [] && (Meets(chunks[0], offset, end) ==> Fault(lib, index, packs, chunks[0]).None?) {
      var j := RangeFails(lib, index, packs, chunks[1..], offset, end);
      k := j + 1;
      forall i | 0 <= i < k && Meets(chunks[i], offset, end) ensures Fault(lib, index, packs, chunks[i]).None? {
        if i > 0 {
          assert chunks[i] == chunks[1..][i - 1];
        }
      }
    }
  }

  lemma SliceOfNone(a: int, b: int)
    requires a <= b
    ensures Slice([], a, b) == []
  {
  }

  lemma SliceOfOne(b: Bytes, base: nat, offset: nat, end: nat)
    requires offset < end
    ensures base + |b| <= offset || base >= end ==> Slice(b, offset - base, end - base) == []
    ensures !(base + |b| <= offset || base >= end) ==>
      Slice(b, offset - base, end - base) == b[Max(offset, base) - base..Min(end, base + |b|) - base]
  {
  }

  lemma {:induction false} PiecesLength(chunks: seq<ChunkRef>, pieces: seq<Bytes>)
    requires |pieces| == |chunks| && forall i :: 0 <= i < |chunks| ==> |pieces[i]| == chunks[i].len
    ensures |Flatten(pieces)| == SumLens(chunks)
  {
    if chunks != [] {
      PiecesLength(chunks[1..], pieces[1..]);
    }
  }

  /** The bytes a range read of `d` should give, clamped at the end of the file. */
  function Wanted(d: Bytes, offset: nat, len: nat): Bytes {
    if offset >= |d| then [] else d[offset..Min(offset + len, |d|)]
  }

  /**
   * In any store, sound or damaged: a range read that does not run past 2^64 gives the slice of
   * the file if the chunks it meets can be read, whatever has become of the others.
   */
  lemma RangeTouches(lib: Lib, index: map<Hash, Bytes>, packs: map<Uuid, Bytes>, m: Manifest, offset: u64, len: u64,
                     pieces: seq<Bytes>)
    requires Tiled(m) && offset + len < U64_LIMIT
    requires Touched(lib, index, packs, m.chunks, pieces, offset, offset + len)
    ensures MaterialiseRange(lib, index, packs, m, offset, len) == Ok(Wanted(Flatten(pieces), offset, len))
  {
    hide Holds, TilesFrom, RangeChunks, SumLens, Flatten, Touched, Slice, Wanted;
    TouchedLengths(lib, index, packs, m.chunks, pieces, offset, offset + len);
    PiecesLength(m.chunks, pieces);
    SliceIsWanted(Flatten(pieces), offset, len);
    if len > 0 && offset < m.size {
      var end := Min(offset + len, m.size);
      TouchedLess(lib, index, packs, m.chunks, pieces, offset, offset + len, end);
      RangeIsSlice(lib, index, packs, m.chunks, pieces, 0, offset, end);
    }
  }

  lemma TouchedLengths(lib: Lib, index: map<Hash, Bytes>, packs: map<Uuid, Bytes>, chunks: seq<ChunkRef>,
                       pieces: seq<Bytes>, offset: nat, end: nat)
    requires Touched(lib, index, packs, chunks, pieces, offset, end)
    ensures |pieces| == |chunks| && forall i :: 0 <= i < |chunks| ==> |pieces[i]| == chunks[i].len
  {
    hide Holds;
  }

  lemma TouchedLess(lib: Lib, index: map<Hash, Bytes>, packs: map<Uuid, Bytes>, chunks: seq<ChunkRef>,
                    pieces: seq<Bytes>, offset: nat, far: nat, end: nat)
    requires Touched(lib, index, packs, chunks, pieces, offset, far) && end <= far
    ensures Touched(lib, index, packs, chunks, pieces, offset, end)
  {
    hide Holds;
  }

  lemma SliceIsWanted(d: Bytes, offset: nat, len: nat)
    ensures offset < |d| ==> Slice(d, offset, Min(offset + len, |d|)) == Wanted(d, offset, len)
    ensures len == 0 || offset >= |d| ==> Wanted(d, offset, len) == []
  {
  }

  /**
   * On a tiled manifest whose file reads back, a range read gives the slice of the file if and
   * only if the range is empty, starts past the end, or does not run past 2^64.
   */
  lemma RangeReads(lib: Lib, index: map<Hash, Bytes>, packs: map<Uuid, Bytes>, m: Manifest, offset: u64, len: u64)
    requires Tiled(m) && Materialise(lib, index, packs, m.chunks).Ok?
    ensures var d := Materialise(lib, index, packs, m.chunks).value;
      MaterialiseRange(lib, index, packs, m, offset, len) == Ok(Wanted(d, offset, len))
      <==> len == 0 || offset >= m.size || offset + len < U64_LIMIT
  {
    hide Holds, Matching, TilesFrom, RangeChunks, Materialise, SumLens, Flatten;
    var pieces := MaterialiseHonest(lib, index, packs, m.chunks);
    HeldLengths(lib, index, packs, m.chunks, pieces);
    PiecesLength(m.chunks, pieces);
    var d := Materialise(lib, index, packs, m.chunks).value;
    assert |d| == m.size;
    if len == 0 || offset >= m.size {
      assert Wanted(d, offset, len) == [];
    } else if offset + len < U64_LIMIT {
      RangeTouches(lib, index, packs, m, offset, len, pieces);
    } else {
      assert (offset + len) % U64_LIMIT == offset + len - U64_LIMIT;
    }
  }

  lemma HeldLengths(lib: Lib, index: map<Hash, Bytes>, packs: map<Uuid, Bytes>, chunks: seq<ChunkRef>,
                    pieces: seq<Bytes>)
    requires Matching(lib, chunks, pieces)
    ensures |pieces| == |chunks| && forall i :: 0 <= i < |chunks| ==> |pieces[i]| == chunks[i].len
  {
  }

  /** Trivial external functions, for a store small enough to write out. */
  function PlainLib(): Lib {
    Lib(b => Zeros(32), (level, b) => None, (b, n) => None, i => Zeros(16), 0, s => [])
  }

  /** A manifest of one two-byte chunk, and the index and the pack that hold it. */
  function TwoBytes(): (Manifest, map<Hash, Bytes>, map<Uuid, Bytes>) {
    (Manifest(Zeros(32), 2, [ChunkRef(Zeros(32), 0, 2, Raw)]),
     map[Zeros(32) := EncodeLocator(Locator(Zeros(16), 0, 2, 2, Raw))],
     map[Zeros(16) := [7, 9]])
  }

  /**
   * A failing input: on a file of the two bytes 7 and 9, asking from byte 1 for 2^64 - 1 bytes
   * wraps the end to 0 and fails, where the slice is the byte 9.
   */
  lemma RangeWraps()
    ensures var (m, index, packs) := TwoBytes();
      && Tiled(m) && Materialise(PlainLib(), index, packs, m.chunks) == Ok([7, 9])
      && Wanted([7, 9], 1, U64_LIMIT - 1) == [9]
      && MaterialiseRange(PlainLib(), index, packs, m, 1, U64_LIMIT - 1) == Err(CapacityOverflow)
  {
    hide EncodeLocator, DecodeLocator;
    var (m, index, packs) := TwoBytes();
    LocOfEncode(Locator(Zeros(16), 0, 2, 2, Raw));
    assert packs[Zeros(16)][0..2] == [7, 9];
    assert Get(PlainLib(), index, packs, Zeros(32)) == Ok(Some([7, 9]));
    assert m.chunks[1..] == [];
    assert Materialise(PlainLib(), index, packs, m.chunks[1..]) == Ok([]);
    assert [7 as byte, 9] + [] == [7, 9];
    assert (1 + (U64_LIMIT - 1)) % U64_LIMIT == 0;
  }

  /** Adjacent range reads join up into the enclosing one. */
  lemma AdjacentReads(lib: Lib, index: map<Hash, Bytes>, packs: map<Uuid, Bytes>, m: Manifest, offset: u64, a: u64,
                      b: u64)
    requires Tiled(m) && Materialise(lib, index, packs, m.chunks).Ok?
    requires offset + a + b < U64_LIMIT
    ensures
      var x := MaterialiseRange(lib, index, packs, m, offset, a);
      var y := MaterialiseRange(lib, index, packs, m, offset + a, b);
      x.Ok? && y.Ok? && MaterialiseRange(lib, index, packs, m, offset, a + b) == Ok(x.value + y.value)
  {
    hide Get, MaterialiseRange, Materialise, Tiled;
    RangeReads(lib, index, packs, m, offset, a);
    RangeReads(lib, index, packs, m, offset + a, b);
    RangeReads(lib, index, packs, m, offset, a + b);
    var d := Materialise(lib, index, packs, m.chunks).value;
    WantedJoin(d, offset, a, b);
  }

  lemma WantedJoin(d: Bytes, offset: nat, a: nat, b: nat)
    ensures Wanted(d, offset, a) + Wanted(d, offset + a, b) == Wanted(d, offset, a + b)
  {
  }
}
