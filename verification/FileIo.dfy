/** The loops that move whole files in and out of a chunk store. */
module FileIo {
  import opened Base
  import opened Types
  import opened Library
  import opened StoreState
  import opened ChunkStores
  import opened Chunking
  import opened Manifests

  /** The manifest of a file made of these pieces. */
  function ManifestFor(lib: Lib, data: Bytes, refs: seq<ChunkRef>): Manifest {
    Manifest(lib.hash(data), |data|, refs)
  }

  function AsManifest(lib: Lib, data: Bytes, r: Result<seq<ChunkRef>>): Result<Manifest> {
    match r
    case Err(e) => Err(e)
    case Ok(refs) => Ok(ManifestFor(lib, data, refs))
  }

  lemma {:induction false} DescribeSlices(lib: Lib, pieces: seq<Bytes>, before: Bytes, data: Bytes)
    requires data == before + Flatten(pieces)
    ensures |Describe(lib, pieces, |before|)| == |pieces|
    ensures forall i :: 0 <= i < |pieces| ==>
      var d := Describe(lib, pieces, |before|)[i];
      d.offset + d.len <= |data| && data[d.offset..d.offset + d.len] == pieces[i]
      && d.hash == lib.hash(pieces[i]) && d.len == |pieces[i]|
  {
    if pieces != [] {
      assert data == before + pieces[0] + Flatten(pieces[1..]);
      DescribeSlices(lib, pieces[1..], before + pieces[0], data);
      assert data[|before|..|before| + |pieces[0]|] == pieces[0];
    }
  }

  /** Chunk a buffer, store every chunk, and build the manifest and the counters. */
  method ChunkIntoStore(store: ChunkStore, c: Cdc, bytes: Bytes, comp: Compression)
    returns (r: Result<Manifest>, stats: IngestStats)
    requires ValidCdc(c)
    modifies store
    ensures var t := IngestPieces(store.lib, old(store.State()), Cuts(c, bytes), comp);
      store.State() == t.store && stats == t.stats && r == AsManifest(store.lib, bytes, t.result)
  {
    hide Cuts, Put, Describe, Flatten, PutAt, PutAll;
    var fileHash := store.lib.hash(bytes);
    var cuts := ChunkBytes(store.lib, c, bytes);
    ghost var pieces := Cuts(c, bytes);
    CutsFlatten(c, bytes);
    PiecesDescribed(store.lib, bytes, pieces);
    stats := NO_STATS.(chunksTotal := |cuts|);
    var chunks: seq<ChunkRef> := [];
    ghost var all := IngestPieces(store.lib, store.State(), pieces, comp);
    var i := 0;
    assert pieces[0..] == pieces;
    NoPiecesYet(pieces);
    while i < |cuts|
      invariant 0 <= i <= |cuts|
      invariant all == PutAll(store.lib, store.State(), pieces[i..], comp, stats, chunks, |Flatten(pieces[..i])|)
    {
      var slice := bytes[cuts[i].offset..cuts[i].offset + cuts[i].len];
      PieceAt(store.lib, bytes, pieces, i);
      PutAllNext(store.lib, store.State(), pieces, i, comp, stats, chunks, |Flatten(pieces[..i])|);
      var present := cuts[i].hash in store.index;
      var codec := store.PutChunk(cuts[i].hash, slice, comp);
      if codec.Err? { return Err(codec.error), stats; }
      stats := Count(stats, present, cuts[i].len);
      chunks := chunks + [ChunkRef(cuts[i].hash, cuts[i].offset, cuts[i].len, codec.value)];
      i := i + 1;
    }
    PutAllNext(store.lib, store.State(), pieces, i, comp, stats, chunks, |bytes|);
    assert pieces[..i] == pieces;
    r := Ok(Manifest(fileHash, |bytes|, chunks));
  }

  /** What is left of an ingest, one piece further on. */
  lemma PutAllNext(lib: Lib, s: Store, pieces: seq<Bytes>, i: nat, comp: Compression, stats: IngestStats,
                   refs: seq<ChunkRef>, offset: nat)
    requires i <= |pieces|
    ensures PutAll(lib, s, pieces[i..], comp, stats, refs, offset)
      == if i == |pieces| then Ingested(s, stats, Ok(refs))
         else
           var h := lib.hash(pieces[i]);
           var put := Put(lib, s, h, pieces[i], comp);
           if put.1.Err? then Ingested(put.0, stats, Err(put.1.error))
           else
             PutAll(lib, put.0, pieces[i + 1..], comp, Count(stats, h in s.index, |pieces[i]|),
                    refs + [ChunkRef(h, offset, |pieces[i]|, put.1.value)], offset + |pieces[i]|)
  {
    hide Put, Count;
    if i < |pieces| {
      assert pieces[i..][0] == pieces[i] && pieces[i..][1..] == pieces[i + 1..];
    }
  }

  /** The delta-resume ingest: always uncompressed, and the manifest goes into the store's own table. */
  method IngestBytes(store: ChunkStore, c: Cdc, bytes: Bytes, key: string) returns (r: Result<(IngestStats, Manifest)>)
    requires ValidCdc(c)
    modifies store
    ensures var t := IngestPieces(store.lib, old(store.State()), Cuts(c, bytes), Off);
      match AsManifest(store.lib, bytes, t.result)
      case Err(e) => store.State() == t.store && r == Err(e)
      case Ok(m) => store.State() == t.store.(manifests := t.store.manifests[key := m]) && r == Ok((t.stats, m))
  {
    hide Cuts, IngestPieces;
    var m, stats := ChunkIntoStore(store, c, bytes, Off);
    if m.Err? { return Err(m.error); }
    store.PutManifest(key, m.value);
    r := Ok((stats, m.value));
  }

  lemma PiecesDescribed(lib: Lib, bytes: Bytes, pieces: seq<Bytes>)
    requires bytes == Flatten(pieces)
    ensures var cuts := Describe(lib, pieces, 0);
      |cuts| == |pieces| && forall i :: 0 <= i < |cuts| ==> cuts[i].offset + cuts[i].len <= |bytes|
  {
    hide Flatten, Describe;
    assert [] + Flatten(pieces) == bytes;
    DescribeSlices(lib, pieces, [], bytes);
  }

  /** The i-th cut describes the i-th piece. */
  lemma PieceAt(lib: Lib, bytes: Bytes, pieces: seq<Bytes>, i: nat)
    requires bytes == Flatten(pieces) && i < |pieces|
    ensures var cuts := Describe(lib, pieces, 0);
      && |cuts| == |pieces| && cuts[i].offset + cuts[i].len <= |bytes|
      && bytes[cuts[i].offset..cuts[i].offset + cuts[i].len] == pieces[i]
      && cuts[i] == Chunk(|Flatten(pieces[..i])|, |pieces[i]|, lib.hash(pieces[i]))
    ensures pieces[i..][0] == pieces[i] && pieces[i..][1..] == pieces[i + 1..]
    ensures |Flatten(pieces[..i + 1])| == |Flatten(pieces[..i])| + |pieces[i]|
  {
    hide Flatten, Describe;
    assert [] + Flatten(pieces) == bytes;
    DescribeSlices(lib, pieces, [], bytes);
    DescribeExactly(lib, pieces, 0, i);
    FlattenLast(pieces[..i], pieces[i]);
    assert pieces[..i] + [pieces[i]] == pieces[..i + 1];
  }

  lemma NoPiecesYet(pieces: seq<Bytes>)
    ensures |Flatten(pieces[..0])| == 0
  {
  }

  /** Stream a reader through the chunker into the store, tracking the absolute offset. */
  method IngestReader(store: ChunkStore, c: Cdc, reader: Reader, comp: Compression) returns (r: Result<Manifest>)
    requires ValidCdc(c) && reader.pos == 0 && reader.calls == 0
    modifies store, reader
    ensures var t := IngestPieces(store.lib, old(store.State()), Stream(c, reader.data, reader.plan), comp);
      store.State() == t.store && r == AsManifest(store.lib, reader.data, t.result)
  {
    hide Streamed, Put, Flatten, Matches, PutAt, PutAll;
    var descs, pieces, fileHash := ChunkReader(store.lib, c, reader);
    StreamedCovers(c, reader.data, reader.plan, 0, 0, false, 0);
    assert reader.data[0..] == reader.data;
    var chunks: seq<ChunkRef> := [];
    var offset := 0;
    ghost var stats := NO_STATS.(chunksTotal := |pieces|);
    ghost var all := IngestPieces(store.lib, store.State(), pieces, comp);
    var i := 0;
    assert pieces[0..] == pieces;
    NoPiecesYet(pieces);
    while i < |pieces|
      invariant 0 <= i <= |pieces|
      invariant offset == |Flatten(pieces[..i])|
      invariant all == PutAll(store.lib, store.State(), pieces[i..], comp, stats, chunks, offset)
    {
      MatchesAt(store.lib, descs, pieces, i);
      assert pieces[i..][0] == pieces[i] && pieces[i..][1..] == pieces[i + 1..];
      FlattenLast(pieces[..i], pieces[i]);
      assert pieces[..i] + [pieces[i]] == pieces[..i + 1];
      PutAllNext(store.lib, store.State(), pieces, i, comp, stats, chunks, offset);
      stats := Count(stats, descs[i].hash in store.index, descs[i].len);
      var codec := store.PutChunk(descs[i].hash, pieces[i], comp);
      if codec.Err? { return Err(codec.error); }
      chunks := chunks + [ChunkRef(descs[i].hash, offset, descs[i].len, codec.value)];
      offset := offset + descs[i].len;
      i := i + 1;
    }
    assert pieces[..i] == pieces;
    PutAllNext(store.lib, store.State(), pieces, i, comp, stats, chunks, offset);
    r := Ok(Manifest(fileHash, offset, chunks));
  }

  lemma MatchesAt(lib: Lib, chunks: seq<Chunk>, pieces: seq<Bytes>, i: nat)
    requires Matches(lib, chunks, pieces) && i < |pieces|
    ensures i < |chunks| && chunks[i].len == |pieces[i]| && chunks[i].hash == lib.hash(pieces[i])
  {
  }

  /** Reassemble a file from its manifest, in order. */
  method MaterialiseFile(store: ChunkStore, m: Manifest) returns (r: Result<Bytes>)
    ensures r == Materialise(store.lib, store.index, store.packs, m.chunks)
    ensures r.Ok? ==> exists pieces :: Matching(store.lib, m.chunks, pieces) && r.value == Flatten(pieces)
  {
    hide Get;
    var out: Bytes := [];
    var i := 0;
    ghost var all := Materialise(store.lib, store.index, store.packs, m.chunks);
    assert m.chunks[0..] == m.chunks;
    NothingWritten(all);
    while i < |m.chunks|
      invariant 0 <= i <= |m.chunks|
      invariant all == After(out, Materialise(store.lib, store.index, store.packs, m.chunks[i..]))
    {
      var c := m.chunks[i];
      assert m.chunks[i..][0] == c && m.chunks[i..][1..] == m.chunks[i + 1..];
      var got := store.GetChunk(c.hash);
      if got.Err? { return Err(got.error); }
      if got.value.None? { return Err(MissingChunk(c.hash)); }
      if |got.value.value| != c.len { return Err(CorruptChunk(c.hash)); }
      AfterStep(out, got.value.value, Materialise(store.lib, store.index, store.packs, m.chunks[i + 1..]));
      out := out + got.value.value;
      i := i + 1;
    }
    assert out + [] == out;
    r := Ok(out);
    ghost var pieces := MaterialiseHonest(store.lib, store.index, store.packs, m.chunks);
  }

  function After(out: Bytes, rest: Result<Bytes>): Result<Bytes> {
    if rest.Ok? then Ok(out + rest.value) else rest
  }

  lemma AfterStep(out: Bytes, b: Bytes, rest: Result<Bytes>)
    ensures After(out, After(b, rest)) == After(out + b, rest)
  {
    if rest.Ok? {
      assert out + (b + rest.value) == out + b + rest.value;
    }
  }

  lemma NothingWritten(all: Result<Bytes>)
    ensures all == After([], all)
  {
    if all.Ok? {
      assert [] + all.value == all.value;
    }
  }

  /** Read part of a file, touching only the chunks that overlap it. */
  method MaterialiseRangeOf(store: ChunkStore, m: Manifest, offset: u64, len: u64) returns (r: Result<Bytes>)
    ensures r == MaterialiseRange(store.lib, store.index, store.packs, m, offset, len)
  {
    hide Get, RangeChunks;
    if len == 0 || offset >= m.size { return Ok([]); }
    var end := Min((offset + len) % U64_LIMIT, m.size);
    if end < offset { return Err(CapacityOverflow); }
    var out: Bytes := [];
    ghost var all := RangeChunks(store.lib, store.index, store.packs, m.chunks, offset, end);
    assert m.chunks[0..] == m.chunks;
    NothingWritten(all);
    for i := 0 to |m.chunks|
      invariant all == After(out, RangeChunks(store.lib, store.index, store.packs, m.chunks[i..], offset, end))
    {
      var c := m.chunks[i];
      RangeNext(store.lib, store.index, store.packs, m.chunks, i, offset, end);
      if c.offset + c.len <= offset || c.offset >= end { continue; }
      var got := store.GetChunk(c.hash);
      if got.Err? { return Err(got.error); }
      if got.value.None? { return Err(MissingChunk(c.hash)); }
      var bytes := got.value.value;
      if |bytes| != c.len { return Err(CorruptChunk(c.hash)); }
      var from := Max(offset, c.offset) - c.offset;
      var to := Min(end, c.offset + c.len) - c.offset;
      AfterStep(out, bytes[from..to], RangeChunks(store.lib, store.index, store.packs, m.chunks[i + 1..], offset, end));
      out := out + bytes[from..to];
    }
    RangeNext(store.lib, store.index, store.packs, m.chunks, |m.chunks|, offset, end);
    assert out + [] == out;
    r := Ok(out);
  }

  /** What is left of a range read, one chunk further on. */
  lemma RangeNext(lib: Lib, index: map<Hash, Bytes>, packs: map<Uuid, Bytes>, chunks: seq<ChunkRef>, i: nat,
                  offset: nat, end: nat)
    requires i <= |chunks| && offset <= end
    ensures RangeChunks(lib, index, packs, chunks[i..], offset, end)
      == if i == |chunks| then Ok([])
         else
           var c, rest := chunks[i], RangeChunks(lib, index, packs, chunks[i + 1..], offset, end);
           if c.offset + c.len <= offset || c.offset >= end then rest
           else
             var f := Fault(lib, index, packs, c);
             if f.Some? then Err(f.value)
             else
               var b := Get(lib, index, packs, c.hash).value.value;
               After(b[Max(offset, c.offset) - c.offset..Min(end, c.offset + c.len) - c.offset], rest)
  {
    hide Get;
    if i < |chunks| {
      assert chunks[i..][0] == chunks[i] && chunks[i..][1..] == chunks[i + 1..];
    }
  }
}
