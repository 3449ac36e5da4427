/** The canonical interchange form of a manifest, and its validation. */
module Cdr {
  import opened Base
  import opened Types
  import opened Manifests

  const SPEC_VERSION := 0
  const ALGO := "fastcdc-2020;min=524288;avg=1048576;max=4194304;hash=blake3-256"
  const HASH_LEN := 32

  datatype CdrChunkRef = CdrChunkRef(hash: Bytes, offset: nat, len: nat, codec: Codec)

  datatype CdrManifest = CdrManifest(
    specVersion: nat, algo: string, fileHash: Bytes, size: nat, chunks: seq<CdrChunkRef>)

  datatype CdrError = UnsupportedVersion(repo: nat) | BadAlgo | BadFileHash | BadChunkHash(i: nat)
    | BadOffset(j: nat) | BadSize

  datatype Checked<T> = Valid(value: T) | Invalid(error: CdrError)

  function FromRef(c: ChunkRef): CdrChunkRef {
    CdrChunkRef(c.hash, c.offset, c.len, c.codec)
  }

  function FromRefs(chunks: seq<ChunkRef>): seq<CdrChunkRef> {
    seq(|chunks|, i requires 0 <= i < |chunks| => FromRef(chunks[i]))
  }

  function FromManifest(m: Manifest): CdrManifest {
    CdrManifest(SPEC_VERSION, ALGO, m.fileHash, m.size, FromRefs(m.chunks))
  }

  predicate Hashes32(chunks: seq<CdrChunkRef>) {
    forall i :: 0 <= i < |chunks| ==> |chunks[i].hash| == HASH_LEN
  }

  function ToRefs(chunks: seq<CdrChunkRef>): seq<ChunkRef>
    requires Hashes32(chunks)
  {
    seq(|chunks|, i requires 0 <= i < |chunks| =>
      ChunkRef(chunks[i].hash, chunks[i].offset, chunks[i].len, chunks[i].codec))
  }

  predicate CdrTilesFrom(chunks: seq<CdrChunkRef>, base: nat) {
    chunks == [] || (chunks[0].offset == base && CdrTilesFrom(chunks[1..], base + chunks[0].len))
  }

  function CdrSum(chunks: seq<CdrChunkRef>): nat {
    if chunks == [] then 0 else chunks[0].len + CdrSum(chunks[1..])
  }

  /** Every invariant a reader must enforce. */
  predicate WellFormed(m: CdrManifest) {
    && m.specVersion <= SPEC_VERSION
    && m.algo == ALGO
    && |m.fileHash| == HASH_LEN
    && Hashes32(m.chunks)
    && CdrTilesFrom(m.chunks, 0)
    && CdrSum(m.chunks) == m.size
  }

  lemma {:induction false} TilesSplit(chunks: seq<CdrChunkRef>, i: nat, base: nat)
    requires i <= |chunks| && CdrTilesFrom(chunks, base)
    ensures CdrTilesFrom(chunks[i..], base + CdrSum(chunks[..i]))
    ensures i < |chunks| ==> chunks[i].offset == base + CdrSum(chunks[..i])
  {
    if i == 0 {
      assert chunks[0..] == chunks;
    } else {
      TilesSplit(chunks[1..], i - 1, base + chunks[0].len);
      assert chunks[1..][i - 1..] == chunks[i..];
      assert chunks[..i][1..] == chunks[1..][..i - 1];
    }
  }

  lemma {:induction false} CdrSumSnoc(chunks: seq<CdrChunkRef>, c: CdrChunkRef)
    ensures CdrSum(chunks + [c]) == CdrSum(chunks) + c.len
  {
    if chunks == [] {
      assert chunks + [c] == [c];
    } else {
      assert (chunks + [c])[1..] == chunks[1..] + [c];
      CdrSumSnoc(chunks[1..], c);
    }
  }

  lemma {:induction false} TilesJoin(chunks: seq<CdrChunkRef>, c: CdrChunkRef, base: nat)
    requires CdrTilesFrom(chunks, base) && c.offset == base + CdrSum(chunks)
    ensures CdrTilesFrom(chunks + [c], base)
  {
    if chunks == [] {
      assert chunks + [c] == [c];
    } else {
      assert (chunks + [c])[1..] == chunks[1..] + [c];
      TilesJoin(chunks[1..], c, base + chunks[0].len);
    }
  }

  /** The first `i` references are in order. */
  predicate GoodTo(m: CdrManifest, i: nat)
    requires i <= |m.chunks|
  {
    && m.specVersion <= SPEC_VERSION && m.algo == ALGO && |m.fileHash| == HASH_LEN
    && Hashes32(m.chunks[..i]) && CdrTilesFrom(m.chunks[..i], 0)
  }

  /** What a refusal says is wrong, and that nothing before it is. */
  predicate FirstFault(m: CdrManifest, e: CdrError) {
    match e
    case UnsupportedVersion(v) => v == m.specVersion > SPEC_VERSION
    case BadAlgo => m.specVersion <= SPEC_VERSION && m.algo != ALGO
    case BadFileHash => m.specVersion <= SPEC_VERSION && m.algo == ALGO && |m.fileHash| != HASH_LEN
    case BadChunkHash(i) => i < |m.chunks| && GoodTo(m, i) && |m.chunks[i].hash| != HASH_LEN
    case BadOffset(i) =>
      && i < |m.chunks| && GoodTo(m, i) && |m.chunks[i].hash| == HASH_LEN
      && m.chunks[i].offset != CdrSum(m.chunks[..i])
    case BadSize => GoodTo(m, |m.chunks|) && CdrSum(m.chunks) != m.size
  }

  /** The reader's check accepts exactly the well-formed manifests, and names the first fault of any other. */
  method Validate(m: CdrManifest) returns (r: Checked<()>)
    ensures r.Valid? <==> WellFormed(m)
    ensures r.Invalid? ==> FirstFault(m, r.error)
  {
    if m.specVersion > SPEC_VERSION { return Invalid(UnsupportedVersion(m.specVersion)); }
    if m.algo != ALGO { return Invalid(BadAlgo); }
    if |m.fileHash| != HASH_LEN { return Invalid(BadFileHash); }
    var cursor := 0;
    for i := 0 to |m.chunks|
      invariant Hashes32(m.chunks[..i])
      invariant CdrTilesFrom(m.chunks[..i], 0)
      invariant cursor == CdrSum(m.chunks[..i])
    {
      var c := m.chunks[i];
      if |c.hash| != HASH_LEN { return Invalid(BadChunkHash(i)); }
      if c.offset != cursor {
        if CdrTilesFrom(m.chunks, 0) {
          TilesSplit(m.chunks, i, 0);
        }
        return Invalid(BadOffset(i));
      }
      assert m.chunks[..i + 1] == m.chunks[..i] + [c];
      TilesJoin(m.chunks[..i], c, 0);
      CdrSumSnoc(m.chunks[..i], c);
      cursor := cursor + c.len;
    }
    assert m.chunks[..|m.chunks|] == m.chunks;
    if cursor != m.size { return Invalid(BadSize); }
    r := Valid(());
  }

  method ToManifest(c: CdrManifest) returns (r: Checked<Manifest>)
    ensures r.Valid? <==> WellFormed(c)
    ensures r.Valid? ==> r.value == Manifest(c.fileHash, c.size, ToRefs(c.chunks))
    ensures r.Invalid? ==> FirstFault(c, r.error)
  {
    var checked := Validate(c);
    if checked.Invalid? { return Invalid(checked.error); }
    r := Valid(Manifest(c.fileHash, c.size, ToRefs(c.chunks)));
  }

  lemma {:induction false} TilesAgree(chunks: seq<ChunkRef>, base: nat)
    ensures CdrTilesFrom(FromRefs(chunks), base) <==> TilesFrom(chunks, base)
    ensures CdrSum(FromRefs(chunks)) == SumLens(chunks)
  {
    if chunks != [] {
      assert FromRefs(chunks)[1..] == FromRefs(chunks[1..]);
      TilesAgree(chunks[1..], base + chunks[0].len);
    }
  }

  /**
   * An internal manifest survives the trip out and back if and only if its chunks tile the
   * file: an untiled one is refused, never altered.
   */
  lemma OutAndBack(m: Manifest)
    ensures WellFormed(FromManifest(m)) <==> Tiled(m)
    ensures Manifest(m.fileHash, m.size, ToRefs(FromManifest(m).chunks)) == m
  {
    TilesAgree(m.chunks, 0);
    assert ToRefs(FromRefs(m.chunks)) == m.chunks;
  }

  /** A well-formed interchange manifest survives the trip in and out. */
  lemma InAndOut(c: CdrManifest)
    requires WellFormed(c)
    ensures FromManifest(Manifest(c.fileHash, c.size, ToRefs(c.chunks))) == c
    ensures Tiled(Manifest(c.fileHash, c.size, ToRefs(c.chunks)))
  {
    assert FromRefs(ToRefs(c.chunks)) == c.chunks;
    TilesAgree(ToRefs(c.chunks), 0);
  }
}
