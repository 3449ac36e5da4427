/** What a verification pass reports, said without the pass: which damage is named, and which is not. */
module Diagnosis {
  import opened Base
  import opened Types
  import opened Library
  import opened StoreState
  import opened VerifyRepair

  /** Is this chunk unusable, and how: by the index alone, or by reading it. */
  ghost predicate Ails(lib: Lib, index: map<Hash, Bytes>, packs: map<Uuid, Bytes>, level: Level, h: Hash,
                       kind: DamageKind) {
    (h !in index && kind == Missing) ||
    (level.ReadData? && Get(lib, index, packs, h).Err? && kind == Corrupt)
  }

  /** Every chunk can be read, but together they do not have the file's digest. */
  ghost predicate Mismatched(lib: Lib, index: map<Hash, Bytes>, packs: map<Uuid, Bytes>, m: Manifest) {
    exists pieces: seq<Bytes> ::
      && |pieces| == |m.chunks|
      && (forall i :: 0 <= i < |pieces| ==> Get(lib, index, packs, m.chunks[i].hash) == Ok(Some(pieces[i])))
      && lib.hash(Flatten(pieces)) != m.fileHash
  }

  /** Damage of one file: a chunk of it that ails, or, when reading, the file as a whole. */
  ghost predicate Suffers(lib: Lib, index: map<Hash, Bytes>, packs: map<Uuid, Bytes>, level: Level, m: Manifest,
                          hash: Option<Hash>, kind: DamageKind) {
    match hash
    case Some(h) => (exists c :: c in m.chunks && c.hash == h) && Ails(lib, index, packs, level, h, kind)
    case None => level.ReadData? && kind == FileHashMismatch && Mismatched(lib, index, packs, m)
  }

  /** A file of a selected snapshot suffers from it. */
  ghost predicate Damaged(lib: Lib, index: map<Hash, Bytes>, packs: map<Uuid, Bytes>, level: Level,
                          only: Option<nat>, rows: seq<Snapshot>, d: Damage) {
    exists s, f :: s in rows && (only.None? || s.id == only.value) && f in s.files
      && d.snapshotId == s.id && d.path == f.path
      && Suffers(lib, index, packs, level, f.manifest, d.hash, d.kind)
  }

  // ----- one chunk --------------------------------------------------------------------

  lemma FaultIs(lib: Lib, index: map<Hash, Bytes>, packs: map<Uuid, Bytes>, level: Level, h: Hash, kind: DamageKind)
    ensures ChunkFault(lib, index, packs, level, h) == Some(kind) <==> Ails(lib, index, packs, level, h, kind)
  {
    GetExactly(lib, index, packs, h);
  }

  lemma OneFault(lib: Lib, index: map<Hash, Bytes>, packs: map<Uuid, Bytes>, level: Level, id: nat, path: string,
                 h: Hash, d: Damage)
    ensures d in DamageOf(lib, index, packs, level, id, path, h)
      <==> d.snapshotId == id && d.path == path && d.hash == Some(h) && Ails(lib, index, packs, level, h, d.kind)
  {
    hide Ails, ChunkFault;
    FaultIs(lib, index, packs, level, h, d.kind);
  }

  lemma {:induction false} ChunksTold(lib: Lib, index: map<Hash, Bytes>, packs: map<Uuid, Bytes>, level: Level,
                                      id: nat, path: string, chunks: seq<ChunkRef>, d: Damage)
    ensures d in ChunkDamage(lib, index, packs, level, id, path, chunks)
      <==> d.snapshotId == id && d.path == path && d.hash.Some? && (exists c :: c in chunks && c.hash == d.hash.value)
           && Ails(lib, index, packs, level, d.hash.value, d.kind)
  {
    hide Ails, DamageOf;
    if chunks != [] {
      OneFault(lib, index, packs, level, id, path, chunks[0].hash, d);
      ChunksTold(lib, index, packs, level, id, path, chunks[1..], d);
      assert forall c :: c in chunks <==> c == chunks[0] || c in chunks[1..];
    }
  }

  // ----- one file ---------------------------------------------------------------------

  /** What the whole-file hasher is fed, when every chunk can be read. */
  lemma {:induction false} ReadPieces(lib: Lib, index: map<Hash, Bytes>, packs: map<Uuid, Bytes>,
                                      chunks: seq<ChunkRef>, pieces: seq<Bytes>)
    requires |pieces| == |chunks|
    requires forall i :: 0 <= i < |pieces| ==> Get(lib, index, packs, chunks[i].hash) == Ok(Some(pieces[i]))
    ensures ReadBytes(lib, index, packs, chunks) == Flatten(pieces)
  {
    hide Get;
    if chunks != [] {
      ReadPieces(lib, index, packs, chunks[1..], pieces[1..]);
    }
  }

  lemma ReadableChunks(lib: Lib, index: map<Hash, Bytes>, packs: map<Uuid, Bytes>, id: nat, path: string,
                       chunks: seq<ChunkRef>)
    ensures ChunkDamage(lib, index, packs, ReadData, id, path, chunks) == []
      <==> forall i :: 0 <= i < |chunks| ==>
             Get(lib, index, packs, chunks[i].hash).Ok? && Get(lib, index, packs, chunks[i].hash).value.Some?
  {
    hide Get;
    NoChunkDamage(lib, index, packs, ReadData, id, path, chunks);
  }

  lemma MismatchTold(lib: Lib, index: map<Hash, Bytes>, packs: map<Uuid, Bytes>, id: nat, f: FileEntry)
    ensures Mismatched(lib, index, packs, f.manifest)
      <==> && ChunkDamage(lib, index, packs, ReadData, id, f.path, f.manifest.chunks) == []
           && lib.hash(ReadBytes(lib, index, packs, f.manifest.chunks)) != f.manifest.fileHash
  {
    hide Get, ReadBytes, ChunkDamage, Flatten;
    var chunks := f.manifest.chunks;
    ReadableChunks(lib, index, packs, id, f.path, chunks);
    if Mismatched(lib, index, packs, f.manifest) {
      var pieces: seq<Bytes> :|
        && |pieces| == |chunks|
        && (forall i :: 0 <= i < |pieces| ==> Get(lib, index, packs, chunks[i].hash) == Ok(Some(pieces[i])))
        && lib.hash(Flatten(pieces)) != f.manifest.fileHash;
      assert forall i :: 0 <= i < |chunks| ==> Get(lib, index, packs, chunks[i].hash) == Ok(Some(pieces[i]));
      ReadPieces(lib, index, packs, chunks, pieces);
    }
    if ChunkDamage(lib, index, packs, ReadData, id, f.path, chunks) == [] {
      var pieces := seq(|chunks|, i requires 0 <= i < |chunks| => Get(lib, index, packs, chunks[i].hash).value.value);
      ReadPieces(lib, index, packs, chunks, pieces);
    }
  }

  lemma FileTold(lib: Lib, index: map<Hash, Bytes>, packs: map<Uuid, Bytes>, level: Level, id: nat, f: FileEntry,
                 d: Damage)
    ensures d in FileDamage(lib, index, packs, level, id, f)
      <==> d.snapshotId == id && d.path == f.path && Suffers(lib, index, packs, level, f.manifest, d.hash, d.kind)
  {
    hide Ails, Mismatched, ChunkDamage, ReadBytes;
    ChunksTold(lib, index, packs, level, id, f.path, f.manifest.chunks, d);
    MismatchTold(lib, index, packs, id, f);
  }

  // ----- the whole report -----------------------------------------------------------------

  lemma {:induction false} FilesTold(lib: Lib, index: map<Hash, Bytes>, packs: map<Uuid, Bytes>, level: Level,
                                     id: nat, files: seq<FileEntry>, d: Damage)
    ensures d in FilesDamage(lib, index, packs, level, id, files)
      <==> exists f :: f in files && d.snapshotId == id && d.path == f.path
                       && Suffers(lib, index, packs, level, f.manifest, d.hash, d.kind)
  {
    hide Suffers, FileDamage;
    if files != [] {
      FileTold(lib, index, packs, level, id, files[0], d);
      FilesTold(lib, index, packs, level, id, files[1..], d);
      assert forall f :: f in files <==> f == files[0] || f in files[1..];
    }
  }

  /** A report names exactly the damage there is: none of it is missed, none is made up, and none is elsewhere. */
  lemma {:induction false} ReportExactly(lib: Lib, index: map<Hash, Bytes>, packs: map<Uuid, Bytes>, level: Level,
                                         only: Option<nat>, rows: seq<Snapshot>, d: Damage)
    ensures d in CatalogDamage(lib, index, packs, level, only, rows)
      <==> Damaged(lib, index, packs, level, only, rows, d)
  {
    hide Suffers, FilesDamage;
    if rows != [] {
      FilesTold(lib, index, packs, level, rows[0].id, rows[0].files, d);
      ReportExactly(lib, index, packs, level, only, rows[1..], d);
      assert forall s :: s in rows <==> s == rows[0] || s in rows[1..];
    }
  }

  /** At the metadata level: exactly the references of selected snapshots that have no index row. */
  lemma MetadataReport(lib: Lib, index: map<Hash, Bytes>, packs: map<Uuid, Bytes>, only: Option<nat>,
                       rows: seq<Snapshot>, id: nat, path: string, h: Hash, kind: DamageKind)
    ensures Damage(id, path, Some(h), kind) in CatalogDamage(lib, index, packs, Metadata, only, rows)
      <==> && kind == Missing && h !in index
           && exists s, f, c :: s in rows && (only.None? || s.id == only.value) && s.id == id
                && f in s.files && f.path == path && c in f.manifest.chunks && c.hash == h
  {
    ReportExactly(lib, index, packs, Metadata, only, rows, Damage(id, path, Some(h), kind));
  }

  // ----- how often ------------------------------------------------------------------------

  predicate Ill(lib: Lib, index: map<Hash, Bytes>, packs: map<Uuid, Bytes>, level: Level, h: Hash) {
    h !in index || (level.ReadData? && Get(lib, index, packs, h).Err?)
  }

  lemma IllIs(lib: Lib, index: map<Hash, Bytes>, packs: map<Uuid, Bytes>, level: Level, id: nat, path: string, h: Hash)
    ensures var d := DamageOf(lib, index, packs, level, id, path, h);
      if Ill(lib, index, packs, level, h) then |d| == 1 && d[0].hash == Some(h) else d == []
  {
    GetExactly(lib, index, packs, h);
  }

  /** The positions of a file's ailing references, in order. */
  ghost function IllAt(lib: Lib, index: map<Hash, Bytes>, packs: map<Uuid, Bytes>, level: Level,
                       chunks: seq<ChunkRef>): (at: seq<nat>)
    ensures forall k :: k in at <==> 0 <= k < |chunks| && Ill(lib, index, packs, level, chunks[k].hash)
    ensures forall i :: 0 <= i < |at| ==> at[i] < |chunks|
    ensures forall i, j :: 0 <= i < j < |at| ==> at[i] < at[j]
  {
    if chunks == [] then []
    else
      var n := |chunks| - 1;
      var front := IllAt(lib, index, packs, level, chunks[..n]);
      assert forall i :: 0 <= i < |front| ==> front[i] < n;
      if Ill(lib, index, packs, level, chunks[n].hash) then front + [n] else front
  }

  lemma {:induction false} ChunkDamageLast(lib: Lib, index: map<Hash, Bytes>, packs: map<Uuid, Bytes>, level: Level,
                                           id: nat, path: string, chunks: seq<ChunkRef>)
    requires chunks != []
    ensures var n := |chunks| - 1;
      ChunkDamage(lib, index, packs, level, id, path, chunks)
        == ChunkDamage(lib, index, packs, level, id, path, chunks[..n])
           + DamageOf(lib, index, packs, level, id, path, chunks[n].hash)
  {
    hide DamageOf;
    if |chunks| > 1 {
      ChunkDamageLast(lib, index, packs, level, id, path, chunks[1..]);
      assert chunks[1..][..|chunks| - 2] == chunks[..|chunks| - 1][1..];
    }
  }

  lemma IllAtLast(lib: Lib, index: map<Hash, Bytes>, packs: map<Uuid, Bytes>, level: Level, chunks: seq<ChunkRef>)
    requires chunks != []
    ensures var n: nat := |chunks| - 1;
      IllAt(lib, index, packs, level, chunks)
        == IllAt(lib, index, packs, level, chunks[..n])
           + if Ill(lib, index, packs, level, chunks[n].hash) then [n] else []
  {
    hide Ill;
  }

  /** The i-th entry is about the i-th position. */
  ghost predicate Names(d: seq<Damage>, at: seq<nat>, chunks: seq<ChunkRef>) {
    |d| == |at| && forall i :: 0 <= i < |at| ==> at[i] < |chunks| && d[i].hash == Some(chunks[at[i]].hash)
  }

  lemma NamesMore(d: seq<Damage>, at: seq<nat>, chunks: seq<ChunkRef>, more: seq<Damage>, ill: bool)
    requires chunks != [] && Names(d, at, chunks[..|chunks| - 1])
    requires if ill then |more| == 1 && more[0].hash == Some(chunks[|chunks| - 1].hash) else more == []
    ensures Names(d + more, at + (if ill then [|chunks| - 1] else []), chunks)
  {
  }

  /** Each ailing reference of a file is named once, in manifest order. */
  lemma {:induction false} NamedOnce(lib: Lib, index: map<Hash, Bytes>, packs: map<Uuid, Bytes>, level: Level,
                                     id: nat, path: string, chunks: seq<ChunkRef>)
    ensures Names(ChunkDamage(lib, index, packs, level, id, path, chunks), IllAt(lib, index, packs, level, chunks),
                  chunks)
  {
    hide Ill, DamageOf, IllAt, Names;
    if chunks == [] {
      NothingNamed(lib, index, packs, level);
    } else {
      hide ChunkDamage;
      var n := |chunks| - 1;
      NamedOnce(lib, index, packs, level, id, path, chunks[..n]);
      ChunkDamageLast(lib, index, packs, level, id, path, chunks);
      IllAtLast(lib, index, packs, level, chunks);
      IllIs(lib, index, packs, level, id, path, chunks[n].hash);
      NamesMore(ChunkDamage(lib, index, packs, level, id, path, chunks[..n]),
                IllAt(lib, index, packs, level, chunks[..n]), chunks,
                DamageOf(lib, index, packs, level, id, path, chunks[n].hash),
                Ill(lib, index, packs, level, chunks[n].hash));
    }
  }

  lemma NothingNamed(lib: Lib, index: map<Hash, Bytes>, packs: map<Uuid, Bytes>, level: Level)
    ensures Names([], IllAt(lib, index, packs, level, []), [])
  {
  }
}
