/** Integrity verification of the catalog against the store, and quarantine repair. */
module VerifyRepair {
  import opened Base
  import opened Types
  import opened Library
  import opened StoreState
  import opened Gc
  import opened Manifests
  import opened Catalog

  datatype Level = Metadata | ReadData

  datatype DamageKind = Missing | Corrupt | FileHashMismatch

  /** `hash` is absent for a whole-file mismatch. */
  datatype Damage = Damage(snapshotId: nat, path: string, hash: Option<Hash>, kind: DamageKind)

  datatype VerifyReport = VerifyReport(snapshotsChecked: nat, filesChecked: nat, chunksChecked: nat,
                                       damage: seq<Damage>)

  /** What is wrong with one chunk, if anything. */
  function ChunkFault(lib: Lib, index: map<Hash, Bytes>, packs: map<Uuid, Bytes>, level: Level,
                      h: Hash): Option<DamageKind> {
    match level
    case Metadata => if Locate(index, h) == Ok(None) then Some(Missing) else None
    case ReadData =>
      match Get(lib, index, packs, h)
      case Ok(Some(_)) => None
      case Ok(None) => Some(Missing)
      case Err(_) => Some(Corrupt)
  }

  /** The chunk-level damage of a file, in manifest order. */
  function ChunkDamage(lib: Lib, index: map<Hash, Bytes>, packs: map<Uuid, Bytes>, level: Level,
                       id: nat, path: string, chunks: seq<ChunkRef>): seq<Damage> {
    if chunks == [] then []
    else
      DamageOf(lib, index, packs, level, id, path, chunks[0].hash)
      + ChunkDamage(lib, index, packs, level, id, path, chunks[1..])
  }

  function DamageOf(lib: Lib, index: map<Hash, Bytes>, packs: map<Uuid, Bytes>, level: Level,
                    id: nat, path: string, h: Hash): seq<Damage> {
    match ChunkFault(lib, index, packs, level, h)
    case None => []
    case Some(k) => [Damage(id, path, Some(h), k)]
  }

  /** The bytes the whole-file hasher is fed: every chunk that could be read. */
  function ReadBytes(lib: Lib, index: map<Hash, Bytes>, packs: map<Uuid, Bytes>, chunks: seq<ChunkRef>): Bytes {
    if chunks == [] then []
    else
      (match Get(lib, index, packs, chunks[0].hash)
       case Ok(Some(b)) => b
       case _ => [])
      + ReadBytes(lib, index, packs, chunks[1..])
  }

  function FileDamage(lib: Lib, index: map<Hash, Bytes>, packs: map<Uuid, Bytes>, level: Level, id: nat,
                      f: FileEntry): seq<Damage> {
    var d := ChunkDamage(lib, index, packs, level, id, f.path, f.manifest.chunks);
    if level.ReadData? && d == [] && lib.hash(ReadBytes(lib, index, packs, f.manifest.chunks)) != f.manifest.fileHash
    then [Damage(id, f.path, None, FileHashMismatch)]
    else d
  }

  function FilesDamage(lib: Lib, index: map<Hash, Bytes>, packs: map<Uuid, Bytes>, level: Level, id: nat,
                       files: seq<FileEntry>): seq<Damage> {
    if files == [] then []
    else FileDamage(lib, index, packs, level, id, files[0]) + FilesDamage(lib, index, packs, level, id, files[1..])
  }

  function CatalogDamage(lib: Lib, index: map<Hash, Bytes>, packs: map<Uuid, Bytes>, level: Level,
                         only: Option<nat>, rows: seq<Snapshot>): seq<Damage> {
    if rows == [] then []
    else DamageIn(lib, index, packs, level, only, rows[0]) + CatalogDamage(lib, index, packs, level, only, rows[1..])
  }

  /** The damage of one catalog row, if the pass looks at it. */
  function DamageIn(lib: Lib, index: map<Hash, Bytes>, packs: map<Uuid, Bytes>, level: Level,
                    only: Option<nat>, row: Snapshot): seq<Damage> {
    if only.Some? && row.id != only.value then []
    else FilesDamage(lib, index, packs, level, row.id, row.files)
  }

  // ----- what a clean report means ------------------------------------------------

  /** Every chunk can be read and the concatenation has the recorded digest. */
  ghost predicate FileSound(lib: Lib, index: map<Hash, Bytes>, packs: map<Uuid, Bytes>, m: Manifest) {
    && (forall c :: c in m.chunks ==> Get(lib, index, packs, c.hash).Ok? && Get(lib, index, packs, c.hash).value.Some?)
    && lib.hash(ReadBytes(lib, index, packs, m.chunks)) == m.fileHash
  }

  lemma {:induction false} NoChunkDamage(lib: Lib, index: map<Hash, Bytes>, packs: map<Uuid, Bytes>, level: Level,
                                         id: nat, path: string, chunks: seq<ChunkRef>)
    ensures ChunkDamage(lib, index, packs, level, id, path, chunks) == []
      <==> forall c :: c in chunks ==> ChunkFault(lib, index, packs, level, c.hash).None?
  {
    hide ChunkFault;
    if chunks != [] {
      NoChunkDamage(lib, index, packs, level, id, path, chunks[1..]);
      assert forall c :: c in chunks <==> c == chunks[0] || c in chunks[1..];
    }
  }

  lemma FileClean(lib: Lib, index: map<Hash, Bytes>, packs: map<Uuid, Bytes>, id: nat, f: FileEntry)
    ensures FileDamage(lib, index, packs, ReadData, id, f) == [] <==> FileSound(lib, index, packs, f.manifest)
  {
    hide Get, ReadBytes;
    NoChunkDamage(lib, index, packs, ReadData, id, f.path, f.manifest.chunks);
  }

  lemma {:induction false} FilesClean(lib: Lib, index: map<Hash, Bytes>, packs: map<Uuid, Bytes>, level: Level,
                                      id: nat, files: seq<FileEntry>)
    ensures FilesDamage(lib, index, packs, level, id, files) == []
      <==> forall f :: f in files ==> FileDamage(lib, index, packs, level, id, f) == []
  {
    hide FileDamage;
    if files != [] {
      FilesClean(lib, index, packs, level, id, files[1..]);
      assert forall f :: f in files <==> f == files[0] || f in files[1..];
    }
  }

  lemma {:induction false} CatalogClean(lib: Lib, index: map<Hash, Bytes>, packs: map<Uuid, Bytes>, level: Level,
                                        rows: seq<Snapshot>)
    ensures CatalogDamage(lib, index, packs, level, None, rows) == []
      <==> forall s :: s in rows ==> FilesDamage(lib, index, packs, level, s.id, s.files) == []
  {
    hide FilesDamage;
    if rows != [] {
      CatalogClean(lib, index, packs, level, rows[1..]);
      assert forall s :: s in rows <==> s == rows[0] || s in rows[1..];
    }
  }

  /** Each chunk's recorded length is the length of the text it reads back as. */
  ghost predicate LengthsAgree(lib: Lib, index: map<Hash, Bytes>, packs: map<Uuid, Bytes>, chunks: seq<ChunkRef>) {
    forall c :: c in chunks ==> match Get(lib, index, packs, c.hash)
      case Ok(Some(b)) => |b| == c.len
      case _ => true
  }

  /** Reading back succeeds exactly when every chunk is readable at its recorded length. */
  lemma {:induction false} MaterialiseIff(lib: Lib, index: map<Hash, Bytes>, packs: map<Uuid, Bytes>,
                                          chunks: seq<ChunkRef>)
    ensures Materialise(lib, index, packs, chunks).Ok? <==>
      && (forall c :: c in chunks ==> Get(lib, index, packs, c.hash).Ok? && Get(lib, index, packs, c.hash).value.Some?)
      && LengthsAgree(lib, index, packs, chunks)
    ensures Materialise(lib, index, packs, chunks).Ok? ==>
      Materialise(lib, index, packs, chunks).value == ReadBytes(lib, index, packs, chunks)
  {
    hide Get;
    if chunks != [] {
      MaterialiseIff(lib, index, packs, chunks[1..]);
      assert forall c :: c in chunks <==> c == chunks[0] || c in chunks[1..];
    }
  }

  /** Every file of every row reads back with its recorded lengths, where it reads back at all. */
  ghost predicate LengthsHonest(lib: Lib, index: map<Hash, Bytes>, packs: map<Uuid, Bytes>, rows: seq<Snapshot>) {
    forall s, f :: s in rows && f in s.files ==> LengthsAgree(lib, index, packs, f.manifest.chunks)
  }

  /**
   * Every file of every snapshot materialises to bytes with its recorded digest if and only if a
   * full read-data verification reports nothing and the recorded chunk lengths are honest, which
   * the verification does not look at.
   */
  lemma CleanIffRestorable(lib: Lib, index: map<Hash, Bytes>, packs: map<Uuid, Bytes>, rows: seq<Snapshot>)
    ensures
      CatalogDamage(lib, index, packs, ReadData, None, rows) == [] && LengthsHonest(lib, index, packs, rows)
      <==> forall s, f :: s in rows && f in s.files ==> Restores(lib, index, packs, f.manifest)
  {
    hide Get, ReadBytes, FileDamage, LengthsAgree, Materialise, FileSound, Restores;
    CatalogClean(lib, index, packs, ReadData, rows);
    forall s | s in rows
      ensures FilesDamage(lib, index, packs, ReadData, s.id, s.files) == []
        <==> forall f :: f in s.files ==> FileSound(lib, index, packs, f.manifest)
    {
      FilesClean(lib, index, packs, ReadData, s.id, s.files);
      forall f | f in s.files
        ensures FileDamage(lib, index, packs, ReadData, s.id, f) == [] <==> FileSound(lib, index, packs, f.manifest)
      {
        FileClean(lib, index, packs, s.id, f);
      }
    }
    forall s, f | s in rows && f in s.files
      ensures FileSound(lib, index, packs, f.manifest) && LengthsAgree(lib, index, packs, f.manifest.chunks)
        <==> Restores(lib, index, packs, f.manifest)
    {
      SoundRestores(lib, index, packs, f.manifest);
    }
  }

  ghost predicate Restores(lib: Lib, index: map<Hash, Bytes>, packs: map<Uuid, Bytes>, m: Manifest) {
    var r := Materialise(lib, index, packs, m.chunks);
    r.Ok? && lib.hash(r.value) == m.fileHash
  }

  lemma SoundRestores(lib: Lib, index: map<Hash, Bytes>, packs: map<Uuid, Bytes>, m: Manifest)
    ensures FileSound(lib, index, packs, m) && LengthsAgree(lib, index, packs, m.chunks)
      <==> Restores(lib, index, packs, m)
  {
    hide Get, LengthsAgree, Materialise, ReadBytes;
    MaterialiseIff(lib, index, packs, m.chunks);
  }

  // ----- repair -----------------------------------------------------------------------

  function DamagedIds(damage: seq<Damage>): set<nat> {
    set d | d in damage :: d.snapshotId
  }

  lemma {:induction false} ChunkDamageIds(lib: Lib, index: map<Hash, Bytes>, packs: map<Uuid, Bytes>, level: Level,
                                          id: nat, path: string, chunks: seq<ChunkRef>)
    ensures forall d :: d in ChunkDamage(lib, index, packs, level, id, path, chunks) ==> d.snapshotId == id
  {
    hide ChunkFault;
    if chunks != [] {
      ChunkDamageIds(lib, index, packs, level, id, path, chunks[1..]);
    }
  }

  lemma {:induction false} FilesDamageIds(lib: Lib, index: map<Hash, Bytes>, packs: map<Uuid, Bytes>, level: Level,
                                          id: nat, files: seq<FileEntry>)
    ensures forall d :: d in FilesDamage(lib, index, packs, level, id, files) ==> d.snapshotId == id
  {
    if files != [] {
      ChunkDamageIds(lib, index, packs, level, id, files[0].path, files[0].manifest.chunks);
      FilesDamageIds(lib, index, packs, level, id, files[1..]);
    }
  }

  /** A snapshot is named in a full report if and only if one of its files is damaged. */
  lemma {:induction false} NamedIffDamaged(lib: Lib, index: map<Hash, Bytes>, packs: map<Uuid, Bytes>, level: Level,
                                           rows: seq<Snapshot>, id: nat)
    ensures id in DamagedIds(CatalogDamage(lib, index, packs, level, None, rows))
      <==> exists s :: s in rows && s.id == id && FilesDamage(lib, index, packs, level, id, s.files) != []
  {
    hide FilesDamage;
    if rows != [] {
      NamedIffDamaged(lib, index, packs, level, rows[1..], id);
      FilesDamageIds(lib, index, packs, level, rows[0].id, rows[0].files);
      var first := FilesDamage(lib, index, packs, level, rows[0].id, rows[0].files);
      var rest := CatalogDamage(lib, index, packs, level, None, rows[1..]);
      assert DamagedIds(first + rest) == DamagedIds(first) + DamagedIds(rest);
      if first != [] {
        assert first[0] in first;
      }
      assert forall s :: s in rows <==> s == rows[0] || s in rows[1..];
    }
  }

  /** Damage depends only on what the store answers for the file's digests. */
  lemma {:induction false} ChunkDamageSame(lib: Lib, s: Store, t: Store, level: Level, id: nat, path: string,
                                           chunks: seq<ChunkRef>)
    requires forall c :: c in chunks ==>
      Get(lib, s.index, s.packs, c.hash) == Get(lib, t.index, t.packs, c.hash)
        && Locate(s.index, c.hash) == Locate(t.index, c.hash)
    ensures ChunkDamage(lib, s.index, s.packs, level, id, path, chunks)
      == ChunkDamage(lib, t.index, t.packs, level, id, path, chunks)
    ensures ReadBytes(lib, s.index, s.packs, chunks) == ReadBytes(lib, t.index, t.packs, chunks)
  {
    hide Get, Locate;
    if chunks != [] {
      ChunkDamageSame(lib, s, t, level, id, path, chunks[1..]);
    }
  }

  lemma {:induction false} FilesDamageSame(lib: Lib, s: Store, t: Store, level: Level, id: nat, files: seq<FileEntry>)
    requires forall h :: h in FileHashes(files) ==>
      Get(lib, s.index, s.packs, h) == Get(lib, t.index, t.packs, h) && Locate(s.index, h) == Locate(t.index, h)
    ensures FilesDamage(lib, s.index, s.packs, level, id, files) == FilesDamage(lib, t.index, t.packs, level, id, files)
  {
    hide Get, Locate;
    if files != [] {
      forall c | c in files[0].manifest.chunks ensures c.hash in FileHashes(files) {
        assert files[0] in files;
      }
      ChunkDamageSame(lib, s, t, level, id, files[0].path, files[0].manifest.chunks);
      assert FileHashes(files[1..]) <= FileHashes(files) by {
        assert forall f :: f in files[1..] ==> f in files;
      }
      FilesDamageSame(lib, s, t, level, id, files[1..]);
    }
  }

  /**
   * Removing the snapshots a full report names and then sweeping leaves a repository whose
   * full report at the same level is empty, however damaged the store is: the sweep changes
   * no answer for a chunk of a surviving snapshot.
   */
  lemma RepairLeavesClean(lib: Lib, s: Store, snaps: map<nat, Snapshot>, level: Level)
    requires KeysMatch(snaps)
    ensures
      var damaged := DamagedIds(CatalogDamage(lib, s.index, s.packs, level, None, AllRows(snaps)));
      var kept := snaps - damaged;
      var t := Swept(s, Reachable(kept, s.manifests));
      && CatalogDamage(lib, t.index, t.packs, level, None, AllRows(kept)) == []
      && CatalogDamage(lib, s.index, s.packs, level, None, AllRows(kept)) == []
  {
    hide Get, Locate, FilesDamage, AllRows, Swept, FileHashes, DamagedIds, CatalogDamage;
    var damaged := DamagedIds(CatalogDamage(lib, s.index, s.packs, level, None, AllRows(snaps)));
    var kept := snaps - damaged;
    var reach := Reachable(kept, s.manifests);
    var t := Swept(s, reach);
    CatalogClean(lib, t.index, t.packs, level, AllRows(kept));
    CatalogClean(lib, s.index, s.packs, level, AllRows(kept));
    forall r | r in AllRows(kept)
      ensures FilesDamage(lib, s.index, s.packs, level, r.id, r.files) == []
      ensures FilesDamage(lib, t.index, t.packs, level, r.id, r.files) == []
    {
      AllRowsMembers(kept, r);
      var id :| id in kept && kept[id] == r;
      AllRowsMembers(snaps, r);
      NamedIffDamaged(lib, s.index, s.packs, level, AllRows(snaps), id);
      SweepSame(lib, s, kept, id);
      FilesDamageSame(lib, s, t, level, r.id, r.files);
    }
  }

  lemma SweepSame(lib: Lib, s: Store, kept: map<nat, Snapshot>, id: nat)
    requires id in kept
    ensures var t := Swept(s, Reachable(kept, s.manifests));
      forall h :: h in FileHashes(kept[id].files) ==>
        Get(lib, s.index, s.packs, h) == Get(lib, t.index, t.packs, h) && Locate(s.index, h) == Locate(t.index, h)
  {
    hide Get, DeadPacks, FileHashes;
    var reach := Reachable(kept, s.manifests);
    var t := Swept(s, reach);
    forall h | h in FileHashes(kept[id].files)
      ensures Get(lib, s.index, s.packs, h) == Get(lib, t.index, t.packs, h) && Locate(s.index, h) == Locate(t.index, h)
    {
      assert h in reach;
      SweepKeepsReachable(lib, s, reach, h);
    }
  }
}
