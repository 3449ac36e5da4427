/** The loops of a verification pass. */
module Verifier {
  import opened Base
  import opened Types
  import opened Library
  import opened StoreState
  import opened ChunkStores
  import opened VerifyRepair
  import opened Diagnosis
  import opened Catalog

  lemma {:induction false} CatalogDamageSnoc(lib: Lib, index: map<Hash, Bytes>, packs: map<Uuid, Bytes>, level: Level,
                                             only: Option<nat>, rows: seq<Snapshot>, s: Snapshot)
    ensures CatalogDamage(lib, index, packs, level, only, rows + [s])
      == CatalogDamage(lib, index, packs, level, only, rows)
         + DamageIn(lib, index, packs, level, only, s)
  {
    hide DamageIn;
    if rows == [] {
      assert rows + [s] == [s];
    } else {
      assert (rows + [s])[1..] == rows[1..] + [s];
      CatalogDamageSnoc(lib, index, packs, level, only, rows[1..], s);
    }
  }

  lemma {:induction false} FilesDamageSnoc(lib: Lib, index: map<Hash, Bytes>, packs: map<Uuid, Bytes>, level: Level,
                                           id: nat, files: seq<FileEntry>, f: FileEntry)
    ensures FilesDamage(lib, index, packs, level, id, files + [f])
      == FilesDamage(lib, index, packs, level, id, files) + FileDamage(lib, index, packs, level, id, f)
  {
    hide FileDamage;
    if files == [] {
      assert files + [f] == [f];
    } else {
      assert (files + [f])[1..] == files[1..] + [f];
      FilesDamageSnoc(lib, index, packs, level, id, files[1..], f);
    }
  }

  lemma {:induction false} ChunkDamageSnoc(lib: Lib, index: map<Hash, Bytes>, packs: map<Uuid, Bytes>, level: Level,
                                           id: nat, path: string, chunks: seq<ChunkRef>, c: ChunkRef)
    ensures ChunkDamage(lib, index, packs, level, id, path, chunks + [c])
      == ChunkDamage(lib, index, packs, level, id, path, chunks)
         + DamageOf(lib, index, packs, level, id, path, c.hash)
  {
    hide DamageOf;
    if chunks == [] {
      assert chunks + [c] == [c];
    } else {
      assert (chunks + [c])[1..] == chunks[1..] + [c];
      ChunkDamageSnoc(lib, index, packs, level, id, path, chunks[1..], c);
    }
  }

  lemma {:induction false} ReadBytesSnoc(lib: Lib, index: map<Hash, Bytes>, packs: map<Uuid, Bytes>,
                                         chunks: seq<ChunkRef>, c: ChunkRef)
    ensures ReadBytes(lib, index, packs, chunks + [c])
      == ReadBytes(lib, index, packs, chunks)
         + (match Get(lib, index, packs, c.hash)
            case Ok(Some(b)) => b
            case _ => [])
  {
    hide Get;
    if chunks == [] {
      assert chunks + [c] == [c];
    } else {
      assert (chunks + [c])[1..] == chunks[1..] + [c];
      ReadBytesSnoc(lib, index, packs, chunks[1..], c);
    }
  }

  /** A chunk lookup that fails outright stops a metadata pass; a read-data pass records it. */
  predicate Legible(index: map<Hash, Bytes>, level: Level, chunks: seq<ChunkRef>) {
    level.Metadata? ==> forall c :: c in chunks ==> Locate(index, c.hash).Ok?
  }

  predicate FilesLegible(index: map<Hash, Bytes>, level: Level, files: seq<FileEntry>) {
    forall f :: f in files ==> Legible(index, level, f.manifest.chunks)
  }

  method VerifyFile(store: ChunkStore, id: nat, f: FileEntry, level: Level) returns (damage: seq<Damage>, legible: bool)
    ensures legible == Legible(store.index, level, f.manifest.chunks)
    ensures legible ==> damage == FileDamage(store.lib, store.index, store.packs, level, id, f)
  {
    hide Get, Locate;
    var chunks := f.manifest.chunks;
    var hashed: Bytes := [];
    damage := [];
    for i := 0 to |chunks|
      invariant damage == ChunkDamage(store.lib, store.index, store.packs, level, id, f.path, chunks[..i])
      invariant level.ReadData? ==> hashed == ReadBytes(store.lib, store.index, store.packs, chunks[..i])
      invariant Legible(store.index, level, chunks[..i])
    {
      assert chunks[..i + 1] == chunks[..i] + [chunks[i]];
      ChunkDamageSnoc(store.lib, store.index, store.packs, level, id, f.path, chunks[..i], chunks[i]);
      ReadBytesSnoc(store.lib, store.index, store.packs, chunks[..i], chunks[i]);
      var h := chunks[i].hash;
      if level.Metadata? {
        var found := Locate(store.index, h);
        if found.Err? { return damage, false; }
        if found.value.None? {
          damage := damage + [Damage(id, f.path, Some(h), Missing)];
        }
      } else {
        var got := store.GetChunk(h);
        match got {
          case Ok(Some(bytes)) => hashed := hashed + bytes;
          case Ok(None) => damage := damage + [Damage(id, f.path, Some(h), Missing)];
          case Err(_) => damage := damage + [Damage(id, f.path, Some(h), Corrupt)];
        }
      }
    }
    assert chunks[..|chunks|] == chunks;
    if level.ReadData? && damage == [] && store.lib.hash(hashed) != f.manifest.fileHash {
      damage := [Damage(id, f.path, None, FileHashMismatch)];
    }
    legible := true;
  }

  function ChunkCount(files: seq<FileEntry>): nat {
    if files == [] then 0 else |files[0].manifest.chunks| + ChunkCount(files[1..])
  }

  lemma {:induction false} ChunkCountSnoc(files: seq<FileEntry>, f: FileEntry)
    ensures ChunkCount(files + [f]) == ChunkCount(files) + |f.manifest.chunks|
  {
    if files == [] {
      assert files + [f] == [f];
    } else {
      assert (files + [f])[1..] == files[1..] + [f];
      ChunkCountSnoc(files[1..], f);
    }
  }

  method VerifyFiles(store: ChunkStore, id: nat, files: seq<FileEntry>, level: Level)
    returns (damage: seq<Damage>, chunks: nat, legible: bool)
    ensures legible == FilesLegible(store.index, level, files)
    ensures legible ==>
      damage == FilesDamage(store.lib, store.index, store.packs, level, id, files) && chunks == ChunkCount(files)
  {
    hide FileDamage, Legible;
    damage, chunks := [], 0;
    for i := 0 to |files|
      invariant damage == FilesDamage(store.lib, store.index, store.packs, level, id, files[..i])
      invariant chunks == ChunkCount(files[..i])
      invariant FilesLegible(store.index, level, files[..i])
    {
      assert files[..i + 1] == files[..i] + [files[i]];
      FilesDamageSnoc(store.lib, store.index, store.packs, level, id, files[..i], files[i]);
      ChunkCountSnoc(files[..i], files[i]);
      var d, ok := VerifyFile(store, id, files[i], level);
      if !ok { return damage, chunks, false; }
      damage := damage + d;
      chunks := chunks + |files[i].manifest.chunks|;
    }
    assert files[..|files|] == files;
    legible := true;
  }

  function Picked(only: Option<nat>, s: Snapshot): seq<Snapshot> {
    if only.Some? && s.id != only.value then [] else [s]
  }

  /** The snapshots a pass looks at. */
  function Checked(only: Option<nat>, rows: seq<Snapshot>): seq<Snapshot> {
    if rows == [] then [] else Picked(only, rows[0]) + Checked(only, rows[1..])
  }

  lemma {:induction false} CheckedSnoc(only: Option<nat>, rows: seq<Snapshot>, s: Snapshot)
    ensures Checked(only, rows + [s]) == Checked(only, rows) + Picked(only, s)
  {
    hide Picked;
    if rows == [] {
      assert rows + [s] == [s];
      assert Checked(only, [s]) == Picked(only, s) + [];
    } else {
      assert (rows + [s])[1..] == rows[1..] + [s];
      CheckedSnoc(only, rows[1..], s);
      assert Picked(only, rows[0]) + (Checked(only, rows[1..]) + Picked(only, s))
        == Picked(only, rows[0]) + Checked(only, rows[1..]) + Picked(only, s);
    }
  }

  function FileCount(rows: seq<Snapshot>): nat {
    if rows == [] then 0 else |rows[0].files| + FileCount(rows[1..])
  }

  function AllChunkCount(rows: seq<Snapshot>): nat {
    if rows == [] then 0 else ChunkCount(rows[0].files) + AllChunkCount(rows[1..])
  }

  lemma {:induction false} CountsSnoc(rows: seq<Snapshot>, s: Snapshot)
    ensures FileCount(rows + [s]) == FileCount(rows) + |s.files|
    ensures AllChunkCount(rows + [s]) == AllChunkCount(rows) + ChunkCount(s.files)
  {
    if rows == [] {
      assert rows + [s] == [s];
    } else {
      assert (rows + [s])[1..] == rows[1..] + [s];
      CountsSnoc(rows[1..], s);
    }
  }

  /** The pass as a whole, over the catalog rows in id order. */
  method VerifyRows(store: ChunkStore, rows: seq<Snapshot>, only: Option<nat>,
                    level: Level) returns (r: Result<VerifyReport>)
    ensures r.Ok? <==> forall s :: s in Checked(only, rows) ==> FilesLegible(store.index, level, s.files)
    ensures r.Err? ==> r.error == BadIndex
    ensures r.Ok? ==>
      var checked := Checked(only, rows);
      r.value == VerifyReport(|checked|, FileCount(checked), AllChunkCount(checked),
                              CatalogDamage(store.lib, store.index, store.packs, level, only, rows))
    ensures r.Ok? ==>
      forall d :: d in r.value.damage <==> Damaged(store.lib, store.index, store.packs, level, only, rows, d)
  {
    hide FilesDamage, FilesLegible, Damaged;
    var snapshots, files, chunks := 0, 0, 0;
    var damage: seq<Damage> := [];
    for i := 0 to |rows|
      invariant damage == CatalogDamage(store.lib, store.index, store.packs, level, only, rows[..i])
      invariant snapshots == |Checked(only, rows[..i])| && files == FileCount(Checked(only, rows[..i]))
      invariant chunks == AllChunkCount(Checked(only, rows[..i]))
      invariant forall s :: s in Checked(only, rows[..i]) ==> FilesLegible(store.index, level, s.files)
    {
      hide CatalogDamage, Checked, FileCount, AllChunkCount;
      var row := rows[i];
      assert rows[..i + 1] == rows[..i] + [row];
      CatalogDamageSnoc(store.lib, store.index, store.packs, level, only, rows[..i], row);
      CheckedSnoc(only, rows[..i], row);
      if only.Some? && row.id != only.value {
        assert damage + [] == damage;
        assert Checked(only, rows[..i]) + [] == Checked(only, rows[..i]);
        continue;
      }
      CountsSnoc(Checked(only, rows[..i]), row);
      var d, cs, ok := VerifyFiles(store, row.id, row.files, level);
      if !ok {
        CheckedMember(only, rows, i);
        return Err(BadIndex);
      }
      snapshots, files, chunks := snapshots + 1, files + |row.files|, chunks + cs;
      damage := damage + d;
    }
    assert rows[..|rows|] == rows;
    r := Ok(VerifyReport(snapshots, files, chunks, damage));
    forall d ensures d in damage <==> Damaged(store.lib, store.index, store.packs, level, only, rows, d) {
      ReportExactly(store.lib, store.index, store.packs, level, only, rows, d);
    }
  }

  /** Which rows a pass looks at: all of them, or those of the one id. */
  lemma {:induction false} CheckedExactly(only: Option<nat>, rows: seq<Snapshot>, s: Snapshot)
    ensures s in Checked(only, rows) <==> s in rows && (only.None? || s.id == only.value)
  {
    if rows != [] {
      CheckedExactly(only, rows[1..], s);
      assert s in rows <==> s == rows[0] || s in rows[1..];
    }
  }

  lemma {:induction false} CheckedAll(rows: seq<Snapshot>)
    ensures Checked(None, rows) == rows
  {
    if rows != [] {
      CheckedAll(rows[1..]);
      assert rows == [rows[0]] + rows[1..];
    }
  }

  lemma {:induction false} CheckedOne(n: nat, rows: seq<Snapshot>)
    requires forall i, j :: 0 <= i < j < |rows| ==> rows[i].id != rows[j].id
    ensures |Checked(Some(n), rows)| <= 1
    ensures (forall i :: 0 <= i < |rows| ==> rows[i].id != n) ==> Checked(Some(n), rows) == []
  {
    if rows != [] {
      CheckedOne(n, rows[1..]);
    }
  }

  /** A pass over one id looks at that row alone, once, if it is in the catalog, and else at nothing. */
  lemma CheckedSingle(snaps: map<nat, Snapshot>, n: nat)
    requires KeysMatch(snaps)
    ensures Checked(Some(n), AllRows(snaps)) == if n in snaps then [snaps[n]] else []
  {
    hide Sorted, Checked;
    var rows := AllRows(snaps);
    SortedMembers(snaps.Keys);
    assert forall i :: 0 <= i < |rows| ==> Sorted(snaps.Keys)[i] in snaps && rows[i].id == Sorted(snaps.Keys)[i];
    CheckedOne(n, rows);
    if n in snaps {
      AllRowsMembers(snaps, snaps[n]);
      CheckedExactly(Some(n), rows, snaps[n]);
    }
  }

  lemma {:induction false} CheckedMember(only: Option<nat>, rows: seq<Snapshot>, i: nat)
    requires i < |rows| && !(only.Some? && rows[i].id != only.value)
    ensures rows[i] in Checked(only, rows)
  {
    if i > 0 {
      CheckedMember(only, rows[1..], i - 1);
    }
  }

  // ----- what the counters count -------------------------------------------------------

  ghost function Tagged<T>(i: nat, part: set<T>): set<(nat, T)> {
    set p | p in part :: (i, p)
  }

  lemma {:induction false} TaggedSize<T>(i: nat, part: set<T>)
    ensures |Tagged(i, part)| == |part|
    decreases |part|
  {
    if part != {} {
      var p :| p in part;
      TaggedSize(i, part - {p});
      assert Tagged(i, part) == Tagged(i, part - {p}) + {(i, p)};
    }
  }

  ghost function UpTo(n: nat): (r: set<nat>)
    ensures forall i: nat :: i in r <==> i < n
    ensures |r| == n
  {
    if n == 0 then {} else UpTo(n - 1) + {n - 1}
  }

  /** Each chunk reference of these files, as the file's position and its own. */
  ghost function ChunkPlaces(files: seq<FileEntry>): set<(nat, nat)> {
    set i: nat, k: nat | i < |files| && k < |files[i].manifest.chunks| :: (i, k)
  }

  ghost function FilePlaces(rows: seq<Snapshot>): set<(nat, nat)> {
    set i: nat, k: nat | i < |rows| && k < |rows[i].files| :: (i, k)
  }

  ghost function AllChunkPlaces(rows: seq<Snapshot>): set<(nat, (nat, nat))> {
    set i: nat, p | i < |rows| && p in ChunkPlaces(rows[i].files) :: (i, p)
  }

  lemma {:induction false} ChunksCounted(files: seq<FileEntry>)
    ensures ChunkCount(files) == |ChunkPlaces(files)|
  {
    if files == [] {
      assert ChunkPlaces(files) == {};
    } else {
      var n := |files| - 1;
      ChunksCounted(files[..n]);
      assert files == files[..n] + [files[n]];
      ChunkCountSnoc(files[..n], files[n]);
      TaggedSize(n, UpTo(|files[n].manifest.chunks|));
      LastFilePlaces(files);
    }
  }

  lemma LastFilePlaces(files: seq<FileEntry>)
    requires files != []
    ensures var n: nat := |files| - 1;
      var last := Tagged(n, UpTo(|files[n].manifest.chunks|));
      ChunkPlaces(files) == ChunkPlaces(files[..n]) + last && ChunkPlaces(files[..n]) !! last
  {
  }

  /** The counters are the numbers of files and of chunk references in the rows. */
  lemma {:induction false} CountersExact(rows: seq<Snapshot>)
    ensures FileCount(rows) == |FilePlaces(rows)|
    ensures AllChunkCount(rows) == |AllChunkPlaces(rows)|
  {
    if rows == [] {
      assert FilePlaces(rows) == {} && AllChunkPlaces(rows) == {};
    } else {
      var n := |rows| - 1;
      CountersExact(rows[..n]);
      assert rows == rows[..n] + [rows[n]];
      CountsSnoc(rows[..n], rows[n]);
      FilePlacesLast(rows);
      ChunkPlacesLast(rows);
    }
  }

  lemma FilePlacesLast(rows: seq<Snapshot>)
    requires rows != []
    ensures var n := |rows| - 1; |FilePlaces(rows)| == |FilePlaces(rows[..n])| + |rows[n].files|
  {
    var n := |rows| - 1;
    var last := Tagged(n, UpTo(|rows[n].files|));
    TaggedSize(n, UpTo(|rows[n].files|));
    assert FilePlaces(rows) == FilePlaces(rows[..n]) + last;
    assert FilePlaces(rows[..n]) !! last;
  }

  lemma ChunkPlacesLast(rows: seq<Snapshot>)
    requires rows != []
    ensures var n := |rows| - 1; |AllChunkPlaces(rows)| == |AllChunkPlaces(rows[..n])| + ChunkCount(rows[n].files)
  {
    hide ChunkPlaces, ChunkCount;
    var n := |rows| - 1;
    var last := Tagged(n, ChunkPlaces(rows[n].files));
    TaggedSize(n, ChunkPlaces(rows[n].files));
    ChunksCounted(rows[n].files);
    assert AllChunkPlaces(rows) == AllChunkPlaces(rows[..n]) + last;
    assert AllChunkPlaces(rows[..n]) !! last;
  }
}
