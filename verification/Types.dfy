/** The plain data that the store, the catalog and the manifests exchange. */
module Types {
  import opened Base

  /** How a stored chunk's bytes are encoded in its pack. */
  datatype Codec = Raw | Zstd

  /** One cut of a source file. */
  datatype Chunk = Chunk(offset: nat, len: nat, hash: Hash)

  /** A chunk as a file manifest refers to it. */
  datatype ChunkRef = ChunkRef(hash: Hash, offset: nat, len: nat, codec: Codec)

  datatype Manifest = Manifest(fileHash: Hash, size: nat, chunks: seq<ChunkRef>)

  datatype FileEntry = FileEntry(path: string, manifest: Manifest)

  datatype Kind = Copy | Sync | Version | Backup

  datatype Snapshot = Snapshot(
    id: nat, kind: Kind, createdAt: int, caption: string, sourceKey: Option<string>,
    description: string, tags: seq<string>, pinned: bool, source: string, files: seq<FileEntry>)

  /** The hashes one manifest refers to. */
  function ManifestHashes(m: Manifest): set<Hash> {
    set c | c in m.chunks :: c.hash
  }

  /** The hashes a list of files refers to. */
  function FileHashes(files: seq<FileEntry>): set<Hash> {
    set f, c | f in files && c in f.manifest.chunks :: c.hash
  }

  /** The hashes that some snapshot or some stored manifest refers to. */
  function Reachable(snapshots: map<nat, Snapshot>, manifests: map<string, Manifest>): set<Hash> {
    (set id, h | id in snapshots && h in FileHashes(snapshots[id].files) :: h) +
    (set key, h | key in manifests && h in ManifestHashes(manifests[key]) :: h)
  }

  function Flatten(pieces: seq<Bytes>): Bytes {
    if pieces == [] then [] else pieces[0] + Flatten(pieces[1..])
  }

  lemma {:induction false} FlattenAppend(a: seq<Bytes>, b: seq<Bytes>)
    ensures Flatten(a + b) == Flatten(a) + Flatten(b)
  {
    if a == [] {
      assert a + b == b;
    } else {
      assert (a + b)[1..] == a[1..] + b;
      FlattenAppend(a[1..], b);
      assert a[0] + (Flatten(a[1..]) + Flatten(b)) == a[0] + Flatten(a[1..]) + Flatten(b);
    }
  }

  lemma FlattenLast(a: seq<Bytes>, p: Bytes)
    ensures Flatten(a + [p]) == Flatten(a) + p
  {
    FlattenAppend(a, [p]);
    assert Flatten([p]) == p + Flatten([]);
  }
}
