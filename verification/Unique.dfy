/** Bytes counted once per distinct chunk: the measure behind stats, diffs and reports. */
module Unique {
  import opened Base
  import opened Types
  import opened Sums
  import opened Manifests
  import opened Catalog

  function FileRefs(files: seq<FileEntry>): seq<ChunkRef> {
    if files == [] then [] else FileRefs(files[..|files| - 1]) + files[|files| - 1].manifest.chunks
  }

  function RowRefs(rows: seq<Snapshot>): seq<ChunkRef> {
    if rows == [] then [] else RowRefs(rows[..|rows| - 1]) + FileRefs(rows[|rows| - 1].files)
  }

  /** The length recorded at the first mention of each digest. */
  function Lens(refs: seq<ChunkRef>): map<Hash, nat> {
    if refs == [] then map[]
    else
      var m := Lens(refs[..|refs| - 1]);
      var c := refs[|refs| - 1];
      if c.hash in m then m else m[c.hash := c.len]
  }

  ghost function UniqueBytes(refs: seq<ChunkRef>): nat {
    Total(Lens(refs))
  }

  function Hashes(refs: seq<ChunkRef>): set<Hash> {
    set c | c in refs :: c.hash
  }

  lemma LensSnoc(refs: seq<ChunkRef>, c: ChunkRef)
    ensures Lens(refs + [c]) == if c.hash in Lens(refs) then Lens(refs) else Lens(refs)[c.hash := c.len]
    ensures UniqueBytes(refs + [c]) == UniqueBytes(refs) + if c.hash in Lens(refs) then 0 else c.len
  {
    assert (refs + [c])[..|refs|] == refs;
    if c.hash !in Lens(refs) {
      TotalInsert(Lens(refs), c.hash, c.len);
    }
  }

  lemma {:induction false} LensKeys(refs: seq<ChunkRef>)
    ensures Lens(refs).Keys == Hashes(refs)
  {
    if refs != [] {
      var front, c := refs[..|refs| - 1], refs[|refs| - 1];
      LensKeys(front);
      assert refs == front + [c];
      LensSnoc(front, c);
    }
  }

  /** A digest has the length recorded where it is first mentioned. */
  lemma {:induction false} FirstMention(refs: seq<ChunkRef>, i: nat)
    requires i < |refs| && forall j :: 0 <= j < i ==> refs[j].hash != refs[i].hash
    ensures refs[i].hash in Lens(refs) && Lens(refs)[refs[i].hash] == refs[i].len
  {
    var n := |refs| - 1;
    LensKeys(refs[..n]);
    if i < n {
      FirstMention(refs[..n], i);
    }
  }

  /** What comes first wins: the lengths of two lists together. */
  lemma {:induction false} LensAppend(a: seq<ChunkRef>, b: seq<ChunkRef>)
    ensures Lens(a + b) == Lens(b) + Lens(a)
  {
    hide Lens;
    if b == [] {
      assert a + b == a;
      assert Lens(b) == map[] by { NoLens(); }
    } else {
      var front, c := b[..|b| - 1], b[|b| - 1];
      assert b == front + [c];
      LensAppend(a, front);
      assert a + b == (a + front) + [c];
      LensSnoc(a + front, c);
      LensSnoc(front, c);
      MergeSnoc(Lens(front), Lens(a), c.hash, c.len);
    }
  }

  lemma NoLens()
    ensures Lens([]) == map[]
  {
  }

  lemma MergeSnoc(x: map<Hash, nat>, y: map<Hash, nat>, h: Hash, n: nat)
    ensures (if h in x + y then x + y else (x + y)[h := n]) == (if h in x then x else x[h := n]) + y
  {
  }

  /** Adding a list costs the bytes of the digests that were not there yet. */
  lemma UniqueGrowth(a: seq<ChunkRef>, b: seq<ChunkRef>)
    ensures UniqueBytes(a + b) == UniqueBytes(a) + Total(Lens(b) - Hashes(a))
  {
    hide Lens, Hashes;
    LensAppend(a, b);
    LensKeys(a);
    TotalSplit(Lens(b) + Lens(a), Lens(a).Keys);
    assert Restrict(Lens(b) + Lens(a), Lens(a).Keys) == Lens(a);
    assert (Lens(b) + Lens(a)) - Lens(a).Keys == Lens(b) - Lens(a).Keys;
  }

  /** No digest is recorded with two lengths. */
  predicate OneLength(refs: seq<ChunkRef>) {
    forall a, b :: a in refs && b in refs && a.hash == b.hash ==> a.len == b.len
  }

  lemma {:induction false} LensAreLens(refs: seq<ChunkRef>, h: Hash)
    requires h in Lens(refs)
    ensures exists c :: c in refs && c.hash == h && Lens(refs)[h] == c.len
  {
    var front, c := refs[..|refs| - 1], refs[|refs| - 1];
    if h in Lens(front) {
      LensAreLens(front, h);
      var d :| d in front && d.hash == h && Lens(front)[h] == d.len;
      assert d in refs;
    } else {
      assert c in refs;
    }
  }

  /** With one length per digest the order of mention does not matter. */
  lemma UniqueOrderFree(a: seq<ChunkRef>, b: seq<ChunkRef>)
    requires OneLength(a) && forall c :: c in a <==> c in b
    ensures Lens(a) == Lens(b) && UniqueBytes(a) == UniqueBytes(b)
  {
    hide Lens;
    LensKeys(a);
    LensKeys(b);
    assert Hashes(a) == Hashes(b);
    forall h | h in Lens(a) ensures Lens(a)[h] == Lens(b)[h] {
      LensAreLens(a, h);
      LensAreLens(b, h);
    }
  }

  lemma {:induction false} FileRefsMembers(files: seq<FileEntry>)
    ensures forall c :: c in FileRefs(files) <==> exists f :: f in files && c in f.manifest.chunks
    ensures Hashes(FileRefs(files)) == FileHashes(files)
  {
    if files != [] {
      var front, last := files[..|files| - 1], files[|files| - 1];
      FileRefsMembers(front);
      assert forall f :: f in files <==> f in front || f == last;
    }
  }

  lemma {:induction false} RowRefsMembers(rows: seq<Snapshot>)
    ensures forall c :: c in RowRefs(rows) <==> exists s :: s in rows && c in FileRefs(s.files)
  {
    hide FileRefs;
    if rows != [] {
      var front, last := rows[..|rows| - 1], rows[|rows| - 1];
      RowRefsMembers(front);
      assert forall s :: s in rows <==> s in front || s == last;
    }
  }

  lemma RowRefsSnoc(rows: seq<Snapshot>, i: nat)
    requires i < |rows|
    ensures RowRefs(rows[..i + 1]) == RowRefs(rows[..i]) + FileRefs(rows[i].files)
  {
    assert rows[..i + 1][..i] == rows[..i];
  }

  lemma FileRefsSnoc(files: seq<FileEntry>, i: nat)
    requires i < |files|
    ensures FileRefs(files[..i + 1]) == FileRefs(files[..i]) + files[i].manifest.chunks
  {
    assert files[..i + 1][..i] == files[..i];
  }

  lemma LensSnocAt(prior: seq<ChunkRef>, refs: seq<ChunkRef>, i: nat)
    requires i < |refs|
    ensures var before := prior + refs[..i];
      var after := prior + refs[..i + 1];
      && Lens(after).Keys == Lens(before).Keys + {refs[i].hash}
      && UniqueBytes(after) == UniqueBytes(before) + if refs[i].hash in Lens(before) then 0 else refs[i].len
  {
    hide Lens, UniqueBytes;
    assert prior + refs[..i + 1] == (prior + refs[..i]) + [refs[i]];
    LensSnoc(prior + refs[..i], refs[i]);
  }

  /** Count a manifest's chunks into a running total, once per digest; `prior` came before. */
  method CountChunks(seen0: set<Hash>, total0: nat, refs: seq<ChunkRef>, ghost prior: seq<ChunkRef>)
    returns (seen: set<Hash>, total: nat)
    requires seen0 == Lens(prior).Keys && total0 == UniqueBytes(prior)
    ensures seen == Lens(prior + refs).Keys && total == UniqueBytes(prior + refs)
  {
    hide Lens, UniqueBytes;
    seen, total := seen0, total0;
    assert prior + refs[..0] == prior;
    for i := 0 to |refs|
      invariant seen == Lens(prior + refs[..i]).Keys && total == UniqueBytes(prior + refs[..i])
    {
      LensSnocAt(prior, refs, i);
      if refs[i].hash !in seen {
        seen := seen + {refs[i].hash};
        total := total + refs[i].len;
      }
      assert seen == Lens(prior + refs[..i + 1]).Keys;
    }
    assert refs[..|refs|] == refs;
  }

  method CountFiles(seen0: set<Hash>, total0: nat, files: seq<FileEntry>, ghost prior: seq<ChunkRef>)
    returns (seen: set<Hash>, total: nat)
    requires seen0 == Lens(prior).Keys && total0 == UniqueBytes(prior)
    ensures seen == Lens(prior + FileRefs(files)).Keys && total == UniqueBytes(prior + FileRefs(files))
  {
    hide Lens, UniqueBytes, FileRefs;
    seen, total := seen0, total0;
    assert prior + FileRefs(files[..0]) == prior by { NoRefs(files); }
    for i := 0 to |files|
      invariant seen == Lens(prior + FileRefs(files[..i])).Keys && total == UniqueBytes(prior + FileRefs(files[..i]))
    {
      FileRefsSnoc(files, i);
      assert prior + (FileRefs(files[..i]) + files[i].manifest.chunks)
        == prior + FileRefs(files[..i]) + files[i].manifest.chunks;
      seen, total := CountChunks(seen, total, files[i].manifest.chunks, prior + FileRefs(files[..i]));
    }
    assert files[..|files|] == files;
  }

  lemma NoRefs(files: seq<FileEntry>)
    ensures FileRefs(files[..0]) == []
  {
  }

  // ----- logical size -------------------------------------------------------------

  function Effective(rows: seq<Snapshot>): nat {
    if rows == [] then 0 else Effective(rows[..|rows| - 1]) + TotalSize(rows[|rows| - 1].files)
  }

  ghost function SizesByRow(rows: seq<Snapshot>): map<nat, nat> {
    map i: nat | i < |rows| :: Total(SizesByPlace(rows[i].files))
  }

  /** The logical size is the sum of the sizes of all files of all rows. */
  lemma {:induction false} EffectiveExactly(rows: seq<Snapshot>)
    ensures Effective(rows) == Total(SizesByRow(rows))
  {
    hide SizesByPlace, TotalSize;
    if rows == [] {
      assert SizesByRow(rows) == map[];
    } else {
      var n: nat := |rows| - 1;
      EffectiveExactly(rows[..n]);
      SummaryTotals(rows[n].files);
      var last := Total(SizesByPlace(rows[n].files));
      assert SizesByRow(rows) == SizesByRow(rows[..n])[n := last];
      TotalInsert<nat>(SizesByRow(rows[..n]), n, last);
    }
  }

  /** On tiled manifests deduplication never costs bytes. */
  lemma {:induction false} UniqueAtMostEffective(rows: seq<Snapshot>)
    requires forall s, f :: s in rows && f in s.files ==> Tiled(f.manifest)
    ensures UniqueBytes(RowRefs(rows)) <= Effective(rows)
  {
    hide UniqueBytes, Tiled, FileRefs, TotalSize;
    if rows == [] {
      NothingUnique();
    } else {
      var front, last := rows[..|rows| - 1], rows[|rows| - 1];
      assert last in rows;
      UniqueAtMostEffective(front);
      FilesAtMostSize(RowRefs(front), last.files);
    }
  }

  lemma NothingUnique()
    ensures UniqueBytes([]) == 0
  {
  }

  lemma {:induction false} FilesAtMostSize(prior: seq<ChunkRef>, files: seq<FileEntry>)
    requires forall f :: f in files ==> Tiled(f.manifest)
    ensures UniqueBytes(prior + FileRefs(files)) <= UniqueBytes(prior) + TotalSize(files)
  {
    hide UniqueBytes, TilesFrom, TotalSize;
    if files == [] {
      assert prior + [] == prior;
    } else {
      var front, last := files[..|files| - 1], files[|files| - 1];
      assert files == front + [last] && last in files;
      FilesAtMostSize(prior, front);
      assert prior + (FileRefs(front) + last.manifest.chunks) == (prior + FileRefs(front)) + last.manifest.chunks;
      ChunksAtMostSum(prior + FileRefs(front), last.manifest.chunks);
      TotalSizeSnoc(front, last);
    }
  }

  lemma {:induction false} TotalSizeSnoc(files: seq<FileEntry>, f: FileEntry)
    ensures TotalSize(files + [f]) == TotalSize(files) + f.manifest.size
  {
    if files == [] {
      assert files + [f] == [f];
    } else {
      assert (files + [f])[1..] == files[1..] + [f];
      TotalSizeSnoc(files[1..], f);
    }
  }

  lemma {:induction false} ChunksAtMostSum(prior: seq<ChunkRef>, refs: seq<ChunkRef>)
    ensures UniqueBytes(prior + refs) <= UniqueBytes(prior) + SumLens(refs)
    decreases |refs|
  {
    hide UniqueBytes, Lens;
    if refs == [] {
      assert prior + refs == prior;
    } else {
      LensSnoc(prior, refs[0]);
      assert prior + refs == (prior + [refs[0]]) + refs[1..];
      ChunksAtMostSum(prior + [refs[0]], refs[1..]);
    }
  }
}
