/** Comparing two snapshots file by file, and the bytes the second adds to the first. */
module Diff {
  import opened Base
  import opened Types
  import opened Sums
  import opened Manifests
  import opened Unique

  datatype Change = Added | Removed | Modified | Unchanged

  datatype FileDiff = FileDiff(path: string, change: Change, oldSize: Option<nat>, newSize: Option<nat>,
                               chunksShared: nat, chunksChanged: nat, bytesAdded: nat)

  datatype SnapshotDiff = SnapshotDiff(fromId: nat, toId: nat, files: seq<FileDiff>, added: nat, removed: nat,
                                       modified: nat, same: nat, bytesAdded: nat)

  // ----- paths ------------------------------------------------------------------

  /** Path order: character by character, a prefix first. */
  predicate Precedes(a: string, b: string) {
    b != [] && (a == [] || a[0] < b[0] || (a[0] == b[0] && Precedes(a[1..], b[1..])))
  }

  lemma {:induction false} OneFirst(a: string, b: string)
    ensures a == b || Precedes(a, b) || Precedes(b, a)
    ensures !Precedes(a, a)
  {
    if a != [] {
      OneFirst(a[1..], if b == [] then [] else b[1..]);
      if b != [] && a[0] == b[0] && a[1..] == b[1..] {
        assert a == [a[0]] + a[1..] && b == [b[0]] + b[1..];
      }
    }
  }

  lemma {:induction false} PrecedesChain(a: string, b: string, c: string)
    requires Precedes(a, b) && Precedes(b, c)
    ensures Precedes(a, c)
  {
    if a != [] && a[0] == b[0] && b[0] == c[0] {
      PrecedesChain(a[1..], b[1..], c[1..]);
    }
  }

  predicate First(paths: set<string>, p: string) {
    p in paths && forall q :: q in paths && q != p ==> Precedes(p, q)
  }

  lemma FirstExists(paths: set<string>)
    requires paths != {}
    ensures exists p :: p in paths && First(paths, p)
    decreases |paths|
  {
    hide Precedes;
    var x :| x in paths;
    var rest := paths - {x};
    assert forall q :: q in paths && q != x ==> q in rest;
    if rest == {} {
      assert First(paths, x);
    } else {
      FirstExists(rest);
      var m :| m in rest && First(rest, m);
      OneFirst(x, m);
      if Precedes(m, x) {
        assert First(paths, m);
      } else {
        forall q | q in paths && q != x ensures Precedes(x, q) {
          if q != m { PrecedesChain(x, m, q); }
        }
        assert First(paths, x);
      }
    }
  }

  /** Files by path; a path that occurs twice keeps its last manifest. */
  function ByPath(files: seq<FileEntry>): map<string, Manifest> {
    if files == [] then map[]
    else ByPath(files[..|files| - 1])[files[|files| - 1].path := files[|files| - 1].manifest]
  }

  /** The last manifest under a path counts. */
  lemma {:induction false} LastCounts(files: seq<FileEntry>, i: nat)
    requires i < |files| && forall j :: i < j < |files| ==> files[j].path != files[i].path
    ensures files[i].path in ByPath(files) && ByPath(files)[files[i].path] == files[i].manifest
  {
    if i < |files| - 1 {
      LastCounts(files[..|files| - 1], i);
    }
  }

  predicate UniquePaths(files: seq<FileEntry>) {
    forall i, j :: 0 <= i < j < |files| ==> files[i].path != files[j].path
  }

  lemma {:induction false} ByPathMembers(files: seq<FileEntry>)
    ensures forall p :: p in ByPath(files) ==> exists f :: f in files && f.path == p && f.manifest == ByPath(files)[p]
    ensures forall f :: f in files ==> f.path in ByPath(files)
  {
    if files != [] {
      var front, last := files[..|files| - 1], files[|files| - 1];
      ByPathMembers(front);
      assert forall f :: f in files <==> f in front || f == last;
    }
  }

  method CollectByPath(files: seq<FileEntry>) returns (m: map<string, Manifest>)
    ensures m == ByPath(files)
  {
    m := map[];
    for i := 0 to |files|
      invariant m == ByPath(files[..i])
    {
      assert files[..i + 1][..i] == files[..i];
      m := m[files[i].path := files[i].manifest];
    }
    assert files[..|files|] == files;
  }

  // ----- one file -----------------------------------------------------------------

  /** The references whose digest the baseline lacks. */
  function NewRefs(refs: seq<ChunkRef>, baseline: set<Hash>): (r: seq<ChunkRef>)
    ensures |r| <= |refs|
  {
    if refs == [] then []
    else (if refs[0].hash in baseline then [] else [refs[0]]) + NewRefs(refs[1..], baseline)
  }

  function NewBytes(m: Manifest, baseline: set<Hash>): nat {
    SumLens(NewRefs(m.chunks, baseline))
  }

  /** What happened to one path of either side. */
  function DiffOf(from: map<string, Manifest>, to: map<string, Manifest>, baseline: set<Hash>, path: string): FileDiff
    requires path in from || path in to
  {
    if path !in to then FileDiff(path, Removed, Some(from[path].size), None, 0, 0, 0)
    else if path in from && from[path].fileHash == to[path].fileHash then
      FileDiff(path, Unchanged, Some(from[path].size), Some(to[path].size), |to[path].chunks|, 0, 0)
    else
      var changed := |NewRefs(to[path].chunks, baseline)|;
      FileDiff(path, if path in from then Modified else Added,
               if path in from then Some(from[path].size) else None, Some(to[path].size),
               |to[path].chunks| - changed, changed, NewBytes(to[path], baseline))
  }

  /** The positions of references that the baseline lacks, and their lengths. */
  ghost function NewAtPlace(chunks: seq<ChunkRef>, baseline: set<Hash>): map<nat, nat> {
    map i: nat | i < |chunks| && chunks[i].hash !in baseline :: chunks[i].len
  }

  /** The positions of references that it has. */
  ghost function SharedPlaces(chunks: seq<ChunkRef>, baseline: set<Hash>): set<nat> {
    set i: nat | i < |chunks| && chunks[i].hash in baseline
  }

  /** What an entry of the listing says: the sizes on either side, and of a new version which chunks are new. */
  ghost predicate Shows(from: map<string, Manifest>, to: map<string, Manifest>, baseline: set<Hash>, d: FileDiff) {
    && (d.path in from || d.path in to)
    && d.oldSize == (if d.path in from then Some(from[d.path].size) else None)
    && d.newSize == (if d.path in to then Some(to[d.path].size) else None)
    && match d.change
       case Removed => d.path !in to && d.chunksShared == d.chunksChanged == d.bytesAdded == 0
       case Unchanged =>
         && d.path in to && d.path in from && from[d.path].fileHash == to[d.path].fileHash
         && d.chunksShared == |to[d.path].chunks| && d.chunksChanged == d.bytesAdded == 0
       case _ =>
         && d.path in to && (d.change.Added? <==> d.path !in from)
         && (d.change.Modified? ==> from[d.path].fileHash != to[d.path].fileHash)
         && d.chunksShared == |SharedPlaces(to[d.path].chunks, baseline)|
         && d.chunksChanged == |NewAtPlace(to[d.path].chunks, baseline)|
         && d.bytesAdded == Total(NewAtPlace(to[d.path].chunks, baseline))
  }

  /** The new references are counted by place, whatever digests repeat. */
  lemma {:induction false} PlacesCounted(chunks: seq<ChunkRef>, baseline: set<Hash>)
    ensures |NewRefs(chunks, baseline)| == |NewAtPlace(chunks, baseline)|
    ensures SumLens(NewRefs(chunks, baseline)) == Total(NewAtPlace(chunks, baseline))
    ensures |chunks| == |SharedPlaces(chunks, baseline)| + |NewAtPlace(chunks, baseline)|
  {
    hide SumLens, NewRefs;
    if chunks == [] {
      NothingNew(chunks, baseline);
      NoSum();
      assert NewAtPlace(chunks, baseline) == map[] && SharedPlaces(chunks, baseline) == {};
    } else {
      var n := |chunks| - 1;
      var front, c := chunks[..n], chunks[n];
      PlacesCounted(front, baseline);
      assert chunks == front + [c];
      NewRefsSnoc(front, c, baseline);
      PlacesSnoc(chunks, baseline);
    }
  }

  lemma PlacesSnoc(chunks: seq<ChunkRef>, baseline: set<Hash>)
    requires chunks != []
    ensures var n := |chunks| - 1;
      var m, k := NewAtPlace(chunks[..n], baseline), SharedPlaces(chunks[..n], baseline);
      if chunks[n].hash in baseline
      then NewAtPlace(chunks, baseline) == m && |SharedPlaces(chunks, baseline)| == |k| + 1
      else && SharedPlaces(chunks, baseline) == k && |NewAtPlace(chunks, baseline)| == |m| + 1
           && Total(NewAtPlace(chunks, baseline)) == Total(m) + chunks[n].len
  {
    hide NewAtPlace, SharedPlaces;
    if chunks[|chunks| - 1].hash in baseline {
      OldPlace(chunks, baseline);
    } else {
      NewPlace(chunks, baseline);
    }
  }

  lemma OldPlace(chunks: seq<ChunkRef>, baseline: set<Hash>)
    requires chunks != [] && chunks[|chunks| - 1].hash in baseline
    ensures var n := |chunks| - 1;
      && NewAtPlace(chunks, baseline) == NewAtPlace(chunks[..n], baseline)
      && |SharedPlaces(chunks, baseline)| == |SharedPlaces(chunks[..n], baseline)| + 1
  {
    var n := |chunks| - 1;
    assert SharedPlaces(chunks, baseline) == SharedPlaces(chunks[..n], baseline) + {n};
  }

  lemma NewPlace(chunks: seq<ChunkRef>, baseline: set<Hash>)
    requires chunks != [] && chunks[|chunks| - 1].hash !in baseline
    ensures var n := |chunks| - 1;
      && SharedPlaces(chunks, baseline) == SharedPlaces(chunks[..n], baseline)
      && |NewAtPlace(chunks, baseline)| == |NewAtPlace(chunks[..n], baseline)| + 1
      && Total(NewAtPlace(chunks, baseline)) == Total(NewAtPlace(chunks[..n], baseline)) + chunks[n].len
  {
    var n: nat := |chunks| - 1;
    var m := NewAtPlace(chunks[..n], baseline);
    assert NewAtPlace(chunks, baseline) == m[n := chunks[n].len];
    TotalInsert<nat>(m, n, chunks[n].len);
    OneMoreKey(m, n, chunks[n].len);
  }

  lemma OneMoreKey(m: map<nat, nat>, n: nat, v: nat)
    requires n !in m
    ensures |m[n := v]| == |m| + 1
  {
    assert m[n := v].Keys == m.Keys + {n};
    assert |m[n := v]| == |m[n := v].Keys| && |m| == |m.Keys|;
  }

  lemma DiffShows(from: map<string, Manifest>, to: map<string, Manifest>, baseline: set<Hash>, p: string)
    requires p in from || p in to
    ensures Shows(from, to, baseline, DiffOf(from, to, baseline, p))
  {
    hide NewRefs, NewAtPlace, SharedPlaces;
    if p in to {
      PlacesCounted(to[p].chunks, baseline);
    }
  }

  lemma AllShow(from: map<string, Manifest>, to: map<string, Manifest>, baseline: set<Hash>, diffs: seq<FileDiff>,
                paths: set<string>)
    requires Listing(from, to, baseline, diffs, paths)
    ensures forall d :: d in diffs ==> Shows(from, to, baseline, d)
  {
    hide DiffOf, Shows, Precedes;
    forall d | d in diffs ensures Shows(from, to, baseline, d) {
      var i :| 0 <= i < |diffs| && diffs[i] == d;
      DiffShows(from, to, baseline, d.path);
    }
  }

  /** Paths whose content is the same on both sides. */
  function Agreeing(from: map<string, Manifest>, to: map<string, Manifest>): set<string> {
    set p | p in from && p in to && from[p].fileHash == to[p].fileHash
  }

  ghost function AddedAt(from: map<string, Manifest>, to: map<string, Manifest>, baseline: set<Hash>,
                         paths: set<string>): map<string, nat> {
    map p | p in paths && (p in from || p in to) :: DiffOf(from, to, baseline, p).bytesAdded
  }

  function SumAdded(diffs: seq<FileDiff>): nat {
    if diffs == [] then 0 else SumAdded(diffs[..|diffs| - 1]) + diffs[|diffs| - 1].bytesAdded
  }

  // ----- the listing ----------------------------------------------------------------

  /** The diffs of `paths`: in path order, one each, each as it should be. */
  ghost predicate Listing(from: map<string, Manifest>, to: map<string, Manifest>, baseline: set<Hash>,
                          diffs: seq<FileDiff>, paths: set<string>) {
    && Accurate(from, to, baseline, diffs, paths)
    && InOrder(diffs)
    && Covers(diffs, paths)
    && SumAdded(diffs) == Total(AddedAt(from, to, baseline, paths))
  }

  predicate Accurate(from: map<string, Manifest>, to: map<string, Manifest>, baseline: set<Hash>,
                     diffs: seq<FileDiff>, paths: set<string>) {
    forall i :: 0 <= i < |diffs| ==>
      && diffs[i].path in paths && (diffs[i].path in from || diffs[i].path in to)
      && diffs[i] == DiffOf(from, to, baseline, diffs[i].path)
  }

  predicate InOrder(diffs: seq<FileDiff>) {
    forall i, j :: 0 <= i < j < |diffs| ==> Precedes(diffs[i].path, diffs[j].path)
  }

  predicate Covers(diffs: seq<FileDiff>, paths: set<string>) {
    forall p :: p in paths ==> exists i :: 0 <= i < |diffs| && diffs[i].path == p
  }

  lemma CoversSnoc(diffs: seq<FileDiff>, paths: set<string>, d: FileDiff)
    requires Covers(diffs, paths)
    ensures Covers(diffs + [d], paths + {d.path})
  {
    var next := diffs + [d];
    forall q | q in paths + {d.path} ensures exists i :: 0 <= i < |next| && next[i].path == q {
      if q == d.path {
        assert next[|diffs|].path == q;
      } else {
        var i :| 0 <= i < |diffs| && diffs[i].path == q;
        assert next[i].path == q;
      }
    }
  }

  lemma AccurateSnoc(from: map<string, Manifest>, to: map<string, Manifest>, baseline: set<Hash>,
                     diffs: seq<FileDiff>, paths: set<string>, d: FileDiff)
    requires Accurate(from, to, baseline, diffs, paths)
    requires (d.path in from || d.path in to) && d == DiffOf(from, to, baseline, d.path)
    ensures Accurate(from, to, baseline, diffs + [d], paths + {d.path})
  {
    hide DiffOf;
  }

  lemma InOrderSnoc(diffs: seq<FileDiff>, d: FileDiff)
    requires InOrder(diffs) && forall i :: 0 <= i < |diffs| ==> Precedes(diffs[i].path, d.path)
    ensures InOrder(diffs + [d])
  {
    hide Precedes;
  }

  lemma SumAddedSnoc(diffs: seq<FileDiff>, d: FileDiff)
    ensures SumAdded(diffs + [d]) == SumAdded(diffs) + d.bytesAdded
  {
    assert (diffs + [d])[..|diffs|] == diffs;
  }

  lemma AllPrecede(from: map<string, Manifest>, to: map<string, Manifest>, baseline: set<Hash>,
                   diffs: seq<FileDiff>, paths: set<string>, p: string)
    requires Accurate(from, to, baseline, diffs, paths) && forall q :: q in paths ==> Precedes(q, p)
    ensures forall i :: 0 <= i < |diffs| ==> Precedes(diffs[i].path, p)
  {
    hide DiffOf, Precedes;
  }

  lemma ListingSnoc(from: map<string, Manifest>, to: map<string, Manifest>, baseline: set<Hash>,
                    diffs: seq<FileDiff>, paths: set<string>, p: string)
    requires Listing(from, to, baseline, diffs, paths) && p !in paths && (p in from || p in to)
    requires forall q :: q in paths ==> Precedes(q, p)
    ensures Listing(from, to, baseline, diffs + [DiffOf(from, to, baseline, p)], paths + {p})
  {
    hide DiffOf, Precedes, Covers, AddedAt, Accurate, InOrder, SumAdded;
    var d := DiffOf(from, to, baseline, p);
    DiffPath(from, to, baseline, p);
    AccurateSnoc(from, to, baseline, diffs, paths, d);
    AllPrecede(from, to, baseline, diffs, paths, p);
    InOrderSnoc(diffs, d);
    SumAddedSnoc(diffs, d);
    AddedSnoc(from, to, baseline, paths, p);
    CoversSnoc(diffs, paths, d);
  }

  lemma DiffPath(from: map<string, Manifest>, to: map<string, Manifest>, baseline: set<Hash>, p: string)
    requires p in from || p in to
    ensures DiffOf(from, to, baseline, p).path == p
  {
  }

  lemma AddedSnoc(from: map<string, Manifest>, to: map<string, Manifest>, baseline: set<Hash>, paths: set<string>,
                  p: string)
    requires p !in paths && (p in from || p in to)
    ensures Total(AddedAt(from, to, baseline, paths + {p}))
      == Total(AddedAt(from, to, baseline, paths)) + DiffOf(from, to, baseline, p).bytesAdded
  {
    hide DiffOf;
    var d := DiffOf(from, to, baseline, p).bytesAdded;
    assert AddedAt(from, to, baseline, paths + {p}) == AddedAt(from, to, baseline, paths)[p := d];
    TotalInsert(AddedAt(from, to, baseline, paths), p, d);
  }

  lemma CountIn(part: set<string>, done: set<string>, p: string)
    requires p !in done
    ensures |part * (done + {p})| == |part * done| + if p in part then 1 else 0
  {
    if p in part {
      assert part * (done + {p}) == part * done + {p};
    } else {
      assert part * (done + {p}) == part * done;
    }
  }

  /** Which of the four classes a path falls in. */
  lemma Classes(from: map<string, Manifest>, to: map<string, Manifest>, baseline: set<Hash>, p: string)
    requires p in from || p in to
    ensures DiffOf(from, to, baseline, p).change == Added <==> p in to.Keys - from.Keys
    ensures DiffOf(from, to, baseline, p).change == Removed <==> p in from.Keys - to.Keys
    ensures DiffOf(from, to, baseline, p).change == Unchanged <==> p in Agreeing(from, to)
    ensures DiffOf(from, to, baseline, p).change == Modified <==> p in from.Keys * to.Keys - Agreeing(from, to)
  {
  }

  method CollectNew(refs: seq<ChunkRef>, baseline: set<Hash>) returns (n: nat, bytes: nat)
    ensures n == |NewRefs(refs, baseline)| && bytes == SumLens(NewRefs(refs, baseline))
  {
    n, bytes := 0, 0;
    for i := 0 to |refs|
      invariant n == |NewRefs(refs[..i], baseline)| && bytes == SumLens(NewRefs(refs[..i], baseline))
    {
      assert refs[..i + 1] == refs[..i] + [refs[i]];
      NewRefsSnoc(refs[..i], refs[i], baseline);
      if refs[i].hash !in baseline {
        n, bytes := n + 1, bytes + refs[i].len;
      }
    }
    assert refs[..|refs|] == refs;
  }

  lemma SumCons(c: ChunkRef, refs: seq<ChunkRef>)
    ensures SumLens([c] + refs) == c.len + SumLens(refs)
    ensures SumLens([] + refs) == SumLens(refs)
  {
    assert ([c] + refs)[1..] == refs;
    assert [] + refs == refs;
  }

  lemma {:induction false} NewRefsSnoc(refs: seq<ChunkRef>, c: ChunkRef, baseline: set<Hash>)
    ensures NewRefs(refs + [c], baseline) == NewRefs(refs, baseline) + (if c.hash in baseline then [] else [c])
    ensures SumLens(NewRefs(refs + [c], baseline))
      == SumLens(NewRefs(refs, baseline)) + if c.hash in baseline then 0 else c.len
  {
    hide SumLens;
    NoSum();
    if refs == [] {
      assert refs + [c] == [c];
      SumCons(c, []);
      assert [c] + [] == [c];
    } else {
      assert (refs + [c])[1..] == refs[1..] + [c];
      NewRefsSnoc(refs[1..], c, baseline);
      SumCons(refs[0], NewRefs(refs[1..], baseline));
      SumCons(refs[0], NewRefs(refs[1..] + [c], baseline));
    }
  }

  method DiffPathAt(from: map<string, Manifest>, to: map<string, Manifest>, baseline: set<Hash>,
                    path: string) returns (d: FileDiff)
    requires path in from || path in to
    ensures d == DiffOf(from, to, baseline, path)
  {
    if path in to && path !in from {
      var n, bytes := CollectNew(to[path].chunks, baseline);
      d := FileDiff(path, Added, None, Some(to[path].size), |to[path].chunks| - n, n, bytes);
    } else if path !in to {
      d := FileDiff(path, Removed, Some(from[path].size), None, 0, 0, 0);
    } else if from[path].fileHash == to[path].fileHash {
      d := FileDiff(path, Unchanged, Some(from[path].size), Some(to[path].size), |to[path].chunks|, 0, 0);
    } else {
      var n, bytes := CollectNew(to[path].chunks, baseline);
      d := FileDiff(path, Modified, Some(from[path].size), Some(to[path].size), |to[path].chunks| - n, n, bytes);
    }
  }

  /** Of the paths done, how many fall in each class. */
  ghost predicate Counted(from: map<string, Manifest>, to: map<string, Manifest>, done: set<string>,
                          added: nat, removed: nat, modified: nat, same: nat) {
    && added == |(to.Keys - from.Keys) * done| && removed == |(from.Keys - to.Keys) * done|
    && same == |Agreeing(from, to) * done| && modified == |(from.Keys * to.Keys - Agreeing(from, to)) * done|
  }

  function One(yes: bool): nat {
    if yes then 1 else 0
  }

  lemma CountedStep(from: map<string, Manifest>, to: map<string, Manifest>, baseline: set<Hash>, done: set<string>,
                    added: nat, removed: nat, modified: nat, same: nat, p: string)
    requires Counted(from, to, done, added, removed, modified, same) && p !in done && (p in from || p in to)
    ensures var c := DiffOf(from, to, baseline, p).change;
      Counted(from, to, done + {p}, added + One(c == Added), removed + One(c == Removed),
              modified + One(c == Modified), same + One(c == Unchanged))
  {
    hide DiffOf, Agreeing;
    Classes(from, to, baseline, p);
    CountIn(to.Keys - from.Keys, done, p);
    CountIn(from.Keys - to.Keys, done, p);
    CountIn(Agreeing(from, to), done, p);
    CountIn(from.Keys * to.Keys - Agreeing(from, to), done, p);
  }

  lemma CountedAll(from: map<string, Manifest>, to: map<string, Manifest>, done: set<string>,
                   added: nat, removed: nat, modified: nat, same: nat)
    requires Counted(from, to, done, added, removed, modified, same) && done == from.Keys + to.Keys
    ensures added == |to.Keys - from.Keys| && removed == |from.Keys - to.Keys|
    ensures same == |Agreeing(from, to)| && modified == |from.Keys * to.Keys - Agreeing(from, to)|
  {
    hide Agreeing;
    AgreeingBoth(from, to);
    Part(to.Keys - from.Keys, done);
    Part(from.Keys - to.Keys, done);
    Part(Agreeing(from, to), done);
    Part(from.Keys * to.Keys - Agreeing(from, to), done);
  }

  lemma Part(some: set<string>, all: set<string>)
    requires some <= all
    ensures some * all == some
  {
  }

  lemma NoneIn(part: set<string>)
    ensures |part * {}| == 0
  {
    assert part * {} == {};
  }

  /** Every path done comes before every path still to do. */
  ghost predicate Ahead(done: set<string>, todo: set<string>) {
    done !! todo && forall p, q :: p in done && q in todo ==> Precedes(p, q)
  }

  lemma AheadStep(done: set<string>, todo: set<string>, p: string)
    requires Ahead(done, todo) && First(todo, p)
    ensures Ahead(done + {p}, todo - {p})
    ensures p !in done && forall q :: q in done ==> Precedes(q, p)
    ensures done + {p} + (todo - {p}) == done + todo
  {
    hide Precedes;
  }

  lemma ListingStart(from: map<string, Manifest>, to: map<string, Manifest>, baseline: set<Hash>)
    ensures Listing(from, to, baseline, [], {})
  {
    hide DiffOf, Precedes;
    assert AddedAt(from, to, baseline, {}) == map[];
  }

  lemma CountedStart(from: map<string, Manifest>, to: map<string, Manifest>)
    ensures Counted(from, to, {}, 0, 0, 0, 0)
  {
    hide Agreeing;
    NoneIn(to.Keys - from.Keys);
    NoneIn(from.Keys - to.Keys);
    NoneIn(Agreeing(from, to));
    NoneIn(from.Keys * to.Keys - Agreeing(from, to));
  }

  method ListDiffs(from: map<string, Manifest>, to: map<string, Manifest>, baseline: set<Hash>)
    returns (diffs: seq<FileDiff>, added: nat, removed: nat, modified: nat, same: nat)
    ensures Listing(from, to, baseline, diffs, from.Keys + to.Keys)
    ensures added == |to.Keys - from.Keys| && removed == |from.Keys - to.Keys|
    ensures same == |Agreeing(from, to)| && modified == |from.Keys * to.Keys - Agreeing(from, to)|
  {
    hide Precedes, DiffOf, Agreeing, First, Listing, Counted;
    diffs, added, removed, modified, same := [], 0, 0, 0, 0;
    var todo := from.Keys + to.Keys;
    ghost var done: set<string> := {};
    ListingStart(from, to, baseline);
    CountedStart(from, to);
    assert Ahead(done, todo);
    while todo != {}
      invariant done + todo == from.Keys + to.Keys && Ahead(done, todo)
      invariant Listing(from, to, baseline, diffs, done)
      invariant Counted(from, to, done, added, removed, modified, same)
      decreases todo
    {
      FirstExists(todo);
      var p :| p in todo && First(todo, p);
      AheadStep(done, todo, p);
      FirstMember(todo, p);
      CountedStep(from, to, baseline, done, added, removed, modified, same, p);
      ListingSnoc(from, to, baseline, diffs, done, p);
      var d := DiffPathAt(from, to, baseline, p);
      diffs := diffs + [d];
      match d.change {
        case Added => added := added + 1;
        case Removed => removed := removed + 1;
        case Modified => modified := modified + 1;
        case Unchanged => same := same + 1;
      }
      done := done + {p};
      todo := todo - {p};
    }
    CountedAll(from, to, done, added, removed, modified, same);
  }

  lemma FirstMember(paths: set<string>, p: string)
    requires First(paths, p)
    ensures p in paths
  {
  }

  lemma AgreeingBoth(from: map<string, Manifest>, to: map<string, Manifest>)
    ensures Agreeing(from, to) <= from.Keys * to.Keys
  {
  }

  // ----- the bytes added -----------------------------------------------------------------

  method CollectHashes(files: seq<FileEntry>) returns (seen: set<Hash>)
    ensures seen == FileHashes(files)
  {
    hide UniqueBytes, Lens, FileRefs;
    assert Lens([]).Keys == {} && UniqueBytes([]) == 0 by { NothingUnique(); NoLens(); }
    var total: nat;
    seen, total := CountFiles({}, 0, files, []);
    assert [] + FileRefs(files) == FileRefs(files);
    LensKeys(FileRefs(files));
    FileRefsMembers(files);
  }

  lemma NewSnoc(refs: seq<ChunkRef>, c: ChunkRef, baseline: set<Hash>)
    ensures Total(Lens(refs + [c]) - baseline)
      == Total(Lens(refs) - baseline) + if c.hash in baseline || c.hash in Lens(refs) then 0 else c.len
    ensures (Lens(refs + [c]) - baseline).Keys
      == (Lens(refs) - baseline).Keys + (if c.hash in baseline then {} else {c.hash})
  {
    hide Lens;
    LensSnoc(refs, c);
    var m := Lens(refs);
    if c.hash !in m {
      if c.hash in baseline {
        assert m[c.hash := c.len] - baseline == m - baseline;
      } else {
        assert m[c.hash := c.len] - baseline == (m - baseline)[c.hash := c.len];
        TotalInsert(m - baseline, c.hash, c.len);
      }
    }
  }

  method AddChunks(only0: set<Hash>, bytes0: nat, refs: seq<ChunkRef>, baseline: set<Hash>, ghost prior: seq<ChunkRef>)
    returns (only: set<Hash>, bytes: nat)
    requires only0 == (Lens(prior) - baseline).Keys && bytes0 == Total(Lens(prior) - baseline)
    ensures only == (Lens(prior + refs) - baseline).Keys && bytes == Total(Lens(prior + refs) - baseline)
  {
    hide Lens;
    only, bytes := only0, bytes0;
    assert prior + refs[..0] == prior;
    for i := 0 to |refs|
      invariant only == (Lens(prior + refs[..i]) - baseline).Keys && bytes == Total(Lens(prior + refs[..i]) - baseline)
    {
      assert prior + refs[..i + 1] == (prior + refs[..i]) + [refs[i]];
      NewSnoc(prior + refs[..i], refs[i], baseline);
      if refs[i].hash !in baseline && refs[i].hash !in only {
        only := only + {refs[i].hash};
        bytes := bytes + refs[i].len;
      }
    }
    assert refs[..|refs|] == refs;
  }

  method AddedBytes(files: seq<FileEntry>, baseline: set<Hash>) returns (bytes: nat)
    ensures bytes == Total(Lens(FileRefs(files)) - baseline)
  {
    hide Lens, FileRefs;
    var only: set<Hash> := {};
    bytes := 0;
    assert Lens(FileRefs(files[..0])) - baseline == map[] by { NoRefs(files); NoLens(); }
    for i := 0 to |files|
      invariant only == (Lens(FileRefs(files[..i])) - baseline).Keys
        && bytes == Total(Lens(FileRefs(files[..i])) - baseline)
    {
      FileRefsSnoc(files, i);
      only, bytes := AddChunks(only, bytes, files[i].manifest.chunks, baseline, FileRefs(files[..i]));
    }
    assert files[..|files|] == files;
  }

  // ----- the per-file bound -----------------------------------------------------------------

  function SumNew(files: seq<FileEntry>, baseline: set<Hash>): nat {
    if files == [] then 0
    else SumNew(files[..|files| - 1], baseline) + NewBytes(files[|files| - 1].manifest, baseline)
  }

  lemma {:induction false} NewAtMost(prior: seq<ChunkRef>, refs: seq<ChunkRef>, baseline: set<Hash>)
    ensures Total(Lens(prior + refs) - baseline) <= Total(Lens(prior) - baseline) + SumLens(NewRefs(refs, baseline))
    decreases |refs|
  {
    hide Lens, SumLens;
    if refs == [] {
      assert prior + refs == prior;
    } else {
      NewSnoc(prior, refs[0], baseline);
      SumCons(refs[0], NewRefs(refs[1..], baseline));
      assert prior + refs == (prior + [refs[0]]) + refs[1..];
      NewAtMost(prior + [refs[0]], refs[1..], baseline);
    }
  }

  lemma {:induction false} AddedAtMost(files: seq<FileEntry>, baseline: set<Hash>)
    ensures Total(Lens(FileRefs(files)) - baseline) <= SumNew(files, baseline)
  {
    hide Lens;
    if files == [] {
      NoLens();
      assert Lens(FileRefs(files)) - baseline == map[];
    } else {
      var front, last := files[..|files| - 1], files[|files| - 1];
      AddedAtMost(front, baseline);
      NewAtMost(FileRefs(front), last.manifest.chunks, baseline);
    }
  }

  ghost function NewAt(files: map<string, Manifest>, baseline: set<Hash>): map<string, nat> {
    map p | p in files :: NewBytes(files[p], baseline)
  }

  lemma NewAtInsert(m: map<string, Manifest>, path: string, new_: Manifest, baseline: set<Hash>)
    requires path !in m
    ensures Total(NewAt(m[path := new_], baseline)) == NewBytes(new_, baseline) + Total(NewAt(m, baseline))
  {
    hide NewBytes;
    assert NewAt(m[path := new_], baseline) == NewAt(m, baseline)[path := NewBytes(new_, baseline)];
    TotalInsert(NewAt(m, baseline), path, NewBytes(new_, baseline));
  }

  lemma LastPathNew(files: seq<FileEntry>)
    requires files != [] && UniquePaths(files)
    ensures UniquePaths(files[..|files| - 1]) && files[|files| - 1].path !in ByPath(files[..|files| - 1])
  {
    hide ByPath;
    var front, last := files[..|files| - 1], files[|files| - 1];
    ByPathMembers(front);
    forall f | f in front ensures f.path != last.path {
      var i :| 0 <= i < |front| && front[i] == f;
      assert files[i] == f;
    }
  }

  lemma {:induction false} SumByPath(files: seq<FileEntry>, baseline: set<Hash>)
    requires UniquePaths(files)
    ensures SumNew(files, baseline) == Total(NewAt(ByPath(files), baseline))
  {
    hide NewBytes, NewAt, UniquePaths;
    if files != [] {
      var front, last := files[..|files| - 1], files[|files| - 1];
      LastPathNew(files);
      SumByPath(front, baseline);
      NewAtInsert(ByPath(front), last.path, last.manifest, baseline);
    } else {
      assert NewAt(ByPath(files), baseline) == map[] by { NothingAt(baseline); }
    }
  }

  lemma NothingAt(baseline: set<Hash>)
    ensures NewAt(map[], baseline) == map[]
  {
  }

  /** Two files of equal content digest list the same chunks. */
  ghost predicate DigestsDecide(from: seq<FileEntry>, to: seq<FileEntry>) {
    forall f, g :: f in from && g in to && f.manifest.fileHash == g.manifest.fileHash ==>
      ManifestHashes(f.manifest) == ManifestHashes(g.manifest)
  }

  lemma {:induction false} NothingNew(refs: seq<ChunkRef>, baseline: set<Hash>)
    requires forall c :: c in refs ==> c.hash in baseline
    ensures NewRefs(refs, baseline) == []
  {
    if refs != [] {
      NothingNew(refs[1..], baseline);
    }
  }

  lemma DiffCharges(from: seq<FileEntry>, to: seq<FileEntry>, p: string)
    requires DigestsDecide(from, to) && p in ByPath(to)
    ensures DiffOf(ByPath(from), ByPath(to), FileHashes(from), p).bytesAdded
      == NewBytes(ByPath(to)[p], FileHashes(from))
  {
    hide NewRefs, SumLens, ByPath;
    var a, b := ByPath(from), ByPath(to);
    if p in a && a[p].fileHash == b[p].fileHash {
      ByPathMembers(from);
      ByPathMembers(to);
      var f :| f in from && f.path == p && f.manifest == a[p];
      var g :| g in to && g.path == p && g.manifest == b[p];
      forall c | c in b[p].chunks ensures c.hash in FileHashes(from) {
        assert c.hash in ManifestHashes(g.manifest);
        assert c.hash in ManifestHashes(f.manifest);
      }
      NothingNew(b[p].chunks, FileHashes(from));
      assert SumLens([]) == 0 by { NoSum(); }
    }
  }

  lemma NoSum()
    ensures SumLens([]) == 0
  {
  }

  /** The repository-level cost never exceeds the sum of the per-file charges. */
  lemma AtMostPerFile(from: seq<FileEntry>, to: seq<FileEntry>, diffs: seq<FileDiff>)
    requires UniquePaths(to) && DigestsDecide(from, to)
    requires Listing(ByPath(from), ByPath(to), FileHashes(from), diffs, ByPath(from).Keys + ByPath(to).Keys)
    ensures Total(Lens(FileRefs(to)) - FileHashes(from)) <= SumAdded(diffs)
  {
    hide Lens, DiffOf, NewBytes, ByPath, Precedes, FileHashes;
    var a, b, base := ByPath(from), ByPath(to), FileHashes(from);
    AddedAtMost(to, base);
    SumByPath(to, base);
    var all := AddedAt(a, b, base, a.Keys + b.Keys);
    forall p | p in b ensures all[p] == NewBytes(b[p], base) {
      DiffCharges(from, to, p);
    }
    TotalSplit(all, b.Keys);
    assert Restrict(all, b.Keys) == NewAt(b, base);
  }

  /** The two snapshots together take the bytes of the first plus the bytes the diff reports. */
  lemma DiffIsGrowth(from: seq<FileEntry>, to: seq<FileEntry>)
    ensures UniqueBytes(FileRefs(from) + FileRefs(to))
      == UniqueBytes(FileRefs(from)) + Total(Lens(FileRefs(to)) - FileHashes(from))
  {
    hide UniqueBytes, Lens, FileRefs, FileHashes;
    UniqueGrowth(FileRefs(from), FileRefs(to));
    FileRefsMembers(from);
  }

  method DiffSnapshots(snaps: map<nat, Snapshot>, fromId: nat, toId: nat) returns (r: Result<SnapshotDiff>)
    ensures fromId !in snaps ==> r == Err(SnapshotNotFound(fromId))
    ensures fromId in snaps && toId !in snaps ==> r == Err(SnapshotNotFound(toId))
    ensures fromId in snaps && toId in snaps ==>
      var from, to := snaps[fromId].files, snaps[toId].files;
      var a, b := ByPath(from), ByPath(to);
      && r.Ok? && r.value.fromId == fromId && r.value.toId == toId
      && Listing(a, b, FileHashes(from), r.value.files, a.Keys + b.Keys)
      && (forall d :: d in r.value.files ==> Shows(a, b, FileHashes(from), d))
      && r.value.added == |b.Keys - a.Keys| && r.value.removed == |a.Keys - b.Keys|
      && r.value.same == |Agreeing(a, b)| && r.value.modified == |a.Keys * b.Keys - Agreeing(a, b)|
      && r.value.bytesAdded == UniqueBytes(FileRefs(from) + FileRefs(to)) - UniqueBytes(FileRefs(from))
      && (UniquePaths(to) && DigestsDecide(from, to) ==> r.value.bytesAdded <= SumAdded(r.value.files))
  {
    hide Listing, UniqueBytes, Lens, FileRefs, FileHashes, ByPath, Agreeing, DigestsDecide, UniquePaths, Shows;
    if fromId !in snaps { return Err(SnapshotNotFound(fromId)); }
    if toId !in snaps { return Err(SnapshotNotFound(toId)); }
    var from, to := snaps[fromId].files, snaps[toId].files;
    var fromFiles := CollectByPath(from);
    var toFiles := CollectByPath(to);
    var baseline := CollectHashes(from);
    var diffs, added, removed, modified, same := ListDiffs(fromFiles, toFiles, baseline);
    AllShow(fromFiles, toFiles, baseline, diffs, fromFiles.Keys + toFiles.Keys);
    var bytes := AddedBytes(to, baseline);
    DiffIsGrowth(from, to);
    if UniquePaths(to) && DigestsDecide(from, to) {
      AtMostPerFile(from, to, diffs);
    }
    r := Ok(SnapshotDiff(fromId, toId, diffs, added, removed, modified, same, bytes));
  }
}
