/** Listings of the snapshot catalog in id order. */
module Catalog {
  import opened Base
  import opened Types
  import opened Sums

  predicate IsLeast(ids: set<nat>, m: nat) {
    m in ids && forall k :: k in ids ==> m <= k
  }

  lemma LeastOfTwo(ids: set<nat>, x: nat, m: nat)
    requires x in ids && IsLeast(ids - {x}, m)
    ensures IsLeast(ids, if m <= x then m else x)
  {
    assert forall k :: k in ids ==> k == x || k in ids - {x};
  }

  lemma {:induction false} LeastExists(ids: set<nat>)
    requires ids != {}
    ensures exists m :: m in ids && IsLeast(ids, m)
    decreases |ids|
  {
    hide IsLeast;
    var x :| x in ids;
    if ids - {x} != {} {
      LeastExists(ids - {x});
      var m :| m in ids - {x} && IsLeast(ids - {x}, m);
      LeastOfTwo(ids, x, m);
    } else {
      assert ids == {x};
      assert IsLeast(ids, x) by { LeastOfOne(x); }
    }
  }

  lemma LeastOfOne(x: nat)
    ensures IsLeast({x}, x)
  {
  }

  ghost function Least(ids: set<nat>): nat
    requires ids != {}
  {
    LeastExists(ids);
    var m :| m in ids && IsLeast(ids, m);
    m
  }

  lemma LeastIs(ids: set<nat>, m: nat)
    requires IsLeast(ids, m)
    ensures Least(ids) == m
  {
    LeastExists(ids);
  }

  /** The ids in ascending order. */
  ghost function Sorted(ids: set<nat>): seq<nat>
    decreases |ids|
  {
    if ids == {} then []
    else
      LeastExists(ids);
      [Least(ids)] + Sorted(ids - {Least(ids)})
  }

  lemma {:induction false} SortedMembers(ids: set<nat>)
    ensures forall k :: k in Sorted(ids) <==> k in ids
    ensures forall i, j :: 0 <= i < j < |Sorted(ids)| ==> Sorted(ids)[i] < Sorted(ids)[j]
    decreases |ids|
  {
    if ids != {} {
      LeastExists(ids);
      var m := Least(ids);
      SortedMembers(ids - {m});
      var rest := Sorted(ids - {m});
      forall j | 0 <= j < |rest| ensures m < rest[j] {
        assert rest[j] in ids - {m};
      }
    }
  }

  ghost function RowsAt(snaps: map<nat, Snapshot>, ids: seq<nat>): seq<Snapshot>
    requires forall k :: k in ids ==> k in snaps
  {
    seq(|ids|, i requires 0 <= i < |ids| => snaps[ids[i]])
  }

  /** The catalog's rows in key order, as one read transaction returns them. */
  ghost function AllRows(snaps: map<nat, Snapshot>): seq<Snapshot> {
    SortedMembers(snaps.Keys);
    RowsAt(snaps, Sorted(snaps.Keys))
  }

  /** Each row carries the id it is stored under. */
  predicate KeysMatch(snaps: map<nat, Snapshot>) {
    forall id :: id in snaps ==> snaps[id].id == id
  }

  lemma AllRowsMembers(snaps: map<nat, Snapshot>, s: Snapshot)
    ensures s in AllRows(snaps) <==> exists id :: id in snaps && snaps[id] == s
  {
    SortedMembers(snaps.Keys);
    var ids := Sorted(snaps.Keys);
    if id :| id in snaps && snaps[id] == s {
      assert id in ids;
      var i :| 0 <= i < |ids| && ids[i] == id;
      assert AllRows(snaps)[i] == s;
    }
    if s in AllRows(snaps) {
      var i :| 0 <= i < |ids| && AllRows(snaps)[i] == s;
      assert ids[i] in snaps;
    }
  }

  lemma NextRow(snaps: map<nat, Snapshot>, todo: set<nat>, done: seq<nat>, id: nat)
    requires todo <= snaps.Keys && IsLeast(todo, id)
    requires forall k :: k in done ==> k in snaps
    ensures done + Sorted(todo) == done + [id] + Sorted(todo - {id})
    ensures forall k :: k in done + [id] ==> k in snaps
    ensures RowsAt(snaps, done + [id]) == RowsAt(snaps, done) + [snaps[id]]
  {
    LeastIs(todo, id);
    assert done + ([id] + Sorted(todo - {id})) == done + [id] + Sorted(todo - {id});
  }

  method LoadAll(snaps: map<nat, Snapshot>) returns (rows: seq<Snapshot>)
    ensures rows == AllRows(snaps)
  {
    hide Sorted, RowsAt, IsLeast;
    rows := [];
    var todo := snaps.Keys;
    ghost var done: seq<nat> := [];
    SortedMembers(snaps.Keys);
    NoRows(snaps);
    assert [] + Sorted(todo) == Sorted(todo);
    while todo != {}
      invariant todo <= snaps.Keys
      invariant forall k :: k in done ==> k in snaps
      invariant Sorted(snaps.Keys) == done + Sorted(todo)
      invariant rows == RowsAt(snaps, done)
      decreases todo
    {
      LeastExists(todo);
      var id :| id in todo && IsLeast(todo, id);
      NextRow(snaps, todo, done, id);
      rows := rows + [snaps[id]];
      done := done + [id];
      todo := todo - {id};
    }
    assert done + [] == done;
  }

  lemma NoRows(snaps: map<nat, Snapshot>)
    ensures Sorted({}) == [] && RowsAt(snaps, []) == []
  {
  }

  // ----- summaries --------------------------------------------------------------

  datatype Summary = Summary(
    id: nat, kind: Kind, createdAt: int, caption: string, sourceKey: Option<string>, description: string,
    tags: seq<string>, pinned: bool, fileCount: nat, totalSize: nat, source: string)

  function TotalSize(files: seq<FileEntry>): nat {
    if files == [] then 0 else files[0].manifest.size + TotalSize(files[1..])
  }

  function SummaryOf(s: Snapshot): Summary {
    Summary(s.id, s.kind, s.createdAt, s.caption, s.sourceKey, s.description, s.tags, s.pinned,
            |s.files|, TotalSize(s.files), s.source)
  }

  ghost function SizesByPlace(files: seq<FileEntry>): map<nat, nat> {
    map i: nat | i < |files| :: files[i].manifest.size
  }

  /** The total of a summary is the sum of the file sizes, place by place. */
  lemma {:induction false} SummaryTotals(files: seq<FileEntry>)
    ensures TotalSize(files) == Total(SizesByPlace(files))
  {
    if files == [] {
      assert SizesByPlace(files) == map[];
    } else {
      var n: nat := |files| - 1;
      SummaryTotals(files[..n]);
      assert files == files[..n] + [files[n]];
      TotalSizeSnoc(files[..n], files[n]);
      assert SizesByPlace(files) == SizesByPlace(files[..n])[n := files[n].manifest.size];
      TotalInsert<nat>(SizesByPlace(files[..n]), n, files[n].manifest.size);
    }
  }

  lemma {:induction false} TotalSizeSnoc(files: seq<FileEntry>, f: FileEntry)
    ensures TotalSize(files + [f]) == TotalSize(files) + f.manifest.size
  {
    if files == [] {
      assert files + [f] == [f];
    } else {
      assert (files + [f])[1..] == files[1..] + [f];
      TotalSizeSnoc(files[1..], f);
    }
  }

  /** What a summary shows of its row. */
  lemma SummaryShows(s: Snapshot)
    ensures var t := SummaryOf(s);
      && t.fileCount == |SizesByPlace(s.files)| && t.totalSize == Total(SizesByPlace(s.files))
      && t.id == s.id && t.kind == s.kind && t.createdAt == s.createdAt && t.caption == s.caption
      && t.sourceKey == s.sourceKey && t.description == s.description && t.tags == s.tags
      && t.pinned == s.pinned && t.source == s.source
  {
    SummaryTotals(s.files);
    PlacesOf(s.files);
  }

  lemma {:induction false} PlacesOf(files: seq<FileEntry>)
    ensures |SizesByPlace(files)| == |files|
  {
    if files == [] {
      assert SizesByPlace(files) == map[];
    } else {
      var n: nat := |files| - 1;
      PlacesOf(files[..n]);
      var m := SizesByPlace(files[..n]);
      assert SizesByPlace(files) == m[n := files[n].manifest.size];
      assert SizesByPlace(files).Keys == m.Keys + {n};
      assert |SizesByPlace(files)| == |m.Keys + {n}| && |m| == |m.Keys|;
    }
  }

  /** The listing index has exactly one summary per row, derived from it. */
  ghost predicate InSync(snaps: map<nat, Snapshot>, summaries: map<nat, Summary>) {
    && summaries.Keys == snaps.Keys
    && forall id :: id in snaps ==> summaries[id] == SummaryOf(snaps[id])
  }

  // ----- removal ----------------------------------------------------------------

  function IdSet(ids: seq<nat>): set<nat> {
    set id | id in ids
  }

  lemma NoIds(ids: seq<nat>)
    ensures IdSet(ids[..0]) == {}
  {
  }

  lemma MinusOne<V>(m: map<nat, V>, gone: set<nat>, id: nat)
    ensures m - gone - {id} == m - (gone + {id})
    ensures id in m - gone <==> id in m.Keys && id !in gone
  {
  }

  lemma IdSetSnoc(ids: seq<nat>, i: nat)
    requires i < |ids|
    ensures IdSet(ids[..i + 1]) == IdSet(ids[..i]) + {ids[i]}
  {
    assert ids[..i + 1] == ids[..i] + [ids[i]];
  }

  lemma RemovalValid(snaps: map<nat, Snapshot>, summaries: map<nat, Summary>, gone: set<nat>)
    requires KeysMatch(snaps) && InSync(snaps, summaries)
    ensures KeysMatch(snaps - gone) && InSync(snaps - gone, summaries - gone)
  {
    hide SummaryOf;
  }

  lemma CountRemoved(keys: set<nat>, gone: set<nat>, id: nat)
    ensures |keys * (gone + {id})| == |keys * gone| + (if id in keys && id !in gone then 1 else 0)
  {
    if id in keys && id !in gone {
      assert keys * (gone + {id}) == keys * gone + {id};
    } else {
      assert keys * (gone + {id}) == keys * gone;
    }
  }

  method SortIds(ids: set<nat>) returns (out: seq<nat>)
    ensures out == Sorted(ids)
  {
    hide IsLeast, Sorted;
    out := [];
    var todo := ids;
    assert [] + Sorted(todo) == Sorted(todo);
    while todo != {}
      invariant todo <= ids
      invariant Sorted(ids) == out + Sorted(todo)
      decreases todo
    {
      LeastExists(todo);
      var id :| id in todo && IsLeast(todo, id);
      SortedHead(todo, id);
      assert out + ([id] + Sorted(todo - {id})) == out + [id] + Sorted(todo - {id});
      out := out + [id];
      todo := todo - {id};
    }
    SortedNone();
    assert out + [] == out;
  }

  lemma SortedHead(ids: set<nat>, id: nat)
    requires IsLeast(ids, id)
    ensures Sorted(ids) == [id] + Sorted(ids - {id})
  {
    LeastIs(ids, id);
  }

  lemma SortedNone()
    ensures Sorted({}) == []
  {
  }

  lemma EmptySorted(ids: set<nat>)
    ensures Sorted(ids) == [] ==> ids == {}
  {
  }
}
