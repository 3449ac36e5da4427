/** The growth curve of a repository and the deduplication totals it must agree with. */
module Report {
  import opened Base
  import opened Types
  import opened Catalog
  import opened Unique

  const MS_PER_DAY := 86_400_000

  /** Midnight UTC at or before a time; the division rounds down for times before 1970 too. */
  function DayFloor(ms: int): int {
    ms / MS_PER_DAY * MS_PER_DAY
  }

  lemma DayFloorIs(ms: int)
    ensures DayFloor(ms) <= ms < DayFloor(ms) + MS_PER_DAY && DayFloor(ms) % MS_PER_DAY == 0
  {
  }

  lemma DayFloorGrows(a: int, b: int)
    requires a <= b
    ensures DayFloor(a) <= DayFloor(b)
  {
  }

  // ----- time order ---------------------------------------------------------------

  predicate Earlier(a: Snapshot, b: Snapshot) {
    a.createdAt < b.createdAt || (a.createdAt == b.createdAt && a.id <= b.id)
  }

  function InsertByTime(s: Snapshot, rows: seq<Snapshot>): seq<Snapshot> {
    if rows == [] || Earlier(s, rows[0]) then [s] + rows else [rows[0]] + InsertByTime(s, rows[1..])
  }

  /** The rows by creation time, then id. */
  function ByTime(rows: seq<Snapshot>): seq<Snapshot> {
    if rows == [] then [] else InsertByTime(rows[0], ByTime(rows[1..]))
  }

  predicate TimeOrdered(rows: seq<Snapshot>) {
    forall i, j :: 0 <= i < j < |rows| ==> Earlier(rows[i], rows[j])
  }

  lemma ConsOrdered(s: Snapshot, rows: seq<Snapshot>)
    requires TimeOrdered(rows) && forall r :: r in rows ==> Earlier(s, r)
    ensures TimeOrdered([s] + rows)
  {
    hide Earlier;
  }

  lemma {:induction false} InsertMembers(s: Snapshot, rows: seq<Snapshot>)
    ensures multiset(InsertByTime(s, rows)) == multiset(rows) + multiset{s}
    ensures forall r :: r in InsertByTime(s, rows) ==> r == s || r in rows
  {
    hide Earlier;
    if rows != [] {
      InsertMembers(s, rows[1..]);
      assert rows == [rows[0]] + rows[1..];
    }
  }

  lemma {:induction false} InsertOrdered(s: Snapshot, rows: seq<Snapshot>)
    requires TimeOrdered(rows)
    ensures TimeOrdered(InsertByTime(s, rows))
  {
    if rows != [] {
      HeadEarliest(rows);
      if Earlier(s, rows[0]) {
        ConsOrdered(s, rows);
      } else {
        InsertOrdered(s, rows[1..]);
        InsertMembers(s, rows[1..]);
        ConsOrdered(rows[0], InsertByTime(s, rows[1..]));
      }
    }
  }

  lemma HeadEarliest(rows: seq<Snapshot>)
    requires TimeOrdered(rows) && rows != []
    ensures TimeOrdered(rows[1..]) && forall r :: r in rows[1..] ==> Earlier(rows[0], r)
  {
    hide Earlier;
    forall r | r in rows[1..] ensures Earlier(rows[0], r) {
      var k :| 0 <= k < |rows[1..]| && rows[1..][k] == r;
      assert rows[k + 1] == r;
    }
  }

  lemma {:induction false} ByTimeOrders(rows: seq<Snapshot>)
    ensures TimeOrdered(ByTime(rows)) && multiset(ByTime(rows)) == multiset(rows)
  {
    if rows != [] {
      ByTimeOrders(rows[1..]);
      InsertOrdered(rows[0], ByTime(rows[1..]));
      InsertMembers(rows[0], ByTime(rows[1..]));
      assert rows == [rows[0]] + rows[1..];
    }
  }

  // ----- the curve ------------------------------------------------------------------

  datatype GrowthPoint = GrowthPoint(day: int, uniqueBytes: nat, snapshots: nat)

  /** The snapshots taken up to the end of a day, in any order of rows. */
  function UpTo(rows: seq<Snapshot>, day: int): seq<Snapshot> {
    if rows == [] then []
    else
      var front, last := rows[..|rows| - 1], rows[|rows| - 1];
      if DayFloor(last.createdAt) <= day then UpTo(front, day) + [last] else UpTo(front, day)
  }

  lemma BeforeMidnight(ms: int, day: int)
    requires day % MS_PER_DAY == 0
    ensures DayFloor(ms) <= day <==> ms < day + MS_PER_DAY
  {
  }

  /** For a day that starts at midnight: exactly the snapshots taken before its end. */
  lemma {:induction false} UpToExactly(rows: seq<Snapshot>, day: int)
    requires day % MS_PER_DAY == 0
    ensures forall s :: s in UpTo(rows, day) <==> s in rows && s.createdAt < day + MS_PER_DAY
  {
    hide DayFloor;
    if rows != [] {
      var front, last := rows[..|rows| - 1], rows[|rows| - 1];
      UpToExactly(front, day);
      BeforeMidnight(last.createdAt, day);
      assert rows == front + [last];
    }
  }

  lemma {:induction false} UpToAll(rows: seq<Snapshot>, day: int)
    requires forall s :: s in rows ==> DayFloor(s.createdAt) <= day
    ensures UpTo(rows, day) == rows
  {
    hide DayFloor;
    if rows != [] {
      UpToAll(rows[..|rows| - 1], day);
      assert rows == rows[..|rows| - 1] + [rows[|rows| - 1]];
    }
  }

  lemma UpToSnoc(rows: seq<Snapshot>, s: Snapshot, day: int)
    ensures UpTo(rows + [s], day) == if DayFloor(s.createdAt) <= day then UpTo(rows, day) + [s] else UpTo(rows, day)
  {
    assert (rows + [s])[..|rows|] == rows;
  }

  /** One point per day that has a snapshot, in order, each the totals up to its day. */
  ghost predicate Curve(rows: seq<Snapshot>, growth: seq<GrowthPoint>) {
    && Rising(growth)
    && (forall i :: 0 <= i < |growth| ==> Point(rows, growth[i]))
    && EveryDay(rows, growth)
  }

  predicate Rising(growth: seq<GrowthPoint>) {
    forall i, j :: 0 <= i < j < |growth| ==> growth[i].day < growth[j].day
  }

  predicate EveryDay(rows: seq<Snapshot>, growth: seq<GrowthPoint>) {
    forall s :: s in rows ==> exists i :: 0 <= i < |growth| && growth[i].day == DayFloor(s.createdAt)
  }

  ghost predicate Point(rows: seq<Snapshot>, p: GrowthPoint) {
    && (exists s :: s in rows && DayFloor(s.createdAt) == p.day)
    && p.uniqueBytes == UniqueBytes(RowRefs(UpTo(rows, p.day)))
    && p.snapshots == |UpTo(rows, p.day)|
  }

  /** The loop's last step: extend the curve by one snapshot no earlier than the rest. */
  function Extend(growth: seq<GrowthPoint>, day: int, unique: nat, count: nat): seq<GrowthPoint> {
    if growth != [] && growth[|growth| - 1].day == day then
      growth[..|growth| - 1] + [GrowthPoint(day, unique, count)]
    else growth + [GrowthPoint(day, unique, count)]
  }

  lemma LastIsLatest(rows: seq<Snapshot>, growth: seq<GrowthPoint>, s: Snapshot, i: nat)
    requires Curve(rows, growth) && i < |growth|
    requires forall r :: r in rows ==> r.createdAt <= s.createdAt
    ensures growth[i].day <= DayFloor(s.createdAt)
  {
    hide DayFloor, UpTo, UniqueBytes, RowRefs;
    assert Point(rows, growth[i]);
    var r :| r in rows && DayFloor(r.createdAt) == growth[i].day;
    DayFloorGrows(r.createdAt, s.createdAt);
  }

  lemma EarlierPoint(rows: seq<Snapshot>, s: Snapshot, p: GrowthPoint)
    requires Point(rows, p) && p.day < DayFloor(s.createdAt)
    ensures Point(rows + [s], p)
  {
    hide DayFloor, UpTo, UniqueBytes, RowRefs;
    UpToSnoc(rows, s, p.day);
    var r :| r in rows && DayFloor(r.createdAt) == p.day;
    assert r in rows + [s];
  }

  lemma NewPoint(rows: seq<Snapshot>, s: Snapshot, unique: nat)
    requires forall r :: r in rows ==> r.createdAt <= s.createdAt
    requires unique == UniqueBytes(RowRefs(rows + [s]))
    ensures Point(rows + [s], GrowthPoint(DayFloor(s.createdAt), unique, |rows| + 1))
  {
    hide DayFloor, UpTo, UniqueBytes, RowRefs;
    forall r | r in rows + [s] ensures DayFloor(r.createdAt) <= DayFloor(s.createdAt) {
      DayFloorGrows(r.createdAt, s.createdAt);
    }
    UpToAll(rows + [s], DayFloor(s.createdAt));
    assert s in rows + [s];
  }

  lemma ExtendRises(growth: seq<GrowthPoint>, day: int, unique: nat, count: nat)
    requires Rising(growth) && forall i :: 0 <= i < |growth| ==> growth[i].day <= day
    ensures var next := Extend(growth, day, unique, count);
      && Rising(next) && next != []
      && next[|next| - 1] == GrowthPoint(day, unique, count)
      && |growth| <= |next| <= |growth| + 1
      && forall i :: 0 <= i < |next| - 1 ==> i < |growth| && next[i] == growth[i] && growth[i].day < day
    ensures var next := Extend(growth, day, unique, count);
      forall i :: 0 <= i < |growth| ==> next[i].day == growth[i].day
  {
  }

  lemma CurveStep(rows: seq<Snapshot>, growth: seq<GrowthPoint>, s: Snapshot, unique: nat)
    requires Curve(rows, growth)
    requires forall r :: r in rows ==> r.createdAt <= s.createdAt
    requires unique == UniqueBytes(RowRefs(rows + [s]))
    ensures Curve(rows + [s], Extend(growth, DayFloor(s.createdAt), unique, |rows| + 1))
  {
    hide DayFloor, Point, UniqueBytes, RowRefs, Rising, EveryDay, Extend;
    var day := DayFloor(s.createdAt);
    var next := Extend(growth, day, unique, |rows| + 1);
    NewPoint(rows, s, unique);
    forall i | 0 <= i < |growth| ensures growth[i].day <= day {
      LastIsLatest(rows, growth, s, i);
    }
    ExtendRises(growth, day, unique, |rows| + 1);
    forall i | 0 <= i < |next| ensures Point(rows + [s], next[i]) {
      if i < |next| - 1 {
        EarlierPoint(rows, s, growth[i]);
      }
    }
    EveryDayStep(rows, growth, s, next);
  }

  lemma EveryDayStep(rows: seq<Snapshot>, growth: seq<GrowthPoint>, s: Snapshot, next: seq<GrowthPoint>)
    requires EveryDay(rows, growth) && |growth| <= |next| && next != []
    requires forall i :: 0 <= i < |growth| ==> next[i].day == growth[i].day
    requires next[|next| - 1].day == DayFloor(s.createdAt)
    ensures EveryDay(rows + [s], next)
  {
    hide DayFloor;
    forall r | r in rows + [s] ensures exists i :: 0 <= i < |next| && next[i].day == DayFloor(r.createdAt) {
      if r in rows {
        var i :| 0 <= i < |growth| && growth[i].day == DayFloor(r.createdAt);
        assert next[i].day == growth[i].day;
      } else {
        assert next[|next| - 1].day == DayFloor(r.createdAt);
      }
    }
  }

  lemma PointIs(rows: seq<Snapshot>, p: GrowthPoint)
    requires Point(rows, p)
    ensures p.uniqueBytes == UniqueBytes(RowRefs(UpTo(rows, p.day))) && p.snapshots == |UpTo(rows, p.day)|
  {
  }

  /** The totals on the last day are the totals of all. */
  lemma LastPoint(rows: seq<Snapshot>, growth: seq<GrowthPoint>)
    requires Curve(rows, growth) && rows != []
    ensures growth != []
    ensures growth[|growth| - 1].uniqueBytes == UniqueBytes(RowRefs(rows)) && growth[|growth| - 1].snapshots == |rows|
  {
    hide DayFloor, UniqueBytes, RowRefs, UpTo, Point;
    assert rows[0] in rows;
    var last := growth[|growth| - 1];
    forall s | s in rows ensures DayFloor(s.createdAt) <= last.day {
      var i :| 0 <= i < |growth| && growth[i].day == DayFloor(s.createdAt);
    }
    PointIs(rows, last);
    UpToAll(rows, last.day);
  }

  /** Cumulative growth over the rows in time order. */
  method GrowthOf(rows: seq<Snapshot>) returns (growth: seq<GrowthPoint>)
    requires TimeOrdered(rows)
    ensures Curve(rows, growth)
  {
    hide DayFloor, UniqueBytes, RowRefs, Curve, Lens, FileRefs, Extend;
    growth := [];
    var seen: set<Hash> := {};
    var unique := 0;
    Start(rows);
    for i := 0 to |rows|
      invariant seen == Lens(RowRefs(rows[..i])).Keys && unique == UniqueBytes(RowRefs(rows[..i]))
      invariant Curve(rows[..i], growth)
    {
      var s := rows[i];
      RowRefsSnoc(rows, i);
      assert rows[..i + 1] == rows[..i] + [s];
      seen, unique := CountFiles(seen, unique, s.files, RowRefs(rows[..i]));
      forall r | r in rows[..i] ensures r.createdAt <= s.createdAt {
        var j :| 0 <= j < i && rows[j] == r;
        assert Earlier(rows[j], rows[i]);
      }
      CurveStep(rows[..i], growth, s, unique);
      var day := DayFloor(s.createdAt);
      growth := Extend(growth, day, unique, i + 1);
    }
    assert rows[..|rows|] == rows;
  }

  lemma Start(rows: seq<Snapshot>)
    ensures Lens(RowRefs(rows[..0])).Keys == {} && UniqueBytes(RowRefs(rows[..0])) == 0
    ensures Curve(rows[..0], [])
  {
  }

  method UniqueTotal(rows: seq<Snapshot>) returns (unique: nat, effective: nat)
    ensures unique == UniqueBytes(RowRefs(rows)) && effective == Effective(rows)
  {
    hide UniqueBytes, RowRefs, Lens, FileRefs, TotalSize;
    var seen: set<Hash> := {};
    unique, effective := 0, 0;
    Start(rows);
    for i := 0 to |rows|
      invariant seen == Lens(RowRefs(rows[..i])).Keys && unique == UniqueBytes(RowRefs(rows[..i]))
      invariant effective == Effective(rows[..i])
    {
      RowRefsSnoc(rows, i);
      assert rows[..i + 1][..i] == rows[..i];
      seen, unique := CountFiles(seen, unique, rows[i].files, RowRefs(rows[..i]));
      effective := effective + TotalSize(rows[i].files);
    }
    assert rows[..|rows|] == rows;
  }

  /** The days, the totals up to each, and the end of the curve against the stats. */
  method ReportGrowth(snaps: map<nat, Snapshot>) returns (growth: seq<GrowthPoint>, unique: nat)
    ensures Curve(ByTime(AllRows(snaps)), growth)
    ensures unique == UniqueBytes(RowRefs(AllRows(snaps)))
    ensures forall i :: 0 <= i < |growth| ==> growth[i].day % MS_PER_DAY == 0
    ensures |growth| == 0 <==> snaps == map[]
    ensures snaps != map[] && OneLength(RowRefs(AllRows(snaps))) ==> growth[|growth| - 1].uniqueBytes == unique
    ensures snaps != map[] ==> growth[|growth| - 1].snapshots == |snaps|
  {
    hide AllRows, UniqueBytes, RowRefs, Curve, ByTime, OneLength;
    var rows := LoadAll(snaps);
    var effective: nat;
    unique, effective := UniqueTotal(rows);
    ByTimeOrders(rows);
    var sorted := ByTime(rows);
    growth := GrowthOf(sorted);
    SortedSameTotals(rows);
    RowCount(snaps);
    if sorted != [] {
      LastPoint(sorted, growth);
    }
    PointsNeedRows(sorted, growth);
    DaysAreMidnights(sorted, growth);
  }

  lemma DaysAreMidnights(rows: seq<Snapshot>, growth: seq<GrowthPoint>)
    requires Curve(rows, growth)
    ensures forall i :: 0 <= i < |growth| ==> growth[i].day % MS_PER_DAY == 0
  {
    hide DayFloor, UpTo, UniqueBytes, RowRefs;
    forall i | 0 <= i < |growth| ensures growth[i].day % MS_PER_DAY == 0 {
      assert Point(rows, growth[i]);
      var s :| s in rows && DayFloor(s.createdAt) == growth[i].day;
      DayFloorIs(s.createdAt);
    }
  }

  lemma PointsNeedRows(rows: seq<Snapshot>, growth: seq<GrowthPoint>)
    requires Curve(rows, growth)
    ensures growth != [] ==> rows != []
  {
    hide UpTo, UniqueBytes, RowRefs;
    if growth != [] {
      assert Point(rows, growth[0]);
    }
  }

  lemma RowCount(snaps: map<nat, Snapshot>)
    ensures |AllRows(snaps)| == |snaps|
  {
    SortedCount(snaps.Keys);
  }

  lemma {:induction false} SortedCount(ids: set<nat>)
    ensures |Sorted(ids)| == |ids|
    decreases |ids|
  {
    if ids != {} {
      LeastExists(ids);
      SortedCount(ids - {Least(ids)});
    }
  }

  /** Sorting by time changes neither the rows nor, with one length per digest, the bytes. */
  lemma SortedSameTotals(rows: seq<Snapshot>)
    ensures |ByTime(rows)| == |rows|
    ensures OneLength(RowRefs(rows)) ==> UniqueBytes(RowRefs(ByTime(rows))) == UniqueBytes(RowRefs(rows))
  {
    hide UniqueBytes, RowRefs, ByTime, FileRefs, OneLength;
    ByTimeOrders(rows);
    var sorted := ByTime(rows);
    assert |sorted| == |multiset(sorted)| && |rows| == |multiset(rows)|;
    forall s ensures s in sorted <==> s in rows {
      assert s in sorted <==> s in multiset(sorted);
      assert s in rows <==> s in multiset(rows);
    }
    RowRefsMembers(rows);
    RowRefsMembers(sorted);
    if OneLength(RowRefs(rows)) {
      UniqueOrderFree(RowRefs(rows), RowRefs(sorted));
    }
  }
}
