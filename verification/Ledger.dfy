/** What a compaction reports, against the rows it repointed and the packs it deleted. */
module Ledger {
  import opened Base
  import opened Sums
  import opened Locators
  import opened Library
  import opened StoreState
  import opened Compaction
  import opened Gc
  import opened Space

  /** The rows of both tables whose locators differ. */
  function Changed(a: map<Hash, Bytes>, b: map<Hash, Bytes>): set<Hash> {
    set h | h in a && h in b && Loc(a[h]) != Loc(b[h])
  }

  ghost function StoredAt(index: map<Hash, Bytes>, part: set<Hash>): map<Hash, nat> {
    map h | h in part && h in index :: Loc(index[h]).storedLen as nat
  }

  /** The stored bytes of the rows that changed. */
  ghost function MovedBytes(a: map<Hash, Bytes>, b: map<Hash, Bytes>): nat {
    Total(StoredAt(a, Changed(a, b)))
  }

  /**
   * The entries for what happened between `s` and `t`: the packs that went, all of them of
   * `from`; the rows repointed, all of them out of these packs and into none of them; and the
   * bytes given back, which with the bytes still on disk are those there were and those copied.
   */
  ghost predicate Booked(s: Store, t: Store, from: set<Uuid>, r: CompactReport) {
    && t.index.Keys == s.index.Keys
    && OutOf(s.index, t.index, from)
    && r.chunksMoved == |Changed(s.index, t.index)|
    && DiskBytes(s.packs) + MovedBytes(s.index, t.index) == DiskBytes(t.packs) + r.bytesReclaimed
    && s.packs.Keys - t.packs.Keys <= from && (t.packs.Keys - s.packs.Keys) !! from
    && r.packsCompacted == |s.packs.Keys - t.packs.Keys|
  }

  /** Rows change only by leaving these packs. */
  ghost predicate OutOf(a: map<Hash, Bytes>, b: map<Hash, Bytes>, from: set<Uuid>) {
    forall h :: h in Changed(a, b) ==> Loc(a[h]).packId in from && Loc(b[h]).packId !in from
  }

  lemma {:induction false} TotalUnion(index: map<Hash, Bytes>, a: set<Hash>, b: set<Hash>)
    requires a !! b && a + b <= index.Keys
    ensures Total(StoredAt(index, a + b)) == Total(StoredAt(index, a)) + Total(StoredAt(index, b))
  {
    hide Loc;
    TotalSplit(StoredAt(index, a + b), a);
    assert Restrict(StoredAt(index, a + b), a) == StoredAt(index, a);
    assert StoredAt(index, a + b) - a == StoredAt(index, b);
  }

  /** A row that has left the packs being drained does not move again. */
  lemma ChangedOnce(a: map<Hash, Bytes>, b: map<Hash, Bytes>, c: map<Hash, Bytes>, from: set<Uuid>)
    requires a.Keys == b.Keys == c.Keys
    requires OutOf(a, b, from) && OutOf(b, c, from)
    ensures Changed(a, c) == Changed(a, b) + Changed(b, c) && Changed(a, b) !! Changed(b, c)
    ensures MovedBytes(a, c) == MovedBytes(a, b) + MovedBytes(b, c)
    ensures |Changed(a, c)| == |Changed(a, b)| + |Changed(b, c)|
  {
    hide Loc;
    assert Changed(a, b) !! Changed(b, c);
    forall h | h in a ensures h in Changed(a, c) <==> h in Changed(a, b) || h in Changed(b, c) {
    }
    assert Changed(a, c) == Changed(a, b) + Changed(b, c);
    TotalUnion(a, Changed(a, b), Changed(b, c));
    assert StoredAt(a, Changed(b, c)) == StoredAt(b, Changed(b, c));
  }

  lemma StillOut(a: map<Hash, Bytes>, b: map<Hash, Bytes>, c: map<Hash, Bytes>, from: set<Uuid>)
    requires a.Keys == b.Keys == c.Keys
    requires OutOf(a, b, from) && OutOf(b, c, from)
    ensures OutOf(a, c, from)
  {
    hide Loc;
    forall h | h in Changed(a, c) ensures Loc(a[h]).packId in from && Loc(c[h]).packId !in from {
      assert h in Changed(a, b) || Loc(a[h]) == Loc(b[h]);
      assert h in Changed(b, c) || Loc(b[h]) == Loc(c[h]);
    }
  }

  lemma GoneOnce(a: set<Uuid>, b: set<Uuid>, c: set<Uuid>, from: set<Uuid>)
    requires a - b <= from && (b - a) !! from && b - c <= from && (c - b) !! from
    ensures a - c <= from && (c - a) !! from && |a - c| == |a - b| + |b - c|
  {
    assert a - c == (a - b) + (b - c) && (a - b) !! (b - c);
  }

  function AddReports(a: CompactReport, b: CompactReport): CompactReport {
    CompactReport(a.packsCompacted + b.packsCompacted, a.chunksMoved + b.chunksMoved,
                  a.bytesReclaimed + b.bytesReclaimed)
  }

  /** Two stretches of a pass add up. */
  lemma BookedOn(s: Store, t: Store, u: Store, from: set<Uuid>, a: CompactReport, b: CompactReport)
    requires Booked(s, t, from, a) && Booked(t, u, from, b)
    ensures Booked(s, u, from, AddReports(a, b))
  {
    hide Loc, MovedBytes, DiskBytes, Changed, OutOf;
    ChangedOnce(s.index, t.index, u.index, from);
    StillOut(s.index, t.index, u.index, from);
    GoneOnce(s.packs.Keys, t.packs.Keys, u.packs.Keys, from);
  }

  lemma NothingBooked(s: Store, from: set<Uuid>)
    ensures Booked(s, s, from, CompactReport(0, 0, 0))
  {
    hide Loc;
    assert Changed(s.index, s.index) == {};
    assert StoredAt(s.index, {}) == map[];
    assert s.packs.Keys - s.packs.Keys == {};
  }

  // ----- one move -----------------------------------------------------------------------

  lemma DiskSet(packs: map<Uuid, Bytes>, id: Uuid, b: Bytes)
    ensures DiskBytes(packs[id := b]) + SizeOf(packs, id) == DiskBytes(packs) + |b|
  {
    var next := packs[id := b];
    TotalRemove(Sizes(next), id);
    assert Sizes(next) - {id} == Sizes(packs) - {id};
    if id in packs {
      TotalRemove(Sizes(packs), id);
    } else {
      assert Sizes(packs) - {id} == Sizes(packs);
    }
  }

  lemma DiskDelete(packs: map<Uuid, Bytes>, id: Uuid)
    ensures DiskBytes(packs - {id}) + SizeOf(packs, id) == DiskBytes(packs)
  {
    assert Sizes(packs - {id}) == Sizes(packs) - {id};
    if id in packs {
      TotalRemove(Sizes(packs), id);
    } else {
      assert Sizes(packs) - {id} == Sizes(packs);
    }
  }

  /** Rolling and appending add exactly the bytes appended. */
  lemma DiskMove(lib: Lib, s: Store, b: Bytes)
    requires StoreInv(lib, s) && Fresh(lib, s, 1)
    ensures RollIfFull(lib, s).active in RollIfFull(lib, s).packs
    ensures DiskBytes(AppendTo(RollIfFull(lib, s), b).packs) == DiskBytes(s.packs) + |b|
  {
    hide DiskBytes, RowsInv;
    var t := RollIfFull(lib, s);
    assert lib.uuid(s.drawn) !in s.packs;
    DiskSet(s.packs, lib.uuid(s.drawn), []);
    DiskSet(t.packs, t.active, t.packs[t.active] + b);
  }

  lemma OneChanged(a: map<Hash, Bytes>, b: map<Hash, Bytes>, h: Hash)
    requires h in a && b.Keys == a.Keys && Loc(a[h]) != Loc(b[h])
    requires forall k :: k in a && k != h ==> b[k] == a[k]
    ensures Changed(a, b) == {h} && MovedBytes(a, b) == Loc(a[h]).storedLen
  {
    hide Loc;
    assert Changed(a, b) == {h};
    var m := StoredAt(a, {h});
    assert m == map[h := Loc(a[h]).storedLen as nat];
    TotalRemove(m, h);
    assert m - {h} == map[];
  }

  /** Targets of a pass stay what they were: never active, and never an identifier drawn later. */
  ghost predicate OldPacks(lib: Lib, s: Store, from: set<Uuid>, n: nat) {
    s.active !in from && forall i :: s.drawn <= i < s.drawn + n ==> lib.uuid(i) !in from
  }

  lemma MoveBooked(lib: Lib, s: Store, h: Hash, from: set<Uuid>, n: nat)
    requires StoreInv(lib, s) && Fresh(lib, s, 1) && OldPacks(lib, s, from, n + 1)
    requires h in s.index && Loc(s.index[h]).packId in from
    ensures Move(lib, s, h, Loc(s.index[h])).Ok?
    ensures var u := Move(lib, s, h, Loc(s.index[h])).value;
      Booked(s, u, from, CompactReport(0, 1, 0)) && OldPacks(lib, u, from, n)
  {
    hide Loc, RowsInv, Abs, Plain, DiskBytes, MovedBytes, EncodeLocator, DecodeLocator, LocOk, Changed;
    MoveSucceeds(lib, s, h);
    RowFacts(lib, s, h);
    StoredOfOk(lib, s.packs, h, Loc(s.index[h]));
    var b := Stored(s.packs, Loc(s.index[h])).value;
    DiskMove(lib, s, b);
    var u := Move(lib, s, h, Loc(s.index[h])).value;
    assert lib.uuid(s.drawn) !in from;
    OneChanged(s.index, u.index, h);
    assert s.packs.Keys - u.packs.Keys == {};
  }

  // ----- one pack -----------------------------------------------------------------------

  lemma {:induction false} DrainBooked(lib: Lib, s: Store, id: Uuid, live: seq<Row>, cancel: nat -> bool, polls: nat,
                                       from: set<Uuid>, n: nat)
    requires StoreInv(lib, s) && Fresh(lib, s, |live|) && OldPacks(lib, s, from, |live| + n)
    requires id in s.packs && id in from && Lists(live, s.index, RowsOf(s.index, id))
    ensures var d := Drain(lib, s, live, cancel, polls);
      Booked(s, d.store, from, CompactReport(0, d.moved, 0)) && OldPacks(lib, d.store, from, n)
    decreases |live|
  {
    hide Loc, StoreInv, Abs, Move, Fresh, RowsOf, Lists, Booked, Extends;
    if live == [] || cancel(polls) {
      NothingBooked(s, from);
    } else {
      DrainStep(lib, s, id, live);
      var t := Move(lib, s, live[0].0, live[0].1).value;
      FreshFewer(lib, s, |live|, 1);
      MoveBooked(lib, s, live[0].0, from, |live| - 1 + n);
      DrainBooked(lib, t, id, live[1..], cancel, polls + 1, from, n);
      var d := Drain(lib, t, live[1..], cancel, polls + 1);
      BookedOn(s, t, d.store, from, CompactReport(0, 1, 0), CompactReport(0, d.moved, 0));
    }
  }

  lemma DeleteBooked(s: Store, id: Uuid, from: set<Uuid>)
    requires id in s.packs && id in from
    ensures Booked(s, DeletePack(s, id), from, CompactReport(1, 0, |s.packs[id]|))
  {
    hide Changed, MovedBytes, DiskBytes;
    DiskDelete(s.packs, id);
    NothingBooked(s, from);
    assert s.packs.Keys - DeletePack(s, id).packs.Keys == {id};
  }

  /** A pack that is drained and deleted counts as one, with its bytes; a cancelled one counts only its moves. */
  lemma PackBooked(lib: Lib, s: Store, id: Uuid, live: seq<Row>, cancel: nat -> bool, polls: nat,
                   from: set<Uuid>, n: nat)
    requires StoreInv(lib, s) && Fresh(lib, s, |live|) && OldPacks(lib, s, from, |live| + n)
    requires id in s.packs && s.packs[id] != [] && id in from && Lists(live, s.index, RowsOf(s.index, id))
    ensures var p := CompactPack(lib, s, id, live, cancel, polls);
      && p.result.Ok? && OldPacks(lib, p.store, from, n)
      && Booked(s, p.store, from, CompactReport(if p.result.value > 0 then 1 else 0, p.moved, p.result.value))
  {
    hide StoreInv, Abs, Fresh, RowsOf, Lists, Booked, Drain;
    DrainBooked(lib, s, id, live, cancel, polls, from, n);
    DrainKeeps(lib, s, id, live, cancel, polls);
    var d := Drain(lib, s, live, cancel, polls);
    assert id in d.store.packs && s.packs[id] <= d.store.packs[id];
    if d.ending.Finished? {
      DeleteBooked(d.store, id, from);
      BookedOn(s, d.store, DeletePack(d.store, id), from, CompactReport(0, d.moved, 0),
               CompactReport(1, 0, |d.store.packs[id]|));
    }
  }

  // ----- the pass -------------------------------------------------------------------------

  lemma StillThere(base: Store, s: Store, targets: set<Uuid>, id: Uuid)
    requires Accounted(base, s, targets) && targets <= base.packs.Keys - {base.active}
    requires id in targets && id in s.packs
    ensures s.packs[id] == base.packs[id]
  {
    hide Full, LiveMap;
  }

  /** Under any cancellation the report of a pass is the ledger of what it did. */
  lemma {:induction false} PassBooked(lib: Lib, base: Store, s: Store, targets: set<Uuid>, plan: Plan,
                                      cancel: nat -> bool, polls: nat, from: set<Uuid>)
    requires Turn(lib, base, s, targets, PackIds(plan), Draws(plan, s))
    requires targets <= from && OldPacks(lib, s, from, Draws(plan, s))
    requires PlanFits(lib, s, plan, cancel, polls)
    requires forall id :: id in targets ==> base.packs[id] != []
    ensures var c := CompactAll(lib, s, plan, cancel, polls);
      c.result.Ok? && Booked(s, c.store, from, c.result.value)
    decreases |plan|
  {
    hide StoreInv, Abs, Accounted, RowsOf, Lists, CompactPack, Fresh, Unused, Booked;
    if plan == [] || cancel(polls) {
      NothingBooked(s, from);
    } else {
      var id, live := plan[0].0, plan[0].1;
      ListingIsSmall(live, s.index, RowsOf(s.index, id));
      var n := Draws(plan[1..], s);
      DrawsStep(plan, s);
      TurnFewer(lib, base, s, targets, PackIds(plan), Draws(plan, s), |live| + n);
      assert PackIds(plan)[1..] == PackIds(plan[1..]) && PackIds(plan)[0] == id;
      OneTurn(lib, base, s, targets, PackIds(plan), live, cancel, polls + 1, n);
      FewerOld(lib, s, from, Draws(plan, s), |live| + n);
      StillThere(base, s, targets, id);
      FreshFewer(lib, s, |live| + n, |live|);
      PackBooked(lib, s, id, live, cancel, polls + 1, from, n);
      var p := CompactPack(lib, s, id, live, cancel, polls + 1);
      SameDraws(plan[1..], s, p.store);
      PassBooked(lib, base, p.store, targets, plan[1..], cancel, p.polls, from);
      var c := CompactAll(lib, p.store, plan[1..], cancel, p.polls);
      BookedOn(s, p.store, c.store, from,
               CompactReport(if p.result.value > 0 then 1 else 0, p.moved, p.result.value), c.result.value);
    }
  }

  lemma FewerOld(lib: Lib, s: Store, from: set<Uuid>, n: nat, m: nat)
    requires OldPacks(lib, s, from, n) && m <= n
    ensures OldPacks(lib, s, from, m)
  {
  }

  lemma SameDraws(plan: Plan, s: Store, t: Store)
    requires t.index.Keys == s.index.Keys
    ensures Draws(plan, t) == Draws(plan, s)
  {
    assert |s.index| == |s.index.Keys| && |t.index| == |t.index.Keys|;
  }

  // ----- a compaction as a whole -----------------------------------------------------------

  /** What the two reports of a compaction say, in terms of the store before and after it. */
  ghost predicate Reported(start: Store, now: Store, gc: GcReport, r: CompactReport) {
    && gc.chunksSwept == |start.index.Keys - now.index.Keys|
    && r.chunksMoved == |Changed(start.index, now.index)|
    && gc.packsRemoved + r.packsCompacted == |start.packs.Keys - now.packs.Keys|
    && DiskBytes(start.packs) + MovedBytes(start.index, now.index)
       == DiskBytes(now.packs) + gc.bytesReclaimed + r.bytesReclaimed
  }

  lemma PacksThere(lib: Lib, s: Store)
    requires StoreInv(lib, s)
    ensures PacksExist(s)
  {
    hide Loc, RowsInv;
    forall h | h in s.index ensures Loc(s.index[h]).packId in s.packs {
      RowFacts(lib, s, h);
    }
  }

  lemma SameChanged(a: map<Hash, Bytes>, b: map<Hash, Bytes>, c: map<Hash, Bytes>)
    requires b.Keys == c.Keys <= a.Keys && forall h :: h in b ==> a[h] == b[h]
    ensures Changed(a, c) == Changed(b, c) && MovedBytes(a, c) == MovedBytes(b, c)
  {
    hide Loc;
    assert StoredAt(a, Changed(a, c)) == StoredAt(b, Changed(b, c));
  }

  lemma WholePacks(lib: Lib, start: Store, reach: set<Hash>, now: Store, r: CompactReport)
    requires StoreInv(lib, start) && Fresh(lib, start, 1)
    requires Booked(Roll(lib, Swept(start, reach)), now, start.packs.Keys, r)
    ensures SweepReport(start, reach).packsRemoved + r.packsCompacted == |start.packs.Keys - now.packs.Keys|
  {
    hide Loc, DeadPacks, DiskBytes, StoreInv, Swept, Roll, Booked, SweepReport, PacksExist, Restrict;
    var base, dead := Roll(lib, Swept(start, reach)), DeadPacks(start, reach);
    RolledSweep(lib, start, reach);
    SweepReported(start, reach);
    PacksBooked(base, now, start.packs.Keys, r);
    PacksThere(lib, start);
    DeadWereThere(start, reach);
    PacksGone(start.packs.Keys, dead, base.active, base.packs.Keys, now.packs.Keys);
  }

  lemma WholeRows(lib: Lib, start: Store, reach: set<Hash>, now: Store)
    requires Fresh(lib, start, 1) && now.index.Keys == Roll(lib, Swept(start, reach)).index.Keys
    ensures var base := Roll(lib, Swept(start, reach));
      && SweepReport(start, reach).chunksSwept == |start.index.Keys - now.index.Keys|
      && Changed(start.index, now.index) == Changed(base.index, now.index)
      && MovedBytes(start.index, now.index) == MovedBytes(base.index, now.index)
  {
    hide Loc, DeadPacks, DiskBytes, Changed, MovedBytes, Swept, Roll, Restrict, SweepReport, Fresh;
    RolledSweep(lib, start, reach);
    SweepReported(start, reach);
    RestrictKeeps(start.index, reach);
    SameChanged(start.index, Roll(lib, Swept(start, reach)).index, now.index);
    RowsGone(start.index, reach, now.index);
  }

  /** The sweep before the pass and the roll between them put into the account. */
  lemma WholeBooked(lib: Lib, start: Store, reach: set<Hash>, now: Store, r: CompactReport)
    requires StoreInv(lib, start) && Fresh(lib, start, 1)
    requires Booked(Roll(lib, Swept(start, reach)), now, start.packs.Keys, r)
    ensures Reported(start, now, SweepReport(start, reach), r)
  {
    hide DiskBytes, Changed, MovedBytes, StoreInv, Swept, Roll, Booked, SweepReport, Fresh, DeadPacks, Restrict;
    WholePacks(lib, start, reach, now, r);
    SweepConserves(start, reach);
    RollAddsNothing(lib, start, reach);
    RowsBooked(Roll(lib, Swept(start, reach)), now, start.packs.Keys, r);
    WholeRows(lib, start, reach, now);
  }

  lemma PacksBooked(s: Store, t: Store, from: set<Uuid>, r: CompactReport)
    requires Booked(s, t, from, r)
    ensures r.packsCompacted == |s.packs.Keys - t.packs.Keys| && s.packs.Keys - t.packs.Keys <= from
    ensures (t.packs.Keys - s.packs.Keys) !! from
  {
    hide Changed, DiskBytes, MovedBytes;
  }

  lemma RowsBooked(s: Store, t: Store, from: set<Uuid>, r: CompactReport)
    requires Booked(s, t, from, r)
    ensures r.chunksMoved == |Changed(s.index, t.index)| && t.index.Keys == s.index.Keys
    ensures DiskBytes(s.packs) + MovedBytes(s.index, t.index) == DiskBytes(t.packs) + r.bytesReclaimed
  {
    hide Changed, DiskBytes, MovedBytes;
  }

  lemma RestrictKeeps(a: map<Hash, Bytes>, reach: set<Hash>)
    ensures Restrict(a, reach).Keys <= a.Keys && forall h :: h in Restrict(a, reach) ==> a[h] == Restrict(a, reach)[h]
  {
  }

  lemma RolledSweep(lib: Lib, start: Store, reach: set<Hash>)
    requires Fresh(lib, start, 1)
    ensures var swept, base := Swept(start, reach), Roll(lib, Swept(start, reach));
      && swept.index == base.index == Restrict(start.index, reach)
      && base.active !in start.packs && DiskBytes(base.packs) == DiskBytes(swept.packs)
      && base.packs.Keys == start.packs.Keys - DeadPacks(start, reach) + {base.active}
  {
    hide DeadPacks, DiskBytes;
    var swept, base := Swept(start, reach), Roll(lib, Swept(start, reach));
    assert lib.uuid(start.drawn) !in start.packs;
    DiskSet(swept.packs, base.active, []);
  }

  lemma RollAddsNothing(lib: Lib, start: Store, reach: set<Hash>)
    requires Fresh(lib, start, 1)
    ensures DiskBytes(Roll(lib, Swept(start, reach)).packs) == DiskBytes(Swept(start, reach).packs)
  {
    hide DiskBytes, Swept, Roll, DeadPacks, Fresh;
    RolledSweep(lib, start, reach);
  }

  lemma PacksGone(start: set<Uuid>, dead: set<Uuid>, drawn: Uuid, packs: set<Uuid>, now: set<Uuid>)
    requires dead <= start && drawn !in start && packs == start - dead + {drawn}
    requires packs - now <= start && (now - packs) !! start
    ensures |start - now| == |dead| + |packs - now|
  {
    var gone := packs - now;
    assert start - now == dead + gone && dead !! gone;
  }

  lemma RowsGone(a: map<Hash, Bytes>, reach: set<Hash>, b: map<Hash, Bytes>)
    requires b.Keys == Restrict(a, reach).Keys
    ensures a.Keys - b.Keys == a.Keys - reach
  {
  }

  // ----- cancellation ------------------------------------------------------------------------

  /** A drain polls before each row; from the first yes on it moves nothing. */
  lemma {:induction false} DrainStops(lib: Lib, s: Store, live: seq<Row>, cancel: nat -> bool, polls: nat, k: nat)
    requires forall i :: i >= k ==> cancel(i)
    ensures var d := Drain(lib, s, live, cancel, polls);
      && d.moved <= Max(0, k - polls)
      && (d.ending.Finished? ==> d.polls == polls + d.moved && d.moved == |live|)
      && (d.ending.Cancelled? ==> d.moved < |live|)
      && d.polls >= polls + d.moved
    decreases |live|
  {
    hide Move;
    if live != [] && !cancel(polls) {
      var m := Move(lib, s, live[0].0, live[0].1);
      if m.Ok? {
        DrainStops(lib, m.value, live[1..], cancel, polls + 1, k);
      }
    }
  }

  /** A pass cancelled for good at its k-th poll has moved at most k chunks. */
  lemma {:induction false} PassStops(lib: Lib, s: Store, plan: Plan, cancel: nat -> bool, polls: nat, k: nat)
    requires forall i :: i >= k ==> cancel(i)
    ensures var c := CompactAll(lib, s, plan, cancel, polls);
      c.result.Ok? ==> c.result.value.chunksMoved <= Max(0, k - polls)
    ensures polls >= k ==> CompactAll(lib, s, plan, cancel, polls) == Compacted(s, Ok(CompactReport(0, 0, 0)))
    decreases |plan|
  {
    hide Drain;
    if plan != [] && !cancel(polls) {
      DrainStops(lib, s, plan[0].1, cancel, polls + 1, k);
      var p := CompactPack(lib, s, plan[0].0, plan[0].1, cancel, polls + 1);
      PassStops(lib, p.store, plan[1..], cancel, p.polls, k);
    }
  }
}
