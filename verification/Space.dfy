/** How much disk a compaction leaves in use. */
module Space {
  import opened Base
  import opened Sums
  import opened Locators
  import opened Library
  import opened StoreState
  import opened Compaction
  import opened Gc

  ghost function StoredMap(index: map<Hash, Bytes>): map<Hash, nat> {
    map h | h in index :: Loc(index[h]).storedLen as nat
  }

  /** The bytes that index rows point at, over the whole store. */
  ghost function StoredBytes(index: map<Hash, Bytes>): nat {
    Total(StoredMap(index))
  }

  ghost function LiveMap(index: map<Hash, Bytes>, id: Uuid): map<Hash, nat> {
    map h | h in index && Loc(index[h]).packId == id :: Loc(index[h]).storedLen as nat
  }

  /** The bytes of one pack that index rows point at. */
  ghost function LiveBytes(index: map<Hash, Bytes>, id: Uuid): nat {
    Total(LiveMap(index, id))
  }

  ghost function LivePer(index: map<Hash, Bytes>, ids: set<Uuid>): map<Uuid, nat> {
    map id | id in ids :: LiveBytes(index, id)
  }

  lemma LiveElsewhere(index: map<Hash, Bytes>, id: Uuid, other: Uuid)
    requires other != id
    ensures LiveMap(index - RowsOf(index, id), other) == LiveMap(index, other)
  {
    hide Loc;
  }

  lemma LivePerElsewhere(index: map<Hash, Bytes>, id: Uuid, ids: set<Uuid>)
    requires id !in ids
    ensures LivePer(index - RowsOf(index, id), ids) == LivePer(index, ids)
  {
    hide Loc, LiveMap;
    forall other | other in ids
      ensures LiveBytes(index - RowsOf(index, id), other) == LiveBytes(index, other)
    {
      LiveElsewhere(index, id, other);
    }
  }

  lemma StoredSplit(index: map<Hash, Bytes>, id: Uuid)
    ensures StoredBytes(index) == LiveBytes(index, id) + StoredBytes(index - RowsOf(index, id))
  {
    hide Loc;
    TotalSplit(StoredMap(index), RowsOf(index, id));
    assert Restrict(StoredMap(index), RowsOf(index, id)) == LiveMap(index, id);
    assert StoredMap(index) - RowsOf(index, id) == StoredMap(index - RowsOf(index, id));
  }

  /** The per-pack live bytes add up to the stored bytes of the index. */
  lemma {:induction false} StoredByPack(index: map<Hash, Bytes>, ids: set<Uuid>)
    requires forall h :: h in index ==> Loc(index[h]).packId in ids
    ensures Total(LivePer(index, ids)) == StoredBytes(index)
    decreases |ids|
  {
    hide Loc, LiveMap;
    if ids == {} {
      assert StoredMap(index) == map[];
      assert LivePer(index, ids) == map[];
    } else {
      var id :| id in ids;
      var rest := index - RowsOf(index, id);
      StoredSplit(index, id);
      LivePerElsewhere(index, id, ids - {id});
      assert forall h :: h in rest ==> h !in RowsOf(index, id);
      StoredByPack(rest, ids - {id});
      TotalRemove(LivePer(index, ids), id);
      assert LivePer(index, ids) - {id} == LivePer(index, ids - {id});
    }
  }

  /** A pack without dead bytes. */
  ghost predicate Full(s: Store, id: Uuid)
    requires id in s.packs
  {
    |s.packs[id]| == LiveBytes(s.index, id)
  }

  /**
   * During a compaction that started from `base`: a pack that was there and not active is
   * as it was, except that the rows of a target may have left; every other pack is full.
   */
  ghost predicate Accounted(base: Store, s: Store, targets: set<Uuid>) {
    && (s.active in base.packs ==> s.active == base.active)
    && (forall id :: id in s.packs && id in base.packs && id != base.active ==>
          s.packs[id] == base.packs[id] && (id !in targets ==> LiveMap(s.index, id) == LiveMap(base.index, id)))
    && (forall id :: id in s.packs && (id !in base.packs || id == base.active) ==> Full(s, id))
  }

  /** Identifiers still to be drawn differ from every pack the compaction started with. */
  ghost predicate Unused(lib: Lib, base: Store, s: Store, n: nat) {
    forall i :: s.drawn <= i < s.drawn + n ==> lib.uuid(i) !in base.packs
  }

  /** A pack the compaction started with does not come back once deleted. */
  ghost predicate NoneReturn(base: Store, s: Store, t: Store) {
    forall id :: id in t.packs && id in base.packs ==> id in s.packs
  }

  lemma RollNone(lib: Lib, base: Store, s: Store)
    requires Unused(lib, base, s, 1)
    ensures NoneReturn(base, s, RollIfFull(lib, s))
  {
    assert lib.uuid(s.drawn) !in base.packs;
  }

  lemma NoRowsNoBytes(index: map<Hash, Bytes>, id: Uuid)
    requires forall h :: h in index ==> Loc(index[h]).packId != id
    ensures LiveBytes(index, id) == 0
  {
    hide Loc;
    assert LiveMap(index, id) == map[];
  }

  lemma RollAccounts(lib: Lib, base: Store, s: Store, targets: set<Uuid>)
    requires Accounted(base, s, targets) && StoreInv(lib, s)
    requires Fresh(lib, s, 1) && Unused(lib, base, s, 1)
    ensures Accounted(base, RollIfFull(lib, s), targets)
  {
    hide DecodeLocator, Loc, Plain, LiveMap, LiveBytes;
    if s.size >= lib.rollover {
      var id := lib.uuid(s.drawn);
      forall h | h in s.index ensures Loc(s.index[h]).packId != id {
        RowFacts(lib, s, h);
      }
      NoRowsNoBytes(s.index, id);
      var t := Roll(lib, s);
      assert t.packs[id] == [] && Full(t, id);
      forall p | p in t.packs && (p !in base.packs || p == base.active) ensures Full(t, p) {
        if p != id { assert Full(s, p); }
      }
    }
  }

  lemma RepointElsewhere(index: map<Hash, Bytes>, next: map<Hash, Bytes>, h: Hash, id: Uuid)
    requires h in index && next.Keys == index.Keys
    requires forall k :: k in index && k != h ==> next[k] == index[k]
    requires id != Loc(index[h]).packId && id != Loc(next[h]).packId
    ensures LiveMap(next, id) == LiveMap(index, id)
  {
    hide Loc;
  }

  lemma RepointHere(index: map<Hash, Bytes>, next: map<Hash, Bytes>, h: Hash)
    requires h in index && next.Keys == index.Keys
    requires forall k :: k in index && k != h ==> next[k] == index[k]
    requires Loc(next[h]).packId != Loc(index[h]).packId
    ensures h !in LiveMap(index, Loc(next[h]).packId)
    ensures LiveMap(next, Loc(next[h]).packId)
      == LiveMap(index, Loc(next[h]).packId)[h := Loc(next[h]).storedLen as nat]
  {
    hide Loc;
  }

  /** Repointing a row moves its bytes from one pack's account to another's. */
  lemma RepointLive(index: map<Hash, Bytes>, next: map<Hash, Bytes>, h: Hash, id: Uuid)
    requires h in index && next.Keys == index.Keys
    requires forall k :: k in index && k != h ==> next[k] == index[k]
    requires Loc(next[h]).packId != Loc(index[h]).packId
    ensures id != Loc(index[h]).packId && id != Loc(next[h]).packId ==> LiveMap(next, id) == LiveMap(index, id)
    ensures id == Loc(next[h]).packId ==> LiveBytes(next, id) == LiveBytes(index, id) + Loc(next[h]).storedLen
  {
    hide Loc, LiveMap;
    if id == Loc(next[h]).packId {
      RepointHere(index, next, h);
      TotalInsert(LiveMap(index, id), h, Loc(next[h]).storedLen as nat);
    } else if id != Loc(index[h]).packId {
      RepointElsewhere(index, next, h, id);
    }
  }

  lemma MoveShape(lib: Lib, s: Store, h: Hash)
    requires StoreInv(lib, s) && Fresh(lib, s, 1) && h in s.index
    requires Move(lib, s, h, Loc(s.index[h])).Ok?
    ensures var t := RollIfFull(lib, s);
            var u := Move(lib, s, h, Loc(s.index[h])).value;
      && t.active in t.packs
      && u.active == t.active && u.packs.Keys == t.packs.Keys
      && (forall id :: id in t.packs && id != t.active ==> u.packs[id] == t.packs[id])
      && |u.packs[t.active]| == |t.packs[t.active]| + Loc(s.index[h]).storedLen
      && t.index == s.index
  {
    hide DecodeLocator, EncodeLocator, Loc, RowsInv;
  }

  lemma MoveAccounts(lib: Lib, base: Store, s: Store, targets: set<Uuid>, h: Hash)
    requires Accounted(base, s, targets) && StoreInv(lib, s)
    requires Fresh(lib, s, 1) && Unused(lib, base, s, 1)
    requires h in s.index && Loc(s.index[h]).packId in targets
    requires targets <= base.packs.Keys - {base.active}
    ensures Move(lib, s, h, Loc(s.index[h])).Ok?
    ensures Accounted(base, Move(lib, s, h, Loc(s.index[h])).value, targets)
    ensures NoneReturn(base, s, Move(lib, s, h, Loc(s.index[h])).value)
  {
    hide DecodeLocator, EncodeLocator, Loc, Plain, LiveMap, LiveBytes, Move, RollIfFull, RowsInv, Abs;
    MoveSucceeds(lib, s, h);
    RollAccounts(lib, base, s, targets);
    MoveShape(lib, s, h);
    RollNone(lib, base, s);
    var t := RollIfFull(lib, s);
    var u := Move(lib, s, h, Loc(s.index[h])).value;
    assert Loc(s.index[h]).packId != u.active;
    forall id | id in u.packs && id in base.packs && id != base.active
      ensures u.packs[id] == base.packs[id]
      ensures id !in targets ==> LiveMap(u.index, id) == LiveMap(base.index, id)
    {
      RepointLive(s.index, u.index, h, id);
    }
    forall id | id in u.packs && (id !in base.packs || id == base.active) ensures Full(u, id) {
      assert Full(t, id);
      RepointLive(s.index, u.index, h, id);
      SameLive(s.index, u.index, id);
    }
  }

  lemma SameLive(a: map<Hash, Bytes>, b: map<Hash, Bytes>, id: Uuid)
    ensures LiveMap(a, id) == LiveMap(b, id) ==> LiveBytes(a, id) == LiveBytes(b, id)
  {
  }

  /** Draining a target preserves the accounts and uses at most one identifier a move. */
  lemma {:induction false} DrainAccounts(lib: Lib, base: Store, s: Store, targets: set<Uuid>, id: Uuid,
                                         live: seq<Row>, cancel: nat -> bool, polls: nat, n: nat)
    requires Accounted(base, s, targets) && StoreInv(lib, s)
    requires Fresh(lib, s, |live| + n) && Unused(lib, base, s, |live| + n)
    requires id in targets && id in s.packs && targets <= base.packs.Keys - {base.active}
    requires Lists(live, s.index, RowsOf(s.index, id))
    ensures var t := Drain(lib, s, live, cancel, polls).store;
      Accounted(base, t, targets) && Fresh(lib, t, n) && Unused(lib, base, t, n)
      && t.index.Keys == s.index.Keys && t.packs.Keys >= s.packs.Keys && NoneReturn(base, s, t)
    decreases |live|
  {
    hide DecodeLocator, Loc, Stored, RowsInv, Abs, Plain, Move, Accounted, RowsOf;
    if live != [] && !cancel(polls) {
      var h := live[0].0;
      assert live[0].1 == Loc(s.index[h]);
      assert Loc(s.index[h]).packId == id by { RowOfPack(s.index, h, id); }
      MoveAccounts(lib, base, s, targets, h);
      MoveSucceeds(lib, s, h);
      var t := Move(lib, s, h, Loc(s.index[h])).value;
      MoveFresh(lib, s, h, Loc(s.index[h]), |live| - 1 + n);
      MoveDraws(lib, s, h, Loc(s.index[h]));
      assert id != s.active by { TargetInactive(base, s, targets, id); }
      MoveActive(lib, s, h, Loc(s.index[h]), id);
      ListsAfterMove(s, t, live, id);
      DrainAccounts(lib, base, t, targets, id, live[1..], cancel, polls + 1, n);
    }
  }

  lemma TargetInactive(base: Store, s: Store, targets: set<Uuid>, id: Uuid)
    requires Accounted(base, s, targets) && id in targets && targets <= base.packs.Keys - {base.active}
    ensures id != s.active
  {
  }

  lemma MoveDraws(lib: Lib, s: Store, h: Hash, l: Locator)
    requires Move(lib, s, h, l).Ok?
    ensures s.drawn <= Move(lib, s, h, l).value.drawn <= s.drawn + 1
  {
    hide EncodeLocator, Stored;
  }

  // ----- a whole compaction -------------------------------------------------

  datatype CompactReport = CompactReport(packsCompacted: nat, chunksMoved: nat, bytesReclaimed: nat)

  /** The packs to drain, in order, each with its live rows as listed when its turn came. */
  type Plan = seq<(Uuid, seq<Row>)>

  datatype Compacted = Compacted(store: Store, result: Result<CompactReport>)

  function Counted(moved: nat, freed: nat, rest: CompactReport): CompactReport {
    CompactReport((if freed > 0 then 1 else 0) + rest.packsCompacted, moved + rest.chunksMoved,
                  freed + rest.bytesReclaimed)
  }

  /** The loop of `compact` over its targets, with a poll before each. */
  function CompactAll(lib: Lib, s: Store, plan: Plan, cancel: nat -> bool, polls: nat): Compacted
    decreases |plan|
  {
    if plan == [] || cancel(polls) then Compacted(s, Ok(CompactReport(0, 0, 0)))
    else
      var p := CompactPack(lib, s, plan[0].0, plan[0].1, cancel, polls + 1);
      match p.result
      case Err(e) => Compacted(p.store, Err(e))
      case Ok(freed) =>
        var rest := CompactAll(lib, p.store, plan[1..], cancel, p.polls);
        match rest.result
        case Err(e) => rest
        case Ok(r) => rest.(result := Ok(Counted(p.moved, freed, r)))
  }

  /** The plan lists, at each turn, exactly the rows then in the pack. */
  ghost predicate PlanFits(lib: Lib, s: Store, plan: Plan, cancel: nat -> bool, polls: nat)
    decreases |plan|
  {
    plan == [] || cancel(polls) ||
    (Lists(plan[0].1, s.index, RowsOf(s.index, plan[0].0)) &&
     var p := CompactPack(lib, s, plan[0].0, plan[0].1, cancel, polls + 1);
     p.result.Ok? ==> PlanFits(lib, p.store, plan[1..], cancel, p.polls))
  }

  ghost predicate Targets(plan: Plan, ids: set<Uuid>) {
    && (forall i :: 0 <= i < |plan| ==> plan[i].0 in ids)
    && (forall id :: id in ids ==> exists i :: 0 <= i < |plan| && plan[i].0 == id)
    && (forall i, j :: 0 <= i < j < |plan| ==> plan[i].0 != plan[j].0)
  }

  /** What holds between two turns of the loop: `left` packs are still to drain. */
  ghost predicate Turn(lib: Lib, base: Store, s: Store, targets: set<Uuid>, left: seq<Uuid>, n: nat) {
    && StoreInv(lib, s) && Accounted(base, s, targets)
    && Fresh(lib, s, n) && Unused(lib, base, s, n)
    && (forall i :: 0 <= i < |left| ==> left[i] in targets && left[i] in s.packs)
    && (forall i, j :: 0 <= i < j < |left| ==> left[i] != left[j])
    && targets <= base.packs.Keys - {base.active}
  }

  function PackIds(plan: Plan): seq<Uuid> {
    seq(|plan|, i requires 0 <= i < |plan| => plan[i].0)
  }

  /** A bound on how many identifiers the pass can draw: one a move. */
  function Draws(plan: Plan, s: Store): nat {
    |plan| * |s.index|
  }

  lemma DrawsStep(plan: Plan, s: Store)
    requires plan != []
    ensures Draws(plan, s) == |s.index| + Draws(plan[1..], s)
  {
    assert (|plan| - 1) * |s.index| + |s.index| == |plan| * |s.index|;
  }

  lemma ListingIsSmall(rows: seq<Row>, index: map<Hash, Bytes>, keep: set<Hash>)
    requires Lists(rows, index, keep)
    ensures |rows| <= |index|
  {
    hide Loc;
    var heads := seq(|rows|, i requires 0 <= i < |rows| => rows[i].0);
    DistinctCount(heads, index.Keys);
  }

  lemma {:induction false} DistinctCount<T>(xs: seq<T>, all: set<T>)
    requires forall i :: 0 <= i < |xs| ==> xs[i] in all
    requires forall i, j :: 0 <= i < j < |xs| ==> xs[i] != xs[j]
    ensures |xs| <= |all|
  {
    if xs != [] {
      DistinctCount(xs[1..], all - {xs[0]});
    }
  }

  lemma OneTurn(lib: Lib, base: Store, s: Store, targets: set<Uuid>, left: seq<Uuid>, live: seq<Row>,
                cancel: nat -> bool, polls: nat, n: nat)
    requires left != [] && Turn(lib, base, s, targets, left, |live| + n)
    requires Lists(live, s.index, RowsOf(s.index, left[0]))
    ensures var p := CompactPack(lib, s, left[0], live, cancel, polls);
      && p.result.Ok?
      && Turn(lib, base, p.store, targets, left[1..], n)
      && Abs(lib, p.store.index, p.store.packs) == Abs(lib, s.index, s.packs)
      && p.store.index.Keys == s.index.Keys
      && p.store.manifests == s.manifests
      && ((forall i :: !cancel(i)) ==> left[0] !in p.store.packs)
      && NoneReturn(base, s, p.store)
  {
    hide DecodeLocator, Loc, RowsInv, Abs, Accounted, Plain, RowsOf, Lists, Drain;
    var id := left[0];
    TargetInactive(base, s, targets, id);
    FreshFewer(lib, s, |live| + n, |live|);
    CompactPackKeeps(lib, s, id, live, cancel, polls);
    DrainAccounts(lib, base, s, targets, id, live, cancel, polls, n);
    var t := Drain(lib, s, live, cancel, polls).store;
    DeleteAccounts(base, t, targets, id);
    forall i | 0 <= i < |left[1..]| ensures left[1..][i] in targets && left[1..][i] in t.packs && left[1..][i] != id {
      assert left[1..][i] == left[i + 1];
      assert left[i + 1] in s.packs;
    }
  }

  lemma DeleteAccounts(base: Store, s: Store, targets: set<Uuid>, id: Uuid)
    requires Accounted(base, s, targets)
    ensures Accounted(base, DeletePack(s, id), targets)
  {
    hide Loc, LiveMap, LiveBytes;
    var t := DeletePack(s, id);
    forall p | p in t.packs && (p !in base.packs || p == base.active) ensures Full(t, p) {
      assert Full(s, p);
    }
  }

  /**
   * The loop as a whole, under any cancellation: the invariant, the abstract map, the index
   * keys and the accounts survive; without cancellation every target is gone.
   */
  lemma {:induction false} CompactAllKeeps(lib: Lib, base: Store, s: Store, targets: set<Uuid>, plan: Plan,
                                           cancel: nat -> bool, polls: nat)
    requires Turn(lib, base, s, targets, PackIds(plan), Draws(plan, s))
    requires PlanFits(lib, s, plan, cancel, polls)
    ensures var c := CompactAll(lib, s, plan, cancel, polls);
      && c.result.Ok?
      && StoreInv(lib, c.store) && Accounted(base, c.store, targets)
      && Abs(lib, c.store.index, c.store.packs) == Abs(lib, s.index, s.packs)
      && c.store.index.Keys == s.index.Keys
      && c.store.manifests == s.manifests
      && NoneReturn(base, s, c.store)
      && ((forall i :: !cancel(i)) ==> forall i :: 0 <= i < |plan| ==> plan[i].0 !in c.store.packs)
    decreases |plan|
  {
    hide DecodeLocator, Loc, StoreInv, Abs, Accounted, RowsOf, Lists, CompactPack, Fresh, Unused;
    if plan != [] && !cancel(polls) {
      var live := plan[0].1;
      ListingIsSmall(live, s.index, RowsOf(s.index, plan[0].0));
      var n := Draws(plan[1..], s);
      DrawsStep(plan, s);
      TurnFewer(lib, base, s, targets, PackIds(plan), Draws(plan, s), |live| + n);
      assert PackIds(plan)[1..] == PackIds(plan[1..]);
      OneTurn(lib, base, s, targets, PackIds(plan), live, cancel, polls + 1, n);
      var p := CompactPack(lib, s, plan[0].0, live, cancel, polls + 1);
      CompactAllKeeps(lib, base, p.store, targets, plan[1..], cancel, p.polls);
      var c := CompactAll(lib, s, plan, cancel, polls);
      if forall i :: !cancel(i) {
        forall i | 0 <= i < |plan| ensures plan[i].0 !in c.store.packs {
          if i == 0 {
            assert PackIds(plan)[0] == plan[0].0;
          } else {
            assert plan[i] == plan[1..][i - 1];
          }
        }
      }
    }
  }

  lemma TurnFewer(lib: Lib, base: Store, s: Store, targets: set<Uuid>, left: seq<Uuid>, n: nat, m: nat)
    requires Turn(lib, base, s, targets, left, n) && m <= n
    ensures Turn(lib, base, s, targets, left, m)
  {
    hide StoreInv, Accounted;
  }

  // ----- the bound ----------------------------------------------------------

  ghost function DeadBytes(s: Store, id: Uuid): nat
    requires id in s.packs
  {
    Max(0, |s.packs[id]| - LiveBytes(s.index, id))
  }

  /** The packs `compact` rewrites: not active, not empty, and at least num/den dead. */
  ghost function Selected(s: Store, num: nat, den: nat): set<Uuid> {
    set id | id in s.packs && id != s.active && |s.packs[id]| > 0
             && DeadBytes(s, id) * den >= |s.packs[id]| * num
  }

  /** A just-rolled store is its own starting account. */
  lemma StartAccounts(lib: Lib, s: Store, targets: set<Uuid>, n: nat)
    requires StoreInv(lib, s) && Fresh(lib, s, n + 1)
    ensures var base := Roll(lib, s);
      Accounted(base, base, targets) && Fresh(lib, base, n) && Unused(lib, base, base, n)
  {
    hide DecodeLocator, Loc, Plain, LiveMap, LiveBytes;
    FreshAfterRoll(lib, s, n);
    var base := Roll(lib, s);
    forall h | h in s.index ensures Loc(s.index[h]).packId != base.active {
      RowFacts(lib, s, h);
    }
    NoRowsNoBytes(s.index, base.active);
    assert base.packs[base.active] == [] && Full(base, base.active);
  }

  lemma UnselectedIsLive(file: nat, live: nat, num: nat, den: nat)
    requires Max(0, file - live) * den < file * num
    ensures Below(den - num, file, den, live)
  {
    assert (file - live) * den <= Max(0, file - live) * den;
    assert (file - live) * den == file * den - live * den;
    assert (den - num) * file == file * den - file * num;
  }

  lemma EmptyIsLive(live: nat, num: nat, den: nat)
    ensures Below(den - num, 0, den, live)
  {
  }

  lemma FullIsLive(file: nat, num: nat, den: nat)
    ensures Below(den - num, file, den, file)
  {
    assert (den - num) * file == den * file - num * file;
  }

  /** After the pass every remaining pack is under the threshold. */
  lemma PackBound(base: Store, s: Store, num: nat, den: nat, id: Uuid)
    requires Accounted(base, s, Selected(base, num, den)) && id in s.packs
    requires id !in Selected(base, num, den)
    ensures Below(den - num, |s.packs[id]|, den, LiveBytes(s.index, id))
  {
    hide Loc, LiveMap, LiveBytes, Below;
    var file, live := |s.packs[id]|, LiveBytes(s.index, id);
    if id !in base.packs || id == base.active {
      assert Full(s, id);
      FullIsLive(file, num, den);
    } else {
      SameLive(s.index, base.index, id);
      if file == 0 {
        EmptyIsLive(live, num, den);
      } else {
        UnselectedIsLive(file, live, num, den);
      }
    }
  }

  /** Per-pack bounds add up to a bound on the disk. */
  lemma DiskBound(lib: Lib, s: Store, num: nat, den: nat)
    requires StoreInv(lib, s)
    requires forall id :: id in s.packs ==> Below(den - num, |s.packs[id]|, den, LiveBytes(s.index, id))
    ensures (den - num) * DiskBytes(s.packs) <= den * StoredBytes(s.index)
  {
    hide DecodeLocator, Loc, LiveBytes, StoredBytes;
    forall h | h in s.index ensures Loc(s.index[h]).packId in s.packs.Keys {
      RowFacts(lib, s, h);
    }
    StoredByPack(s.index, s.packs.Keys);
    var files, lives := Sizes(s.packs), LivePer(s.index, s.packs.Keys);
    forall id | id in files ensures Below(den - num, files[id], den, lives[id]) {
      assert files[id] == |s.packs[id]| && lives[id] == LiveBytes(s.index, id);
    }
    TotalScaled(files, lives, den - num, den);
  }

  /**
   * After an uncancelled compaction at dead-byte threshold num/den the disk holds at most
   * den/(den-num) times the bytes that index rows need, the store is sound, and every digest
   * still stands for the same text.
   */
  lemma CompactionBound(lib: Lib, s: Store, plan: Plan, cancel: nat -> bool, num: nat, den: nat)
    requires StoreInv(lib, s) && Fresh(lib, s, 1 + Draws(plan, s))
    requires Targets(plan, Selected(Roll(lib, s), num, den))
    requires PlanFits(lib, Roll(lib, s), plan, cancel, 0)
    requires forall i :: !cancel(i)
    ensures var c := CompactAll(lib, Roll(lib, s), plan, cancel, 0);
      && c.result.Ok? && StoreInv(lib, c.store)
      && Abs(lib, c.store.index, c.store.packs) == Abs(lib, s.index, s.packs)
      && (den - num) * DiskBytes(c.store.packs) <= den * StoredBytes(c.store.index)
  {
    hide DecodeLocator, Loc, LiveBytes, StoredBytes, Accounted, DiskBytes, Abs, RowsInv, PlanFits, DeadBytes;
    var base := Roll(lib, s);
    CompactionSafe(lib, s, plan, cancel, num, den);
    var c := CompactAll(lib, base, plan, cancel, 0);
    forall id | id in Selected(base, num, den) ensures id !in c.store.packs {
      var i :| 0 <= i < |plan| && plan[i].0 == id;
    }
    forall id | id in c.store.packs
      ensures Below(den - num, |c.store.packs[id]|, den, LiveBytes(c.store.index, id))
    {
      PackBound(base, c.store, num, den, id);
    }
    DiskBound(lib, c.store, num, den);
  }

  lemma StartTurn(lib: Lib, s: Store, plan: Plan, num: nat, den: nat)
    requires StoreInv(lib, s) && Fresh(lib, s, 1 + Draws(plan, s))
    requires Targets(plan, Selected(Roll(lib, s), num, den))
    ensures Turn(lib, Roll(lib, s), Roll(lib, s), Selected(Roll(lib, s), num, den), PackIds(plan), Draws(plan, s))
    ensures Abs(lib, Roll(lib, s).index, Roll(lib, s).packs) == Abs(lib, s.index, s.packs)
    ensures Roll(lib, s).index == s.index && Roll(lib, s).manifests == s.manifests
  {
    hide DecodeLocator, Loc, LiveBytes, Accounted, Abs, RowsInv, DeadBytes, Fresh, Unused;
    var n := Draws(plan, s);
    var targets := Selected(Roll(lib, s), num, den);
    StartAccounts(lib, s, targets, n);
    FreshFewer(lib, s, 1 + n, 1);
    CreatePackKeeps(lib, s);
    assert targets <= Roll(lib, s).packs.Keys - {Roll(lib, s).active};
  }

  /** The same under any cancellation, short of the bound. */
  lemma CompactionSafe(lib: Lib, s: Store, plan: Plan, cancel: nat -> bool, num: nat, den: nat)
    requires StoreInv(lib, s) && Fresh(lib, s, 1 + Draws(plan, s))
    requires Targets(plan, Selected(Roll(lib, s), num, den))
    requires PlanFits(lib, Roll(lib, s), plan, cancel, 0)
    ensures var c := CompactAll(lib, Roll(lib, s), plan, cancel, 0);
      && c.result.Ok? && StoreInv(lib, c.store)
      && Accounted(Roll(lib, s), c.store, Selected(Roll(lib, s), num, den))
      && Abs(lib, c.store.index, c.store.packs) == Abs(lib, s.index, s.packs)
      && c.store.index.Keys == s.index.Keys
      && c.store.manifests == s.manifests
      && ((forall i :: !cancel(i)) ==> forall i :: 0 <= i < |plan| ==> plan[i].0 !in c.store.packs)
  {
    hide DecodeLocator, Loc, LiveBytes, Accounted, Abs, RowsInv, PlanFits, Selected, Turn, CompactAll, Targets;
    var base := Roll(lib, s);
    StartTurn(lib, s, plan, num, den);
    CompactAllKeeps(lib, base, base, Selected(base, num, den), plan, cancel, 0);
  }
}
