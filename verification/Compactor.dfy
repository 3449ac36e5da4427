/** The loop of a full compaction over its target packs. */
module Compactor {
  import opened Base
  import opened Sums
  import opened Locators
  import opened Library
  import opened StoreState
  import opened Compaction
  import opened Gc
  import opened Space
  import opened Ledger
  import opened ChunkStores

  // ----- choosing ---------------------------------------------------------------

  ghost predicate Chosen(s: Store, stats: seq<PackStat>, targets: seq<Uuid>, num: nat, den: nat) {
    && (forall i :: 0 <= i < |targets| ==> targets[i] in Selected(s, num, den))
    && (forall i :: 0 <= i < |stats| && stats[i].packId in Selected(s, num, den) ==> stats[i].packId in targets)
    && (forall i, j :: 0 <= i < j < |targets| ==> targets[i] != targets[j])
    && (forall i :: 0 <= i < |targets| ==> exists j :: 0 <= j < |stats| && stats[j].packId == targets[i])
  }

  lemma ChosenSnoc(s: Store, stats: seq<PackStat>, targets: seq<Uuid>, num: nat, den: nat, p: PackStat)
    requires Chosen(s, stats, targets, num, den)
    requires forall j :: 0 <= j < |stats| ==> stats[j].packId != p.packId
    ensures p.packId in Selected(s, num, den) ==> Chosen(s, stats + [p], targets + [p.packId], num, den)
    ensures p.packId !in Selected(s, num, den) ==> Chosen(s, stats + [p], targets, num, den)
  {
    hide Selected;
    forall i | 0 <= i < |targets|
      ensures targets[i] != p.packId && exists j :: 0 <= j < |stats + [p]| && (stats + [p])[j].packId == targets[i]
    {
      var j :| 0 <= j < |stats| && stats[j].packId == targets[i];
      assert (stats + [p])[j].packId == targets[i];
    }
    if p.packId in Selected(s, num, den) {
      assert (stats + [p])[|stats|].packId == p.packId;
    }
  }

  lemma SelectedIff(s: Store, p: PackStat, num: nat, den: nat)
    requires StatOf(s, p)
    ensures p.packId in Selected(s, num, den) <==>
      !p.isActive && p.fileBytes > 0 && Max(0, p.fileBytes - p.liveBytes) * den >= p.fileBytes * num
  {
    hide LiveBytes, RowsOf;
  }

  /** The non-active, non-empty packs that are dead enough. */
  method ChooseTargets(stats: seq<PackStat>, num: nat, den: nat, ghost s: Store) returns (targets: seq<Uuid>)
    requires StatsOf(s, stats, s.packs.Keys)
    ensures forall i :: 0 <= i < |targets| ==> targets[i] in Selected(s, num, den)
    ensures forall id :: id in Selected(s, num, den) ==> id in targets
    ensures forall i, j :: 0 <= i < j < |targets| ==> targets[i] != targets[j]
  {
    hide Selected, StatOf;
    targets := [];
    for i := 0 to |stats|
      invariant Chosen(s, stats[..i], targets, num, den)
    {
      var p := stats[i];
      SelectedIff(s, p, num, den);
      ChosenSnoc(s, stats[..i], targets, num, den, p);
      assert stats[..i + 1] == stats[..i] + [p];
      var dead := Max(0, p.fileBytes - p.liveBytes);
      if !p.isActive && p.fileBytes > 0 && dead * den >= p.fileBytes * num {
        targets := targets + [p.packId];
      }
    }
    assert stats[..|stats|] == stats;
    forall id | id in Selected(s, num, den) ensures id in targets {
      SelectedIn(s, num, den, id);
    }
  }

  lemma SelectedIn(s: Store, num: nat, den: nat, id: Uuid)
    requires id in Selected(s, num, den)
    ensures id in s.packs.Keys && id != s.active
  {
  }

  // ----- never the active pack ------------------------------------------------------

  /** The active pack is the one the pass started with or one drawn since. */
  ghost predicate Inactive(base: Store, s: Store) {
    s.active == base.active || s.active !in base.packs
  }

  lemma MoveInactive(lib: Lib, base: Store, s: Store, h: Hash, l: Locator, n: nat)
    requires Inactive(base, s) && Unused(lib, base, s, n + 1) && h in s.index && Move(lib, s, h, l).Ok?
    ensures var t := Move(lib, s, h, l).value;
      Inactive(base, t) && Unused(lib, base, t, n) && t.index.Keys == s.index.Keys
  {
    hide EncodeLocator, Stored;
    assert lib.uuid(s.drawn) !in base.packs;
  }

  /** Whatever the store's condition, a drain leaves only fresh packs active. */
  lemma {:induction false} DrainInactive(lib: Lib, base: Store, s: Store, live: seq<Row>, cancel: nat -> bool,
                                         polls: nat, n: nat)
    requires Inactive(base, s) && Unused(lib, base, s, |live| + n)
    requires forall i :: 0 <= i < |live| ==> live[i].0 in s.index
    ensures var t := Drain(lib, s, live, cancel, polls).store;
      Inactive(base, t) && Unused(lib, base, t, n) && t.index.Keys == s.index.Keys
    decreases |live|
  {
    hide Move, Inactive;
    if live != [] && !cancel(polls) {
      var m := Move(lib, s, live[0].0, live[0].1);
      if m.Ok? {
        MoveInactive(lib, base, s, live[0].0, live[0].1, |live| - 1 + n);
        DrainInactive(lib, base, m.value, live[1..], cancel, polls + 1, n);
      }
    }
  }

  lemma PackInactive(lib: Lib, base: Store, s: Store, id: Uuid, live: seq<Row>, cancel: nat -> bool, polls: nat, n: nat)
    requires Inactive(base, s) && Unused(lib, base, s, |live| + n)
    requires Lists(live, s.index, RowsOf(s.index, id))
    ensures var t := Compaction.CompactPack(lib, s, id, live, cancel, polls).store;
      Inactive(base, t) && Unused(lib, base, t, n) && t.index.Keys == s.index.Keys
  {
    hide Drain, Loc, RowsOf;
    DrainInactive(lib, base, s, live, cancel, polls, n);
  }

  lemma FewerUnused(lib: Lib, base: Store, s: Store, n: nat, m: nat)
    requires Unused(lib, base, s, n) && m <= n
    ensures Unused(lib, base, s, m)
  {
  }

  // ----- the loop -----------------------------------------------------------------------

  function Resumed(acc: CompactReport, c: Compacted): Compacted {
    if c.result.Ok? then c.(result := Ok(AddReports(acc, c.result.value))) else c
  }

  /** After the packs of `done`, the rest of any plan runs on from this state. */
  ghost predicate Reached(lib: Lib, base: Store, done: Plan, s: Store, acc: CompactReport, cancel: nat -> bool,
                          polls: nat) {
    forall rest: Plan {:trigger done + rest} ::
      && CompactAll(lib, base, done + rest, cancel, 0) == Resumed(acc, CompactAll(lib, s, rest, cancel, polls))
      && (PlanFits(lib, s, rest, cancel, polls) ==> PlanFits(lib, base, done + rest, cancel, 0))
  }

  lemma ReachedStart(lib: Lib, base: Store, cancel: nat -> bool)
    ensures Reached(lib, base, [], base, CompactReport(0, 0, 0), cancel, 0)
  {
    hide CompactAll, PlanFits;
    forall rest: Plan ensures [] + rest == rest {
    }
  }

  lemma ResumedOnce(acc: CompactReport, moved: nat, freed: nat, c: Compacted)
    requires c.result.Ok?
    ensures Resumed(acc, c.(result := Ok(Counted(moved, freed, c.result.value))))
      == Resumed(AddReports(acc, Counted(moved, freed, CompactReport(0, 0, 0))), c)
  {
  }

  lemma ReachedStep(lib: Lib, base: Store, done: Plan, s: Store, acc: CompactReport, cancel: nat -> bool, polls: nat,
                    id: Uuid, live: seq<Row>)
    requires Reached(lib, base, done, s, acc, cancel, polls) && !cancel(polls)
    requires Lists(live, s.index, RowsOf(s.index, id))
    ensures var p := Compaction.CompactPack(lib, s, id, live, cancel, polls + 1);
      p.result.Ok? ==>
        Reached(lib, base, done + [(id, live)], p.store,
                AddReports(acc, Counted(p.moved, p.result.value, CompactReport(0, 0, 0))), cancel, p.polls)
  {
    hide Compaction.CompactPack, Lists, RowsOf;
    var p := Compaction.CompactPack(lib, s, id, live, cancel, polls + 1);
    if p.result.Ok? {
      var next := done + [(id, live)];
      var acc' := AddReports(acc, Counted(p.moved, p.result.value, CompactReport(0, 0, 0)));
      forall rest: Plan
        ensures CompactAll(lib, base, next + rest, cancel, 0)
          == Resumed(acc', CompactAll(lib, p.store, rest, cancel, p.polls))
        ensures PlanFits(lib, p.store, rest, cancel, p.polls) ==> PlanFits(lib, base, next + rest, cancel, 0)
      {
        var more := [(id, live)] + rest;
        assert next + rest == done + more;
        assert more[0] == (id, live) && more[1..] == rest;
        var c := CompactAll(lib, p.store, rest, cancel, p.polls);
        if c.result.Ok? {
          ResumedOnce(acc, p.moved, p.result.value, c);
        }
      }
    }
  }

  /** The plan a pass followed: the targets in order, each with the rows found at its turn. */
  ghost function PlanFrom(targets: seq<Uuid>, lives: seq<seq<Row>>): Plan {
    seq(|targets|, i requires 0 <= i < |targets| => (targets[i], if i < |lives| then lives[i] else []))
  }

  lemma PlanSplit(targets: seq<Uuid>, lives: seq<seq<Row>>, i: nat)
    requires i == |lives| <= |targets|
    ensures PlanFrom(targets, lives) == PlanFrom(targets[..i], lives) + PlanFrom(targets[i..], [])
  {
  }

  lemma PlanSnoc(targets: seq<Uuid>, lives: seq<seq<Row>>, i: nat, live: seq<Row>)
    requires i == |lives| < |targets|
    ensures PlanFrom(targets[..i + 1], lives + [live]) == PlanFrom(targets[..i], lives) + [(targets[i], live)]
  {
  }

  lemma PlanTargets(targets: seq<Uuid>, lives: seq<seq<Row>>, ids: set<Uuid>)
    requires forall i :: 0 <= i < |targets| ==> targets[i] in ids
    requires forall id :: id in ids ==> id in targets
    requires forall i, j :: 0 <= i < j < |targets| ==> targets[i] != targets[j]
    ensures Targets(PlanFrom(targets, lives), ids) && |PlanFrom(targets, lives)| == |targets|
  {
    var plan := PlanFrom(targets, lives);
    forall id | id in ids ensures exists i :: 0 <= i < |plan| && plan[i].0 == id {
      var i :| 0 <= i < |targets| && targets[i] == id;
      assert plan[i].0 == id;
    }
  }

  function Step(n: nat, rows: nat): nat {
    n * rows
  }

  lemma StepDown(n: nat, rows: nat)
    requires n > 0
    ensures Step(n, rows) == rows + Step(n - 1, rows)
  {
    assert n * rows == rows + (n - 1) * rows;
  }

  method DrainTargets(store: ChunkStore, targets: seq<Uuid>, cancel: nat -> bool, ghost base: Store)
    returns (report: CompactReport, error: Option<StoreError>, ghost lives: seq<seq<Row>>)
    requires store.State() == base && Decodable(base.index)
    requires forall i :: 0 <= i < |targets| ==> targets[i] in base.packs && targets[i] != base.active
    requires Unused(store.lib, base, base, Step(|targets|, |base.index|))
    modifies store
    ensures PlanFits(store.lib, base, PlanFrom(targets, lives), cancel, 0)
    ensures Compacted(store.State(), if error.Some? then Err(error.value) else Ok(report))
      == CompactAll(store.lib, base, PlanFrom(targets, lives), cancel, 0)
  {
    hide CompactAll, PlanFits, Reached, Unused, Lists, RowsOf, Decodable, Step, Inactive, Compaction.CompactPack,
         PlanFrom;
    report, error, lives := CompactReport(0, 0, 0), None, [];
    var polls := 0;
    ReachedStart(store.lib, base, cancel);
    assert PlanFrom(targets[..0], []) == [] by { NoPlan(targets); }
    StartInactive(base);
    var i := 0;
    while i < |targets|
      invariant 0 <= i <= |targets| && |lives| == i
      invariant Reached(store.lib, base, PlanFrom(targets[..i], lives), store.State(), report, cancel, polls)
      invariant Inactive(base, store.State()) && store.index.Keys == base.index.Keys
      invariant Unused(store.lib, base, store.State(), Step(|targets| - i, |base.index|))
      invariant Decodable(store.index)
    {
      ghost var s := store.State();
      PlanSplit(targets, lives, i);
      if cancel(polls) {
        CancelHere(store.lib, base, PlanFrom(targets[..i], lives), s, report, cancel, polls,
                   PlanFrom(targets[i..], []));
        return;
      }
      NotActive(base, s, targets[i]);
      StepDown(|targets| - i, |base.index|);
      var r, moved, polled, live := store.CompactPack(targets[i], cancel, polls + 1);
      ghost var done := PlanFrom(targets[..i], lives);
      PlanSnoc(targets, lives, i, live);
      ListingIsSmall(live, s.index, RowsOf(s.index, targets[i]));
      SameSize(s.index, base.index);
      FewerUnused(store.lib, base, s, Step(|targets| - i, |base.index|),
                  |live| + Step(|targets| - i - 1, |base.index|));
      PackInactive(store.lib, base, s, targets[i], live, cancel, polls + 1, Step(|targets| - i - 1, |base.index|));
      lives := lives + [live];
      PlanSplit(targets, lives, i + 1);
      if r.Err? {
        FailHere(store.lib, base, done, s, report, cancel, polls, targets[i], live, PlanFrom(targets[i + 1..], []));
        error := Some(r.error);
        return;
      }
      ReachedStep(store.lib, base, done, s, report, cancel, polls, targets[i], live);
      DecodableAfter(store.lib, s, targets[i], live, cancel, polls + 1);
      report := AddReports(report, Counted(moved, r.value, CompactReport(0, 0, 0)));
      polls := polled;
      i := i + 1;
    }
    assert targets[..i] == targets;
    FinishHere(store.lib, base, PlanFrom(targets, lives), store.State(), report, cancel, polls);
  }

  lemma NoPlan(targets: seq<Uuid>)
    ensures PlanFrom(targets[..0], []) == []
  {
  }

  lemma StartInactive(base: Store)
    ensures Inactive(base, base)
  {
  }

  lemma NotActive(base: Store, s: Store, id: Uuid)
    requires Inactive(base, s) && id in base.packs && id != base.active
    ensures id != s.active
  {
  }

  lemma SameSize(a: map<Hash, Bytes>, b: map<Hash, Bytes>)
    requires a.Keys == b.Keys
    ensures |a| == |b|
  {
    assert |a| == |a.Keys| && |b| == |b.Keys|;
  }

  lemma CancelHere(lib: Lib, base: Store, done: Plan, s: Store, acc: CompactReport, cancel: nat -> bool, polls: nat,
                   rest: Plan)
    requires Reached(lib, base, done, s, acc, cancel, polls) && cancel(polls)
    ensures PlanFits(lib, base, done + rest, cancel, 0)
    ensures CompactAll(lib, base, done + rest, cancel, 0) == Compacted(s, Ok(acc))
  {
  }

  lemma FinishHere(lib: Lib, base: Store, done: Plan, s: Store, acc: CompactReport, cancel: nat -> bool, polls: nat)
    requires Reached(lib, base, done, s, acc, cancel, polls)
    ensures PlanFits(lib, base, done, cancel, 0)
    ensures CompactAll(lib, base, done, cancel, 0) == Compacted(s, Ok(acc))
  {
    assert done + [] == done;
  }

  lemma FailHere(lib: Lib, base: Store, done: Plan, s: Store, acc: CompactReport, cancel: nat -> bool, polls: nat,
                 id: Uuid, live: seq<Row>, rest: Plan)
    requires Reached(lib, base, done, s, acc, cancel, polls) && !cancel(polls)
    requires Lists(live, s.index, RowsOf(s.index, id))
    requires Compaction.CompactPack(lib, s, id, live, cancel, polls + 1).result.Err?
    ensures var p := Compaction.CompactPack(lib, s, id, live, cancel, polls + 1);
      && PlanFits(lib, base, done + [(id, live)] + rest, cancel, 0)
      && CompactAll(lib, base, done + [(id, live)] + rest, cancel, 0) == Compacted(p.store, Err(p.result.error))
  {
    hide Compaction.CompactPack, Lists, RowsOf;
    var more := [(id, live)] + rest;
    assert done + [(id, live)] + rest == done + more;
    assert more[0] == (id, live) && more[1..] == rest;
  }

  lemma {:induction false} DrainDecodable(lib: Lib, s: Store, live: seq<Row>, cancel: nat -> bool, polls: nat)
    requires Decodable(s.index)
    ensures Decodable(Drain(lib, s, live, cancel, polls).store.index)
    decreases |live|
  {
    hide DecodeLocator, EncodeLocator, Stored;
    if live != [] && !cancel(polls) {
      var m := Move(lib, s, live[0].0, live[0].1);
      if m.Ok? {
        var t := RollIfFull(lib, s);
        LocOfEncode(live[0].1.(packId := t.active, offset := t.size));
        DrainDecodable(lib, m.value, live[1..], cancel, polls + 1);
      }
    }
  }

  lemma DecodableAfter(lib: Lib, s: Store, id: Uuid, live: seq<Row>, cancel: nat -> bool, polls: nat)
    requires Decodable(s.index)
    ensures Decodable(Compaction.CompactPack(lib, s, id, live, cancel, polls).store.index)
  {
    hide Decodable, Drain;
    DrainDecodable(lib, s, live, cancel, polls);
  }

  // ----- the pass as a whole ----------------------------------------------------------

  function ReportOf(r: Result<(GcReport, CompactReport)>): Result<CompactReport> {
    match r
    case Err(e) => Err(e)
    case Ok(p) => Ok(p.1)
  }

  /** More identifiers than any pass can draw: packs times rows, and one for the roll. */
  function DrawBound(packs: map<Uuid, Bytes>, index: map<Hash, Bytes>): nat {
    1 + Step(|packs|, |index|)
  }

  /** What a pass over a sound store comes to: nothing reachable changes, and little is wasted. */
  ghost predicate CompactResult(lib: Lib, start: Store, reach: set<Hash>, now: Store,
                                r: Result<(GcReport, CompactReport)>, cancel: nat -> bool, num: nat, den: nat) {
    && r.Ok? && StoreInv(lib, now)
    && Abs(lib, now.index, now.packs) == Restrict(Abs(lib, start.index, start.packs), reach)
    && now.manifests == start.manifests
    && Reported(start, now, r.value.0, r.value.1)
    && ((forall i :: !cancel(i)) ==> (den - num) * DiskBytes(now.packs) <= den * StoredBytes(now.index))
  }

  lemma UndecodableIsUnsound(lib: Lib, s: Store)
    ensures StoreInv(lib, s) ==> Decodable(s.index)
  {
    if StoreInv(lib, s) {
      forall h | h in s.index ensures DecodeLocator(s.index[h]).Ok? {
        assert RowOk(lib, s.packs, h, s.index[h]);
      }
    }
  }

  lemma SweptDecodable(s: Store, reach: set<Hash>)
    requires Decodable(s.index)
    ensures Decodable(Swept(s, reach).index)
  {
    hide DecodeLocator;
  }

  lemma StepGrows(a: nat, b: nat, c: nat, d: nat)
    requires a <= c && b <= d
    ensures Step(a, b) <= Step(c, d)
  {
    assert a * b <= c * b <= c * d by {
      assert (c - a) * b >= 0 && c * (d - b) >= 0;
    }
  }

  lemma FewerKeys<K, V>(a: map<K, V>, b: map<K, V>)
    requires a.Keys <= b.Keys
    ensures |a| <= |b|
  {
    assert |a| == |a.Keys| && |b| == |b.Keys| && |b.Keys| == |a.Keys| + |b.Keys - a.Keys|;
  }

  lemma SelectedWereThere(lib: Lib, start: Store, reach: set<Hash>, id: Uuid, num: nat, den: nat)
    requires var base := Roll(lib, Swept(start, reach)); id in Selected(base, num, den)
    ensures var base := Roll(lib, Swept(start, reach));
      id in base.packs && id != base.active && id in start.packs
  {
    hide DeadPacks, DeadBytes;
  }

  lemma TargetsWereThere(lib: Lib, start: Store, reach: set<Hash>, targets: seq<Uuid>, num: nat, den: nat)
    requires var base := Roll(lib, Swept(start, reach));
      forall i :: 0 <= i < |targets| ==> targets[i] in Selected(base, num, den)
    ensures var base := Roll(lib, Swept(start, reach));
      forall i :: 0 <= i < |targets| ==> targets[i] in base.packs && targets[i] != base.active
    ensures forall i :: 0 <= i < |targets| ==> targets[i] in start.packs.Keys
  {
    hide Swept, Roll, Selected;
    var base := Roll(lib, Swept(start, reach));
    forall i | 0 <= i < |targets|
      ensures targets[i] in base.packs && targets[i] != base.active && targets[i] in start.packs.Keys
    {
      SelectedWereThere(lib, start, reach, targets[i], num, den);
    }
  }

  lemma DrawsBounded(start: Store, reach: set<Hash>, targets: seq<Uuid>)
    requires forall i :: 0 <= i < |targets| ==> targets[i] in start.packs.Keys
    requires forall i, j :: 0 <= i < j < |targets| ==> targets[i] != targets[j]
    ensures 1 + Step(|targets|, |Swept(start, reach).index|) <= DrawBound(start.packs, start.index)
  {
    hide Swept, Step;
    DistinctCount(targets, start.packs.Keys);
    SweptKeys(start, reach);
    FewerKeys(Swept(start, reach).index, start.index);
    StepGrows(|targets|, |Swept(start, reach).index|, |start.packs|, |start.index|);
  }

  lemma SweptKeys(start: Store, reach: set<Hash>)
    ensures Swept(start, reach).index.Keys <= start.index.Keys
  {
    hide DeadPacks;
  }

  lemma SweptFresh(lib: Lib, start: Store, reach: set<Hash>, n: nat)
    requires Fresh(lib, start, n)
    ensures Fresh(lib, Swept(start, reach), n)
  {
    hide DeadPacks;
  }

  lemma RolledUnused(lib: Lib, s: Store, n: nat)
    requires Fresh(lib, s, 1 + n)
    ensures Unused(lib, Roll(lib, s), Roll(lib, s), n)
    ensures Roll(lib, s).index == s.index
  {
  }

  /** The packs chosen were there from the start, so the draws of the pass are bounded. */
  lemma TargetsBound(lib: Lib, start: Store, reach: set<Hash>, targets: seq<Uuid>, num: nat, den: nat)
    requires Fresh(lib, start, DrawBound(start.packs, start.index))
    requires var base := Roll(lib, Swept(start, reach));
      forall i :: 0 <= i < |targets| ==> targets[i] in Selected(base, num, den)
    requires forall i, j :: 0 <= i < j < |targets| ==> targets[i] != targets[j]
    ensures var swept := Swept(start, reach);
      var base := Roll(lib, swept);
      && (forall i :: 0 <= i < |targets| ==> targets[i] in base.packs && targets[i] != base.active)
      && Unused(lib, base, base, Step(|targets|, |base.index|))
      && Fresh(lib, start, 1 + Step(|targets|, |swept.index|))
  {
    hide Swept, Roll, Step, Selected, Fresh, Unused, DrawBound;
    TargetsWereThere(lib, start, reach, targets, num, den);
    DrawsBounded(start, reach, targets);
    var n := Step(|targets|, |Swept(start, reach).index|);
    FreshFewer(lib, start, DrawBound(start.packs, start.index), 1 + n);
    SweptFresh(lib, start, reach, 1 + n);
    RolledUnused(lib, Swept(start, reach), n);
  }

  lemma SelectedNotEmpty(s: Store, num: nat, den: nat)
    ensures forall id :: id in Selected(s, num, den) ==> id in s.packs && s.packs[id] != [] && id != s.active
  {
    hide DeadBytes;
  }

  lemma StartOld(lib: Lib, start: Store, reach: set<Hash>, n: nat)
    requires Fresh(lib, start, 1 + n)
    ensures OldPacks(lib, Roll(lib, Swept(start, reach)), start.packs.Keys, n)
  {
    hide DeadPacks;
    assert lib.uuid(start.drawn) !in start.packs;
  }

  /**
   * The reports of a compaction under any cancellation: rows dropped, rows repointed and packs
   * gone are counted exactly, and the bytes there were, with those copied, are the bytes there
   * are and those reported as reclaimed.
   */
  lemma CompactionReported(lib: Lib, start: Store, reach: set<Hash>, plan: Plan, cancel: nat -> bool, num: nat,
                           den: nat)
    requires StoreInv(lib, start)
    requires Fresh(lib, start, 1 + Draws(plan, Swept(start, reach)))
    requires var base := Roll(lib, Swept(start, reach));
      Targets(plan, Selected(base, num, den)) && PlanFits(lib, base, plan, cancel, 0)
    ensures var c := CompactAll(lib, Roll(lib, Swept(start, reach)), plan, cancel, 0);
      c.result.Ok? && Reported(start, c.store, SweepReport(start, reach), c.result.value)
  {
    hide Swept, StoreInv, Abs, Roll, Targets, PlanFits, CompactAll, Fresh, Selected, Draws, SweepReport, Reported,
         Booked, Turn, OldPacks;
    SweepKeeps(lib, start, reach);
    var swept := Swept(start, reach);
    var base, n := Roll(lib, swept), Draws(plan, swept);
    SweptFresh(lib, start, reach, 1 + n);
    StartTurn(lib, swept, plan, num, den);
    SelectedNotEmpty(base, num, den);
    StartOld(lib, start, reach, n);
    SameDraws(plan, swept, base);
    forall id | id in Selected(base, num, den) ensures id in start.packs.Keys {
      SelectedWereThere(lib, start, reach, id, num, den);
    }
    PassBooked(lib, base, base, Selected(base, num, den), plan, cancel, 0, start.packs.Keys);
    FreshFewer(lib, start, 1 + n, 1);
    WholeBooked(lib, start, reach, CompactAll(lib, base, plan, cancel, 0).store,
                CompactAll(lib, base, plan, cancel, 0).result.value);
  }

  /** On a sound store a pass succeeds, changes nothing reachable, and leaves little waste. */
  lemma CompactSound(lib: Lib, start: Store, reach: set<Hash>, plan: Plan, cancel: nat -> bool, num: nat, den: nat,
                     now: Store, r: Result<(GcReport, CompactReport)>)
    requires StoreInv(lib, start)
    requires Fresh(lib, start, 1 + Draws(plan, Swept(start, reach)))
    requires r.Ok? ==> r.value.0 == SweepReport(start, reach)
    requires var base := Roll(lib, Swept(start, reach));
      && Targets(plan, Selected(base, num, den)) && PlanFits(lib, base, plan, cancel, 0)
      && Compacted(now, ReportOf(r)) == CompactAll(lib, base, plan, cancel, 0)
    ensures CompactResult(lib, start, reach, now, r, cancel, num, den)
  {
    hide Swept, StoreInv, Abs, Roll, Targets, PlanFits, CompactAll, Fresh, Selected, Draws, DiskBytes, StoredBytes,
         Accounted, SweepReport, Reported;
    SweepKeeps(lib, start, reach);
    var swept := Swept(start, reach);
    SweptFresh(lib, start, reach, 1 + Draws(plan, swept));
    CompactionSafe(lib, swept, plan, cancel, num, den);
    CompactionReported(lib, start, reach, plan, cancel, num, den);
    if forall i :: !cancel(i) {
      CompactionBound(lib, swept, plan, cancel, num, den);
    }
  }
}
