/** Maintenance steps that nothing interrupts add up to the sequential passes. */
module Runs {
  import opened Base
  import opened Types
  import opened Sums
  import opened Locators
  import opened Library
  import opened StoreState
  import opened Compaction
  import opened Gc
  import opened Space
  import opened Protocol

  ghost predicate Maintenance(lib: Lib, a: Sys, b: Sys, step: Step) {
    SweepStep(lib, a, b, step) || TargetStep(lib, a, b, step) || MoveStep(lib, a, b, step)
  }

  ghost predicate MaintenanceRun(lib: Lib, states: seq<Sys>, steps: seq<Step>) {
    && |states| == |steps| + 1
    && forall i :: 0 <= i < |steps| ==> Maintenance(lib, states[i], states[i + 1], steps[i])
  }

  /** Some run of maintenance steps alone leads from `a` to `b`. */
  ghost predicate Leads(lib: Lib, a: Sys, b: Sys) {
    exists states, steps :: MaintenanceRun(lib, states, steps) && states[0] == a && states[|steps|] == b
  }

  lemma Nowhere(lib: Lib, a: Sys)
    ensures Leads(lib, a, a)
  {
    var states, steps: seq<Step> := [a], [];
    assert MaintenanceRun(lib, states, steps) && states[0] == a && states[|steps|] == a;
  }

  lemma OneStep(lib: Lib, a: Sys, b: Sys, step: Step)
    requires Maintenance(lib, a, b, step)
    ensures Leads(lib, a, b)
  {
    hide Maintenance;
    var states, steps := [a, b], [step];
    assert MaintenanceRun(lib, states, steps) && states[0] == a && states[|steps|] == b;
  }

  lemma Onward(lib: Lib, a: Sys, b: Sys, c: Sys)
    requires Leads(lib, a, b) && Leads(lib, b, c)
    ensures Leads(lib, a, c)
  {
    hide Maintenance;
    var s1, p1 :| MaintenanceRun(lib, s1, p1) && s1[0] == a && s1[|p1|] == b;
    var s2, p2 :| MaintenanceRun(lib, s2, p2) && s2[0] == b && s2[|p2|] == c;
    var states, steps := s1 + s2[1..], p1 + p2;
    forall i | 0 <= i < |steps| ensures Maintenance(lib, states[i], states[i + 1], steps[i]) {
      if i < |p1| {
        assert states[i] == s1[i] && states[i + 1] == s1[i + 1];
      } else {
        var j := i - |p1|;
        assert states[i] == s2[j] && states[i + 1] == s2[j + 1] && steps[i] == p2[j];
      }
    }
    assert MaintenanceRun(lib, states, steps) && states[0] == a && states[|steps|] == c;
  }

  // ----- collection ---------------------------------------------------------------

  lemma {:induction false} DeletesRun(lib: Lib, a: Sys)
    requires a.maint.Sweeping?
    ensures Leads(lib, a, a.(store := a.store.(packs := a.store.packs - a.maint.dead), maint := a.maint.(dead := {})))
    decreases if a.maint.Sweeping? then |a.maint.dead| else 0
  {
    hide Leads;
    var goal := a.(store := a.store.(packs := a.store.packs - a.maint.dead), maint := a.maint.(dead := {}));
    if a.maint.dead == {} {
      assert a.store.packs - {} == a.store.packs;
      Nowhere(lib, a);
    } else {
      var p :| p in a.maint.dead;
      var b := a.(store := DeletePack(a.store, p), maint := a.maint.(dead := a.maint.dead - {p}));
      assert SweepStep(lib, a, b, GcDelete(p));
      OneStep(lib, a, b, GcDelete(p));
      DeletesRun(lib, b);
      assert a.store.packs - {p} - (a.maint.dead - {p}) == a.store.packs - a.maint.dead;
      Onward(lib, a, b, goal);
    }
  }

  /** From the lease to the last deletion, for a collection or the quick clean of a compaction. */
  lemma SweepRun(lib: Lib, a: Sys, compacting: bool)
    requires a.maint.Quiet? && a.threads == map[]
    ensures var reach := Reachable(a.snaps, a.store.manifests);
      Leads(lib, a, a.(store := Swept(a.store, reach), maint := if compacting then Rolling else Quiet))
  {
    hide Leads, Reachable, DeadPacks, Restrict;
    var reach := Reachable(a.snaps, a.store.manifests);
    var b := a.(maint := Marking(compacting));
    assert SweepStep(lib, a, b, GcAcquire(compacting));
    OneStep(lib, a, b, GcAcquire(compacting));
    var c := b.(maint := Marked(compacting, reach));
    assert SweepStep(lib, b, c, GcMark);
    OneStep(lib, b, c, GcMark);
    Onward(lib, a, b, c);
    var d := c.(store := c.store.(index := Restrict(c.store.index, reach)),
                maint := Sweeping(compacting, DeadPacks(c.store, reach)));
    assert SweepStep(lib, c, d, GcDropRows);
    OneStep(lib, c, d, GcDropRows);
    Onward(lib, a, c, d);
    var e := d.(store := Swept(a.store, reach), maint := Sweeping(compacting, {}));
    DeletesRun(lib, d);
    Onward(lib, a, d, e);
    var f := e.(maint := if compacting then Rolling else Quiet);
    assert SweepStep(lib, e, f, GcDone);
    OneStep(lib, e, f, GcDone);
    Onward(lib, a, e, f);
  }

  /** A collection that nothing interrupts is the sweep of the reachable digests. */
  lemma CollectionRun(lib: Lib, a: Sys)
    requires a.maint.Quiet? && a.threads == map[]
    ensures Leads(lib, a, a.(store := Swept(a.store, Reachable(a.snaps, a.store.manifests))))
  {
    hide Leads, Reachable, Swept;
    SweepRun(lib, a, false);
  }

  // ----- compaction ---------------------------------------------------------------

  lemma AppendRun(lib: Lib, b: Sys, l: Locator, bytes: Bytes)
    requires b.maint.MoveWriting? && b.maint.h in b.store.index && l == Loc(b.store.index[b.maint.h])
    requires b.store.active in b.store.packs && b.store.size < U64_LIMIT && Stored(b.store.packs, l) == Some(bytes)
    ensures Leads(lib, b, b.(store := AppendTo(b.store, bytes),
                             maint := MoveAppended(b.maint.targets, b.maint.pack, b.maint.h,
                                                   l.(packId := b.store.active, offset := b.store.size))))
  {
    hide Leads, Loc, AppendTo, Stored;
    var c := b.(store := AppendTo(b.store, bytes),
                maint := MoveAppended(b.maint.targets, b.maint.pack, b.maint.h,
                                      l.(packId := b.store.active, offset := b.store.size)));
    assert MoveStep(lib, b, c, MoveAppend);
    OneStep(lib, b, c, MoveAppend);
  }

  lemma CommitRun(lib: Lib, c: Sys)
    requires c.maint.MoveAppended?
    ensures Leads(lib, c, c.(store := SetRow(c.store, c.maint.h, c.maint.l),
                             maint := Draining(c.maint.targets, c.maint.pack)))
  {
    hide Leads, SetRow;
    var d := c.(store := SetRow(c.store, c.maint.h, c.maint.l), maint := Draining(c.maint.targets, c.maint.pack));
    assert MoveStep(lib, c, d, MoveCommit);
    OneStep(lib, c, d, MoveCommit);
  }

  lemma MoveIs(lib: Lib, s: Store, h: Hash, l: Locator)
    requires Move(lib, s, h, l).Ok?
    ensures var t := RollIfFull(lib, s);
      && Stored(s.packs, l).Some? && t.active in t.packs
      && Move(lib, s, h, l).value
         == SetRow(AppendTo(t, Stored(s.packs, l).value), h, l.(packId := t.active, offset := t.size))
  {
    hide Stored, RollIfFull, AppendTo, SetRow;
  }

  /** The steps of one move: create and save a pack if the active one is full, append, repoint. */
  lemma MoveRun(lib: Lib, a: Sys, h: Hash)
    requires a.maint.Draining? && StoreInv(lib, a.store) && Fresh(lib, a.store, 1)
    requires h in a.store.index && Loc(a.store.index[h]).packId == a.maint.pack
    requires Move(lib, a.store, h, Loc(a.store.index[h])).Ok?
    ensures Leads(lib, a, a.(store := Move(lib, a.store, h, Loc(a.store.index[h])).value))
  {
    hide Leads, StoreInv, Loc, AppendTo, SetRow, Stored, RollIfFull, Move, Fresh;
    var targets, pack, l := a.maint.targets, a.maint.pack, Loc(a.store.index[h]);
    var t := RollIfFull(lib, a.store);
    var b := a.(store := t, maint := MoveWriting(targets, pack, h));
    RollRun(lib, a, h);
    StoredStays(lib, a.store, h);
    MoveIs(lib, a.store, h, l);
    var bytes := Stored(a.store.packs, l).value;
    var c := b.(store := AppendTo(t, bytes),
                maint := MoveAppended(targets, pack, h, l.(packId := t.active, offset := t.size)));
    AppendRun(lib, b, l, bytes);
    Onward(lib, a, b, c);
    CommitRun(lib, c);
    Onward(lib, a, c, a.(store := Move(lib, a.store, h, l).value));
  }

  lemma RollRun(lib: Lib, a: Sys, h: Hash)
    requires a.maint.Draining? && Fresh(lib, a.store, 1)
    requires h in a.store.index && Loc(a.store.index[h]).packId == a.maint.pack
    ensures Leads(lib, a, a.(store := RollIfFull(lib, a.store), maint := MoveWriting(a.maint.targets, a.maint.pack, h)))
  {
    hide Leads, Loc, CreatePack;
    var targets, pack := a.maint.targets, a.maint.pack;
    if a.store.size >= lib.rollover {
      var x := a.(store := CreatePack(lib, a.store), maint := MoveRolled(targets, pack, h));
      assert MoveStep(lib, a, x, MoveStart(h));
      OneStep(lib, a, x, MoveStart(h));
      var b := x.(store := SaveActive(x.store), maint := MoveWriting(targets, pack, h));
      assert MoveStep(lib, x, b, MoveSave);
      OneStep(lib, x, b, MoveSave);
      Onward(lib, a, x, b);
    } else {
      var b := a.(maint := MoveWriting(targets, pack, h));
      assert MoveStep(lib, a, b, MoveStart(h));
      OneStep(lib, a, b, MoveStart(h));
    }
  }

  /** A roll does not touch the bytes about to be copied. */
  lemma StoredStays(lib: Lib, s: Store, h: Hash)
    requires StoreInv(lib, s) && Fresh(lib, s, 1) && h in s.index
    ensures var t := RollIfFull(lib, s);
      && t.index == s.index && t.active in t.packs && t.size < U64_LIMIT
      && Stored(t.packs, Loc(s.index[h])) == Stored(s.packs, Loc(s.index[h]))
      && Stored(s.packs, Loc(s.index[h])).Some?
  {
    hide Loc, RowsInv, Plain, Decode, DecodeLocator;
    RowFacts(lib, s, h);
    StoredOfOk(lib, s.packs, h, Loc(s.index[h]));
    assert lib.uuid(s.drawn) !in s.packs;
  }

  lemma {:induction false} DrainRun(lib: Lib, a: Sys, live: seq<Row>, cancel: nat -> bool, polls: nat)
    requires a.maint.Draining? && StoreInv(lib, a.store) && Fresh(lib, a.store, |live|)
    requires a.maint.pack in a.store.packs && a.maint.pack != a.store.active
    requires Lists(live, a.store.index, RowsOf(a.store.index, a.maint.pack))
    ensures Leads(lib, a, a.(store := Drain(lib, a.store, live, cancel, polls).store))
    decreases |live|
  {
    hide Leads, DecodeLocator, Loc, Stored, RowsInv, Abs, Plain, Move, Fresh, RowsOf, Lists;
    if live == [] || cancel(polls) {
      Nowhere(lib, a);
    } else {
      var s := a.store;
      DrainStep(lib, s, a.maint.pack, live);
      FreshFewer(lib, s, |live|, 1);
      MoveRun(lib, a, live[0].0);
      var b := a.(store := Move(lib, s, live[0].0, live[0].1).value);
      DrainRun(lib, b, live[1..], cancel, polls + 1);
      Onward(lib, a, b, a.(store := Drain(lib, s, live, cancel, polls).store));
    }
  }

  lemma PickRun(lib: Lib, a: Sys, id: Uuid)
    requires a.maint.Between? && id in a.maint.targets
    ensures Leads(lib, a, a.(maint := Draining(a.maint.targets - {id}, id)))
  {
    hide Leads;
    var b := a.(maint := Draining(a.maint.targets - {id}, id));
    assert TargetStep(lib, a, b, PickPack(id));
    OneStep(lib, a, b, PickPack(id));
  }

  lemma DoneRun(lib: Lib, c: Sys, done: bool)
    requires c.maint.Draining? && (done ==> RowsOf(c.store.index, c.maint.pack) == {})
    ensures Leads(lib, c, c.(store := if done then DeletePack(c.store, c.maint.pack) else c.store,
                             maint := Between(c.maint.targets)))
  {
    hide Leads, RowsOf, DeletePack;
    var e := c.(store := if done then DeletePack(c.store, c.maint.pack) else c.store,
                maint := Between(c.maint.targets));
    if done {
      assert TargetStep(lib, c, e, PackDone);
      OneStep(lib, c, e, PackDone);
    } else {
      assert TargetStep(lib, c, e, PackCancelled);
      OneStep(lib, c, e, PackCancelled);
    }
  }

  /** One pack, from its choice to its deletion, or to its abandonment when cancelled. */
  lemma PackRun(lib: Lib, a: Sys, id: Uuid, live: seq<Row>, cancel: nat -> bool, polls: nat)
    requires a.maint.Between? && id in a.maint.targets && StoreInv(lib, a.store) && Fresh(lib, a.store, |live|)
    requires id in a.store.packs && id != a.store.active
    requires Lists(live, a.store.index, RowsOf(a.store.index, id))
    ensures Leads(lib, a, a.(store := CompactPack(lib, a.store, id, live, cancel, polls).store,
                             maint := Between(a.maint.targets - {id})))
  {
    hide Leads, StoreInv, Abs, Drain, Fresh, RowsOf, Lists, DeletePack, Extends;
    var left := a.maint.targets - {id};
    var b := a.(maint := Draining(left, id));
    PickRun(lib, a, id);
    DrainRun(lib, b, live, cancel, polls);
    DrainKeeps(lib, a.store, id, live, cancel, polls);
    var d := Drain(lib, a.store, live, cancel, polls);
    var c := b.(store := d.store);
    Onward(lib, a, b, c);
    DoneRun(lib, c, d.ending.Finished?);
    Onward(lib, a, c, a.(store := CompactPack(lib, a.store, id, live, cancel, polls).store, maint := Between(left)));
  }

  /** The loop over the packs of a plan, to the end of the pass, under any cancellation. */
  lemma {:induction false} PacksRun(lib: Lib, base: Store, a: Sys, targets: set<Uuid>, plan: Plan,
                                    cancel: nat -> bool, polls: nat)
    requires a.maint.Between? && forall i :: 0 <= i < |plan| ==> plan[i].0 in a.maint.targets
    requires Turn(lib, base, a.store, targets, PackIds(plan), Draws(plan, a.store))
    requires PlanFits(lib, a.store, plan, cancel, polls)
    ensures Leads(lib, a, a.(store := CompactAll(lib, a.store, plan, cancel, polls).store, maint := Quiet))
    decreases |plan|
  {
    hide Leads, Loc, Abs, Accounted, RowsOf, Lists, CompactPack, Fresh, Unused, StoreInv, NoneReturn, Draws;
    var s := a.store;
    if plan == [] || cancel(polls) {
      assert TargetStep(lib, a, a.(maint := Quiet), CompactDone);
      OneStep(lib, a, a.(maint := Quiet), CompactDone);
    } else {
      var id, live := plan[0].0, plan[0].1;
      ListingIsSmall(live, s.index, RowsOf(s.index, id));
      var n := Draws(plan[1..], s);
      DrawsStep(plan, s);
      TurnFewer(lib, base, s, targets, PackIds(plan), Draws(plan, s), |live| + n);
      assert PackIds(plan)[1..] == PackIds(plan[1..]) && PackIds(plan)[0] == id;
      OneTurn(lib, base, s, targets, PackIds(plan), live, cancel, polls + 1, n);
      FreshFewer(lib, s, |live| + n, |live|);
      TargetInactive(base, s, targets, id);
      PackRun(lib, a, id, live, cancel, polls + 1);
      var p := CompactPack(lib, s, id, live, cancel, polls + 1);
      var b := a.(store := p.store, maint := Between(a.maint.targets - {id}));
      forall i | 0 <= i < |plan[1..]| ensures plan[1..][i].0 in b.maint.targets {
        assert PackIds(plan)[i + 1] == plan[1..][i].0;
      }
      SameDraws(plan[1..], s, p.store);
      PacksRun(lib, base, b, targets, plan[1..], cancel, p.polls);
      Onward(lib, a, b, a.(store := CompactAll(lib, s, plan, cancel, polls).store, maint := Quiet));
    }
  }

  lemma SameDraws(plan: Plan, s: Store, t: Store)
    requires t.index.Keys == s.index.Keys
    ensures Draws(plan, t) == Draws(plan, s)
  {
    assert |t.index| == |t.index.Keys| && |s.index| == |s.index.Keys|;
  }

  /**
   * A compaction that nothing interrupts, under any cancellation, is the sweep, the roll and
   * the drains of its plan.
   */
  lemma CompactionRun(lib: Lib, a: Sys, plan: Plan, cancel: nat -> bool, num: nat, den: nat)
    requires a.maint.Quiet? && a.threads == map[] && StoreInv(lib, a.store)
    requires var swept := Swept(a.store, Reachable(a.snaps, a.store.manifests));
      && Fresh(lib, swept, 1 + Draws(plan, swept))
      && Targets(plan, Selected(Roll(lib, swept), num, den))
      && PlanFits(lib, Roll(lib, swept), plan, cancel, 0)
    ensures var swept := Swept(a.store, Reachable(a.snaps, a.store.manifests));
      Leads(lib, a, a.(store := CompactAll(lib, Roll(lib, swept), plan, cancel, 0).store))
  {
    hide Leads, Reachable, Swept, RowsInv, Abs, PlanFits, CompactAll, Turn, Fresh, Selected, CreatePack, Draws;
    var reach := Reachable(a.snaps, a.store.manifests);
    SweepKeeps(lib, a.store, reach);
    SweepRun(lib, a, true);
    var swept := Swept(a.store, reach);
    var b := a.(store := swept, maint := Rolling);
    FirstIsNew(lib, swept, Draws(plan, swept));
    var c := b.(store := CreatePack(lib, swept), maint := RollSaving);
    assert TargetStep(lib, b, c, CompactCreate);
    OneStep(lib, b, c, CompactCreate);
    Onward(lib, a, b, c);
    var base := Roll(lib, swept);
    var targets := Selected(base, num, den);
    SelectedInside(base, num, den);
    var d := c.(store := base, maint := Between(targets));
    assert TargetStep(lib, c, d, CompactSave(targets));
    OneStep(lib, c, d, CompactSave(targets));
    Onward(lib, a, c, d);
    StartTurn(lib, swept, plan, num, den);
    SameDraws(plan, swept, base);
    PacksRun(lib, base, d, targets, plan, cancel, 0);
    Onward(lib, a, d, a.(store := CompactAll(lib, base, plan, cancel, 0).store));
  }

  lemma FirstIsNew(lib: Lib, s: Store, n: nat)
    requires Fresh(lib, s, 1 + n)
    ensures CanCreate(lib, s)
  {
  }

  lemma SelectedInside(base: Store, num: nat, den: nat)
    ensures Selected(base, num, den) <= base.packs.Keys - {base.active}
  {
    hide DeadBytes;
  }
}
