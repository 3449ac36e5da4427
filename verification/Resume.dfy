/** Whether a restart can go on appending: what keeps it so, and the one failure that does not. */
module Resume {
  import opened Base
  import opened Types
  import opened Sums
  import opened Locators
  import opened Library
  import opened StoreState
  import opened Compaction
  import opened Gc
  import opened Manifests
  import opened Protocol

  /** Between creating a pack and saving its id. */
  predicate MidRoll(sys: Sys) {
    sys.maint.RollSaving? || sys.maint.MoveRolled? ||
    (sys.mutex.Some? && sys.mutex.value in sys.threads && sys.threads[sys.mutex.value].Rolled?)
  }

  /** The active pack exists, and so does the saved one, which is another exactly within a roll. */
  ghost predicate Resumable(sys: Sys) {
    && sys.store.active in sys.store.packs
    && sys.store.saved.Some? && sys.store.saved.value in sys.store.packs
    && (MidRoll(sys) <==> sys.store.saved.value != sys.store.active)
  }

  /** A roll whose save fails and is left at that. */
  predicate AbandonsRoll(a: Sys, step: Step) {
    (step.Fail? && step.t in a.threads && a.threads[step.t].Rolled?) ||
    (step.MaintFail? && (a.maint.RollSaving? || a.maint.MoveRolled?))
  }

  lemma ThreadStepResumable(lib: Lib, a: Sys, b: Sys, step: Step)
    requires Inv(lib, a) && Resumable(a) && ThreadStep(lib, a, b, step)
    ensures Resumable(b)
  {
    hide Loc, Usable, CatalogTrue, IdsPart, ThreadOk;
  }

  lemma CatalogStepResumable(lib: Lib, a: Sys, b: Sys, step: Step)
    requires Inv(lib, a) && Resumable(a) && CatalogStep(lib, a, b, step)
    ensures Resumable(b)
  {
    hide Loc, Usable, CatalogTrue, IdsPart, ThreadOk, Backed;
  }

  lemma PutStepResumable(lib: Lib, a: Sys, b: Sys, step: Step)
    requires Inv(lib, a) && Resumable(a) && PutStep(lib, a, b, step)
    ensures Resumable(b)
  {
    hide Loc, Usable, CatalogTrue, IdsPart, ThreadOk, Encode, EncodeLocator, NextLocator;
  }

  lemma IngestResumable(lib: Lib, a: Sys, b: Sys, step: Step)
    requires Lossless(lib) && Inv(lib, a) && Resumable(a) && IngestStep(lib, a, b, step)
    ensures Resumable(b)
  {
    hide IngestPieces, Lossless, CatalogTrue, ThreadsPart, IdsPart, IngestStep, RowsInv, Fresh, IngestGood;
    IngestShape(lib, a, b, step);
    IngestKeeps(lib, a.store, step.pieces, step.comp);
    IngestAtRest(lib, a.store, step.pieces, IngestPieces(lib, a.store, step.pieces, step.comp));
  }

  lemma IngestAtRest(lib: Lib, s: Store, pieces: seq<Bytes>, r: Ingested)
    requires IngestGood(lib, s, pieces, r, |pieces|)
    ensures StoreInv(lib, r.store)
  {
    hide StoreInv, GoodRefs, GoodStats;
  }

  lemma SweepResumable(lib: Lib, a: Sys, b: Sys, step: Step)
    requires Inv(lib, a) && Resumable(a) && SweepStep(lib, a, b, step)
    ensures Resumable(b)
  {
    hide Loc, RowsInv, CatalogTrue, ThreadsPart, IdsPart, Reachable, DeadPacks, Restrict;
  }

  lemma TargetResumable(lib: Lib, a: Sys, b: Sys, step: Step)
    requires Inv(lib, a) && Resumable(a) && TargetStep(lib, a, b, step)
    ensures Resumable(b)
  {
    hide Loc, RowsInv, CatalogTrue, ThreadsPart, IdsPart, RowsOf;
  }

  lemma MoveResumable(lib: Lib, a: Sys, b: Sys, step: Step)
    requires Inv(lib, a) && Resumable(a) && MoveStep(lib, a, b, step)
    ensures Resumable(b)
  {
    hide Loc, RowsInv, CatalogTrue, ThreadsPart, IdsPart, Stored, EncodeLocator, LocOk, Plain, Apart;
  }

  lemma FailResumable(lib: Lib, a: Sys, b: Sys, step: Step)
    requires Inv(lib, a) && Resumable(a) && FailStep(lib, a, b, step)
    ensures Resumable(b) <==> !AbandonsRoll(a, step)
  {
    hide Loc, Usable, CatalogTrue, IdsPart, ThreadOk;
  }

  /** Every step, a crash included, keeps a repository resumable, except a roll abandoned at its save. */
  lemma StepResumable(lib: Lib, a: Sys, b: Sys, step: Step)
    requires Lossless(lib) && Inv(lib, a) && Resumable(a) && Next(lib, a, b, step)
    ensures Resumable(b) <==> !AbandonsRoll(a, step)
  {
    hide Inv, Resumable, Lossless, ThreadStep, CatalogStep, PutStep, IngestStep, SweepStep, TargetStep, MoveStep,
         FailStep, CrashStep, AbandonsRoll;
    if FailStep(lib, a, b, step) { FailResumable(lib, a, b, step); }
    else {
      OthersGoOn(lib, a, b, step);
      if ThreadStep(lib, a, b, step) { ThreadStepResumable(lib, a, b, step); }
      else if CatalogStep(lib, a, b, step) { CatalogStepResumable(lib, a, b, step); }
      else if PutStep(lib, a, b, step) { PutStepResumable(lib, a, b, step); }
      else if IngestStep(lib, a, b, step) { IngestResumable(lib, a, b, step); }
      else if SweepStep(lib, a, b, step) { SweepResumable(lib, a, b, step); }
      else if TargetStep(lib, a, b, step) { TargetResumable(lib, a, b, step); }
      else if MoveStep(lib, a, b, step) { MoveResumable(lib, a, b, step); }
      else { CrashResumable(lib, a, b, step); }
    }
  }

  /** Only a failure abandons anything. */
  lemma OthersGoOn(lib: Lib, a: Sys, b: Sys, step: Step)
    requires Next(lib, a, b, step) && !FailStep(lib, a, b, step)
    ensures !AbandonsRoll(a, step)
  {
  }

  lemma CrashResumable(lib: Lib, a: Sys, b: Sys, step: Step)
    requires Resumable(a) && CrashStep(lib, a, b, step)
    ensures Resumable(b)
  {
  }

  /** Over a run without an abandoned roll the repository stays resumable throughout. */
  lemma {:induction false} RunResumable(lib: Lib, states: seq<Sys>, steps: seq<Step>, i: nat)
    requires Lossless(lib) && Run(lib, states, steps) && Init(lib, states[0]) && i < |states|
    requires forall k :: 0 <= k < |steps| ==> !AbandonsRoll(states[k], steps[k])
    ensures Inv(lib, states[i]) && Resumable(states[i])
  {
    hide Inv, Next, Lossless, Keeps, AbandonsRoll;
    if i == 0 {
      InitInv(lib, states[0]);
    } else {
      RunResumable(lib, states, steps, i - 1);
      StepSafe(lib, states[i - 1], states[i], steps[i - 1]);
      StepResumable(lib, states[i - 1], states[i], steps[i - 1]);
    }
  }

  /**
   * What a restart gives, exactly: a store at rest if and only if the pack whose id was last
   * saved is still there.
   */
  lemma RestartExactly(lib: Lib, a: Sys, b: Sys, step: Step)
    requires Inv(lib, a) && CrashStep(lib, a, b, step)
    ensures StoreInv(lib, b.store) <==> a.store.saved.value in a.store.packs
  {
    hide CatalogTrue, ThreadsPart, IdsPart, MaintPart, RowsInv;
    TornKeeps(lib, a, step.torn);
  }

  /** From a resumable state a restart gives a store at rest, to which every text can be put. */
  lemma RestartAtRest(lib: Lib, a: Sys, b: Sys, step: Step)
    requires Inv(lib, a) && Resumable(a) && CrashStep(lib, a, b, step)
    ensures StoreInv(lib, b.store)
  {
    hide Inv, StoreInv;
    RestartExactly(lib, a, b, step);
  }

  /**
   * Whether a new text can be put after a restart, exactly and for any disk: if no pack id was
   * ever saved, or the saved pack is there, or packs are rolled before every append.
   */
  lemma PutAfterRestartExactly(lib: Lib, s: Store, h: Hash, plain: Bytes, comp: Compression)
    requires h !in s.index
    ensures var u := Reopen(lib, s);
      && (Put(lib, u, h, plain, comp).1.Ok? <==> s.saved.None? || s.saved.value in s.packs || lib.rollover == 0)
      && (!Put(lib, u, h, plain, comp).1.Ok? ==> Put(lib, u, h, plain, comp) == (u, Err(Io)))
  {
    hide PutNew;
  }

  // ----- how the saved pack can go ----------------------------------------------------

  /** The saved pack is there, and so is the one about to be saved. */
  ghost predicate Restorable(sys: Sys) {
    && sys.store.saved.Some? && sys.store.saved.value in sys.store.packs
    && (MidRoll(sys) ==> sys.store.active in sys.store.packs)
  }

  /** A deletion, by a collection or a compaction, of the very pack whose id is saved. */
  predicate DeletesSaved(a: Sys, step: Step) {
    (step.GcDelete? && a.store.saved == Some(step.p)) ||
    (step.PackDone? && a.maint.Draining? && a.store.saved == Some(a.maint.pack))
  }

  lemma {:induction false} PutAllSaved(lib: Lib, s: Store, pieces: seq<Bytes>, comp: Compression,
                                       stats: IngestStats, refs: seq<ChunkRef>, offset: nat)
    requires s.saved.Some? && s.saved.value in s.packs
    ensures var t := PutAll(lib, s, pieces, comp, stats, refs, offset).store;
      t.saved.Some? && t.saved.value in t.packs
    decreases |pieces|
  {
    hide Put, Count;
    if pieces != [] {
      var p := pieces[0];
      var (t, r) := Put(lib, s, lib.hash(p), p, comp);
      PutSaved(lib, s, lib.hash(p), p, comp);
      if r.Ok? {
        PutAllSaved(lib, t, pieces[1..], comp, Count(stats, lib.hash(p) in s.index, |p|),
                    refs + [ChunkRef(lib.hash(p), offset, |p|, r.value)], offset + |p|);
      }
    }
  }

  lemma PutSaved(lib: Lib, s: Store, h: Hash, plain: Bytes, comp: Compression)
    requires s.saved.Some? && s.saved.value in s.packs
    ensures var t := Put(lib, s, h, plain, comp).0;
      t.saved.Some? && t.saved.value in t.packs
  {
    hide Locate, Encode, EncodeLocator, NextLocator;
  }

  lemma IngestSaved(lib: Lib, a: Sys, b: Sys, step: Step)
    requires IngestStep(lib, a, b, step) && Restorable(a)
    ensures Restorable(b) && !DeletesSaved(a, step)
  {
    hide PutAll, AfterIngest, IngestStep;
    IngestShape(lib, a, b, step);
    PutAllSaved(lib, a.store, step.pieces, step.comp, NO_STATS.(chunksTotal := |step.pieces|), [], 0);
  }

  lemma ThreadSaved(lib: Lib, a: Sys, b: Sys, step: Step)
    requires Inv(lib, a) && Restorable(a) && ThreadStep(lib, a, b, step)
    ensures Restorable(b) && !DeletesSaved(a, step)
  {
    hide Loc, Usable, CatalogTrue, IdsPart, ThreadOk, CodecOf;
  }

  lemma CatalogSaved(lib: Lib, a: Sys, b: Sys, step: Step)
    requires Inv(lib, a) && Restorable(a) && CatalogStep(lib, a, b, step)
    ensures Restorable(b) && !DeletesSaved(a, step)
  {
    hide Loc, Usable, CatalogTrue, IdsPart, ThreadOk, Backed;
  }

  lemma FailSaved(lib: Lib, a: Sys, b: Sys, step: Step)
    requires Inv(lib, a) && Restorable(a) && FailStep(lib, a, b, step)
    ensures Restorable(b) && !DeletesSaved(a, step)
  {
    hide Loc, Usable, CatalogTrue, IdsPart, ThreadOk;
  }

  lemma PutStepSaved(lib: Lib, a: Sys, b: Sys, step: Step)
    requires Inv(lib, a) && Restorable(a) && PutStep(lib, a, b, step)
    ensures Restorable(b) && !DeletesSaved(a, step)
  {
    hide Loc, RowsInv, CatalogTrue, IdsPart, ThreadOk, Encode, EncodeLocator, NextLocator;
  }

  lemma SweepSaved(lib: Lib, a: Sys, b: Sys, step: Step)
    requires Inv(lib, a) && Restorable(a) && SweepStep(lib, a, b, step)
    ensures Restorable(b) <==> !DeletesSaved(a, step)
  {
    hide Loc, RowsInv, CatalogTrue, IdsPart, ThreadsPart, Reachable, DeadPacks, Restrict;
  }

  lemma TargetSaved(lib: Lib, a: Sys, b: Sys, step: Step)
    requires Inv(lib, a) && Restorable(a) && TargetStep(lib, a, b, step)
    ensures Restorable(b) <==> !DeletesSaved(a, step)
  {
    hide Loc, RowsInv, CatalogTrue, IdsPart, ThreadsPart, RowsOf;
  }

  lemma MoveSaved(lib: Lib, a: Sys, b: Sys, step: Step)
    requires Inv(lib, a) && Restorable(a) && MoveStep(lib, a, b, step)
    ensures Restorable(b) && !DeletesSaved(a, step)
  {
    hide Loc, RowsInv, CatalogTrue, IdsPart, ThreadsPart, Stored, EncodeLocator, LocOk, Plain, Apart;
  }

  lemma CrashSaved(lib: Lib, a: Sys, b: Sys, step: Step)
    requires Restorable(a) && CrashStep(lib, a, b, step)
    ensures Restorable(b) && !DeletesSaved(a, step)
  {
  }

  /** A repository stops being restorable at one kind of step only, and always at that. */
  lemma StepRestorable(lib: Lib, a: Sys, b: Sys, step: Step)
    requires Inv(lib, a) && Restorable(a) && Next(lib, a, b, step)
    ensures Restorable(b) <==> !DeletesSaved(a, step)
  {
    hide Inv, Restorable, DeletesSaved, ThreadStep, CatalogStep, PutStep, IngestStep, SweepStep, TargetStep, MoveStep,
         FailStep, CrashStep;
    if ThreadStep(lib, a, b, step) { ThreadSaved(lib, a, b, step); }
    else if CatalogStep(lib, a, b, step) { CatalogSaved(lib, a, b, step); }
    else if PutStep(lib, a, b, step) { PutStepSaved(lib, a, b, step); }
    else if IngestStep(lib, a, b, step) { IngestSaved(lib, a, b, step); }
    else if SweepStep(lib, a, b, step) { SweepSaved(lib, a, b, step); }
    else if TargetStep(lib, a, b, step) { TargetSaved(lib, a, b, step); }
    else if MoveStep(lib, a, b, step) { MoveSaved(lib, a, b, step); }
    else if FailStep(lib, a, b, step) { FailSaved(lib, a, b, step); }
    else { CrashSaved(lib, a, b, step); }
  }

  // ----- the failing case --------------------------------------------------------------

  /** The pack appended to so far has rows, and no reachable one. */
  ghost predicate Orphaned(s: Store, reach: set<Hash>) {
    && (exists k :: k in s.index && Loc(s.index[k]).packId == s.active)
    && (forall k :: k in s.index && k in reach ==> Loc(s.index[k]).packId != s.active)
  }

  lemma SavedSwept(lib: Lib, s: Store, reach: set<Hash>)
    requires StoreInv(lib, s) && Fresh(lib, s, 1)
    ensures var v := Swept(CreatePack(lib, s), reach);
      v.saved == Some(s.active) && (s.active !in v.packs <==> Orphaned(s, reach))
  {
    hide RowsInv, Loc;
    assert lib.uuid(s.drawn) !in s.packs;
    SweepDeletes(CreatePack(lib, s), reach, s.active);
  }

  /**
   * An abandoned roll, then a collection, then a restart, on a store that was at rest: new texts
   * can be put if and only if the pack that stayed saved keeps a reachable chunk, or never had
   * one, or packs are rolled before every append. Everything reachable reads as before in any
   * case, and the next roll puts the store to rest again.
   */
  lemma AbandonedRollLosesPuts(lib: Lib, s: Store, reach: set<Hash>, h: Hash, plain: Bytes, comp: Compression)
    requires StoreInv(lib, s) && Fresh(lib, s, 1)
    ensures var u := Reopen(lib, Swept(CreatePack(lib, s), reach));
      && (u.active in u.packs <==> !Orphaned(s, reach))
      && (h !in u.index ==>
            && (Put(lib, u, h, plain, comp).1.Ok? <==> !Orphaned(s, reach) || lib.rollover == 0)
            && (!Put(lib, u, h, plain, comp).1.Ok? ==> Put(lib, u, h, plain, comp) == (u, Err(Io))))
      && (h in reach ==> Get(lib, u.index, u.packs, h) == Get(lib, s.index, s.packs, h))
      && (Fresh(lib, s, 2) ==> StoreInv(lib, Roll(lib, u)))
  {
    hide StoreInv, Get, Abs, Extends, Swept, Put, Orphaned, CreatePack, Fresh;
    var t := CreatePack(lib, s);
    var v := Swept(t, reach);
    SavedSwept(lib, s, reach);
    if h !in v.index {
      PutAfterRestartExactly(lib, v, h, plain, comp);
    }
    RolledSound(lib, s, reach, h);
    SweepKeepsReachable(lib, t, reach, h);
    if Fresh(lib, s, 2) {
      NextRollRests(lib, s, reach);
    }
  }

  lemma RolledSound(lib: Lib, s: Store, reach: set<Hash>, h: Hash)
    requires StoreInv(lib, s) && Fresh(lib, s, 1)
    ensures var t := CreatePack(lib, s);
      RowsInv(lib, t.index, t.packs) && Get(lib, t.index, t.packs, h) == Get(lib, s.index, s.packs, h)
  {
    hide RowsInv, Get, Abs, Extends;
    CreatePackKeeps(lib, s);
    GetRefines(lib, s.index, s.packs, h);
    GetRefines(lib, CreatePack(lib, s).index, CreatePack(lib, s).packs, h);
  }

  lemma NextRollRests(lib: Lib, s: Store, reach: set<Hash>)
    requires StoreInv(lib, s) && Fresh(lib, s, 2)
    ensures StoreInv(lib, Roll(lib, Reopen(lib, Swept(CreatePack(lib, s), reach))))
  {
    hide RowsInv, Abs, Extends, DeadPacks;
    FreshFewer(lib, s, 2, 1);
    var t := CreatePack(lib, s);
    CreatePackKeeps(lib, s);
    SweptRowsSound(lib, t, reach);
    var u := Reopen(lib, Swept(t, reach));
    assert lib.uuid(s.drawn + 1) !in s.packs && lib.uuid(s.drawn) != lib.uuid(s.drawn + 1);
    CreatePackKeeps(lib, u);
  }

  /** A sweep keeps rows sound whether or not the saved pack is the active one. */
  lemma SweptRowsSound(lib: Lib, t: Store, reach: set<Hash>)
    requires RowsInv(lib, t.index, t.packs) && ActiveInv(t)
    ensures var v := Swept(t, reach); RowsInv(lib, v.index, v.packs)
  {
    hide RowsInv, Abs, DeadPacks;
    SweepKeeps(lib, SaveActive(t), reach);
    SameSweep(t, reach);
  }

  lemma SameSweep(t: Store, reach: set<Hash>)
    ensures var v, w := Swept(t, reach), Swept(SaveActive(t), reach); v.index == w.index && v.packs == w.packs
  {
    hide Loc;
  }
}
