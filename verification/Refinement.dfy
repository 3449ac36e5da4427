/** The protocol as a refinement: what each step does to the map from digest to plaintext. */
module Refinement {
  import opened Base
  import opened Types
  import opened Sums
  import opened Locators
  import opened Library
  import opened StoreState
  import opened Compaction
  import opened Gc
  import opened Manifests
  import opened Protocol

  /**
   * A row commit adds one text under a digest that had none; a sweep's row removal keeps the
   * reachable part; an ingest puts some first texts, all of them if it succeeds; nothing else,
   * a crash, a failure, a move or a deletion of a pack included, changes the map at all.
   */
  ghost predicate Effect(lib: Lib, a: Sys, b: Sys, step: Step) {
    var m, n := Contents(lib, a), Contents(lib, b);
    match step
    case Commit(t) =>
      t in a.threads && a.threads[t].Appended? &&
      var plain := a.threads[t].plain;
      lib.hash(plain) !in m && n == m[lib.hash(plain) := plain]
    case GcDropRows => n == Restrict(m, Reachable(a.snaps, a.store.manifests))
    case Ingest(_, pieces, comp) => PutUpTo(lib, m, n, pieces, IngestPieces(lib, a.store, pieces, comp).result.Ok?)
    case IngestStopped(pieces, comp) => PutUpTo(lib, m, n, pieces, false)
    case _ => n == m
  }

  lemma PutEffect(lib: Lib, a: Sys, b: Sys, step: Step)
    requires Lossless(lib) && Inv(lib, a) && PutStep(lib, a, b, step)
    ensures Effect(lib, a, b, step)
  {
    hide Loc, RowsInv, Abs, CatalogTrue, IdsPart, MaintPart, ThreadOk, EncodeLocator, Encode, Extends, Fresh,
         CodecsGrow, NextLocator, Lossless;
    ThreadFacts(lib, a, step.t);
    match step {
      case Create(t) =>
        CreateFresh(lib, a.store);
        CreatePackKeeps(lib, a.store);
      case Save(t) =>
      case Append(t, comp) => AppendKeeps(lib, a.store, Encode(lib, comp, a.threads[t].plain).1);
      case Commit(t) => CommitOwn(lib, a.store, a.threads[t]);
    }
  }

  lemma IngestEffect(lib: Lib, a: Sys, b: Sys, step: Step)
    requires Lossless(lib) && Inv(lib, a) && IngestStep(lib, a, b, step)
    ensures Effect(lib, a, b, step)
  {
    hide RowsInv, Abs, CatalogTrue, IngestPieces, Lossless, Fresh, Grows, CodecsGrow, ThreadsPart, IngestStep,
         ManifestTrue, Flatten, AfterIngest, InsertAll, IdsPart, MaintPart;
    IngestShape(lib, a, b, step);
    IngestFacts(lib, a.store, step.pieces, step.comp);
  }

  lemma SweepEffect(lib: Lib, a: Sys, b: Sys, step: Step)
    requires Inv(lib, a) && SweepStep(lib, a, b, step)
    ensures Effect(lib, a, b, step)
  {
    hide Loc, RowsInv, CatalogTrue, Reachable, IdsPart, ThreadsPart, Abs, DeadPacks;
    match step {
      case GcDropRows =>
        var reach := a.maint.reach;
        var gone := a.store.index.Keys - reach;
        assert Restrict(a.store.index, reach) == a.store.index - gone;
        DropRowsKeeps(lib, a.store.index, a.store.packs, gone);
        ContentsKeys(lib, a);
        assert Contents(lib, a) - gone == Restrict(Contents(lib, a), reach);
      case GcDelete(p) => DeletePackKeeps(lib, a.store, p);
      case _ =>
    }
  }

  lemma ContentsKeys(lib: Lib, a: Sys)
    requires RowsInv(lib, a.store.index, a.store.packs)
    ensures Contents(lib, a).Keys == a.store.index.Keys
  {
    hide RowsInv, Abs;
    GetRefines(lib, a.store.index, a.store.packs, Zeros(32));
  }

  lemma TargetEffect(lib: Lib, a: Sys, b: Sys, step: Step)
    requires Inv(lib, a) && TargetStep(lib, a, b, step)
    ensures Effect(lib, a, b, step)
  {
    hide Loc, RowsInv, CatalogTrue, Reachable, IdsPart, ThreadsPart, Abs, RowsOf, Extends, Fresh;
    match step {
      case CompactCreate =>
        CreateFresh(lib, a.store);
        CreatePackKeeps(lib, a.store);
      case PackDone =>
        NoRowsIn(a.store.index, a.maint.pack);
        DeletePackKeeps(lib, a.store, a.maint.pack);
      case _ =>
    }
  }

  lemma MoveEffect(lib: Lib, a: Sys, b: Sys, step: Step)
    requires Inv(lib, a) && MoveStep(lib, a, b, step)
    ensures Effect(lib, a, b, step)
  {
    hide Loc, RowsInv, CatalogTrue, Reachable, IdsPart, ThreadsPart, Abs, Extends, Fresh, Stored, EncodeLocator, LocOk,
         Plain, Apart, CodecsGrow;
    match step {
      case MoveStart(h) =>
        if a.store.size >= lib.rollover {
          CreateFresh(lib, a.store);
          CreatePackKeeps(lib, a.store);
        }
      case MoveAppend => AppendKeeps(lib, a.store, Stored(a.store.packs, Loc(a.store.index[a.maint.h])).value);
      case MoveCommit => MoveCommitRows(lib, a.store, a.maint.h, a.maint.l);
      case _ =>
    }
  }

  lemma ThreadEffect(lib: Lib, a: Sys, b: Sys, step: Step)
    requires Inv(lib, a) && ThreadStep(lib, a, b, step)
    ensures Effect(lib, a, b, step)
  {
    hide Usable, CatalogTrue, IdsPart, ThreadsPart, MaintPart, ThreadOk, CodecOf, Abs;
  }

  lemma CatalogEffect(lib: Lib, a: Sys, b: Sys, step: Step)
    requires Inv(lib, a) && CatalogStep(lib, a, b, step)
    ensures Effect(lib, a, b, step)
  {
    hide Usable, CatalogTrue, IdsPart, ThreadsPart, MaintPart, ThreadOk, Backed, Abs;
  }

  lemma FailEffect(lib: Lib, a: Sys, b: Sys, step: Step)
    requires Inv(lib, a) && FailStep(lib, a, b, step)
    ensures Effect(lib, a, b, step)
  {
    hide Usable, CatalogTrue, IdsPart, ThreadsPart, MaintPart, ThreadOk, Abs;
  }

  lemma CrashEffect(lib: Lib, a: Sys, b: Sys, step: Step)
    requires Inv(lib, a) && CrashStep(lib, a, b, step)
    ensures Effect(lib, a, b, step)
  {
    hide RowsInv, CatalogTrue, IdsPart, ThreadsPart, MaintPart, Abs;
    TornKeeps(lib, a, step.torn);
  }

  /** Every step has exactly its effect on the map, and no other. */
  lemma StepRefines(lib: Lib, a: Sys, b: Sys, step: Step)
    requires Lossless(lib) && Inv(lib, a) && Next(lib, a, b, step)
    ensures Effect(lib, a, b, step)
  {
    hide Inv, Effect, Lossless, ThreadStep, CatalogStep, PutStep, IngestStep, SweepStep, TargetStep, MoveStep, FailStep,
         CrashStep;
    if PutStep(lib, a, b, step) { PutEffect(lib, a, b, step); }
    else if IngestStep(lib, a, b, step) { IngestEffect(lib, a, b, step); }
    else if SweepStep(lib, a, b, step) { SweepEffect(lib, a, b, step); }
    else if TargetStep(lib, a, b, step) { TargetEffect(lib, a, b, step); }
    else if MoveStep(lib, a, b, step) { MoveEffect(lib, a, b, step); }
    else if CrashStep(lib, a, b, step) { CrashEffect(lib, a, b, step); }
    else if ThreadStep(lib, a, b, step) { ThreadEffect(lib, a, b, step); }
    else if CatalogStep(lib, a, b, step) { CatalogEffect(lib, a, b, step); }
    else { FailEffect(lib, a, b, step); }
  }

  /** Over every run from an empty repository, each step has exactly its effect. */
  lemma RunRefines(lib: Lib, states: seq<Sys>, steps: seq<Step>, i: nat)
    requires Lossless(lib) && Run(lib, states, steps) && Init(lib, states[0]) && i < |steps|
    ensures Contents(lib, states[0]) == map[]
    ensures Effect(lib, states[i], states[i + 1], steps[i])
  {
    hide Inv, Next, Effect, Lossless, Contents, Init;
    InitInv(lib, states[0]);
    NothingAtFirst(lib, states[0]);
    RunInv(lib, states, steps, i);
    StepRefines(lib, states[i], states[i + 1], steps[i]);
  }

  lemma NothingAtFirst(lib: Lib, a: Sys)
    requires Init(lib, a)
    ensures Contents(lib, a) == map[]
  {
  }
}
