/**
 * The double-checked put: however many recorders interleave their index probes, lock
 * acquisitions, appends and commits, no chunk is appended twice and no pack has a dead byte.
 */
module Tiling {
  import opened Base
  import opened Types
  import opened Locators
  import opened Library
  import opened StoreState
  import opened Protocol

  predicate Covers(l: Locator, id: Uuid, k: nat) {
    l.packId == id && l.offset <= k < l.offset + l.storedLen
  }

  ghost predicate Indexed(index: map<Hash, Bytes>, id: Uuid, k: nat) {
    exists h :: h in index && Covers(Loc(index[h]), id, k)
  }

  /** The bytes appended but not yet indexed, if the mutex holder is at that point. */
  predicate Pending(sys: Sys) {
    sys.mutex.Some? && sys.mutex.value in sys.threads && sys.threads[sys.mutex.value].Appended?
  }

  function PendingLoc(sys: Sys): Locator
    requires Pending(sys)
  {
    sys.threads[sys.mutex.value].l
  }

  /** Every byte of every pack belongs to an index row or to the append in progress. */
  ghost predicate NoDeadBytes(sys: Sys) {
    forall id, k :: id in sys.store.packs && 0 <= k < |sys.store.packs[id]| ==>
      Indexed(sys.store.index, id, k) || (Pending(sys) && Covers(PendingLoc(sys), id, k))
  }

  /** A step of a recorder: no crash, no maintenance, no uncontended ingest. */
  ghost predicate Recorder(lib: Lib, a: Sys, b: Sys, step: Step) {
    ThreadStep(lib, a, b, step) || CatalogStep(lib, a, b, step) || PutStep(lib, a, b, step)
  }

  function Appends(step: Step): nat {
    if step.Append? then 1 else 0
  }

  function InFlight(sys: Sys): nat {
    if Pending(sys) then 1 else 0
  }

  lemma QuietEnds(lib: Lib, a: Sys, b: Sys, step: Step)
    requires Inv(lib, a) && ThreadStep(lib, a, b, step) && (step.Acquire? || step.Release?)
    ensures b.store == a.store && b.mutex == a.mutex
    ensures Pending(b) == Pending(a) && (Pending(a) ==> PendingLoc(b) == PendingLoc(a))
  {
    hide Loc, Usable, CatalogTrue, IdsPart, MaintPart, ThreadOk;
  }

  lemma QuietProbe(lib: Lib, a: Sys, b: Sys, step: Step)
    requires Inv(lib, a) && ThreadStep(lib, a, b, step) && (step.Check? || step.Touch?)
    ensures b.store == a.store && b.mutex == a.mutex
    ensures Pending(b) == Pending(a) && (Pending(a) ==> PendingLoc(b) == PendingLoc(a))
  {
    hide Loc, Usable, CatalogTrue, IdsPart, MaintPart, ThreadOk, CodecOf;
  }

  lemma QuietLock(lib: Lib, a: Sys, b: Sys, step: Step)
    requires Inv(lib, a) && ThreadStep(lib, a, b, step) && (step.Lock? || step.Recheck?)
    ensures b.store == a.store && !Pending(b) && !Pending(a)
  {
    hide Loc, Usable, CatalogTrue, IdsPart, MaintPart, ThreadOk, CodecOf;
  }

  lemma QuietThread(lib: Lib, a: Sys, b: Sys, step: Step)
    requires Inv(lib, a) && ThreadStep(lib, a, b, step)
    ensures b.store == a.store && !step.Append?
    ensures Pending(b) == Pending(a) && (Pending(a) ==> PendingLoc(b) == PendingLoc(a))
  {
    hide Inv, Pending, PendingLoc;
    match step {
      case Acquire(_) => QuietEnds(lib, a, b, step);
      case Release(_) => QuietEnds(lib, a, b, step);
      case Check(_, _) => QuietProbe(lib, a, b, step);
      case Touch(_, _) => QuietProbe(lib, a, b, step);
      case Lock(_) => QuietLock(lib, a, b, step);
      case Recheck(_) => QuietLock(lib, a, b, step);
    }
  }

  lemma QuietCatalog(lib: Lib, a: Sys, b: Sys, step: Step)
    requires Inv(lib, a) && CatalogStep(lib, a, b, step)
    ensures b.store == a.store && !step.Append?
    ensures Pending(b) == Pending(a) && (Pending(a) ==> PendingLoc(b) == PendingLoc(a))
  {
    hide Loc, Usable, CatalogTrue, IdsPart, MaintPart, ThreadOk, Backed;
  }

  lemma QuietStep(lib: Lib, a: Sys, b: Sys, step: Step)
    requires Inv(lib, a) && (ThreadStep(lib, a, b, step) || CatalogStep(lib, a, b, step))
    ensures b.store == a.store && !step.Append?
    ensures Pending(b) == Pending(a) && (Pending(a) ==> PendingLoc(b) == PendingLoc(a))
  {
    hide Inv, ThreadStep, CatalogStep, Pending, PendingLoc;
    if ThreadStep(lib, a, b, step) {
      QuietThread(lib, a, b, step);
    } else {
      QuietCatalog(lib, a, b, step);
    }
  }

  lemma TightQuiet(lib: Lib, a: Sys, b: Sys, step: Step)
    requires Inv(lib, a) && NoDeadBytes(a)
    requires ThreadStep(lib, a, b, step) || CatalogStep(lib, a, b, step)
    ensures NoDeadBytes(b)
    ensures |b.store.index| + InFlight(b) == |a.store.index| + InFlight(a) + Appends(step)
  {
    hide Inv, ThreadStep, CatalogStep, Indexed, Covers;
    QuietStep(lib, a, b, step);
  }

  lemma HolderFacts(lib: Lib, a: Sys, t: nat)
    requires Inv(lib, a) && t in a.threads && Critical(a.threads[t])
    ensures a.mutex == Some(t) && ThreadOk(lib, a.store, a.threads[t])
    ensures a.store.size == SizeOf(a.store.packs, a.store.active)
    ensures Pending(a) <==> a.threads[t].Appended?
  {
    hide ThreadOk, CatalogTrue, IdsPart, MaintPart, RowsInv;
    ThreadFacts(lib, a, t);
  }

  lemma TightRoll(lib: Lib, a: Sys, b: Sys, step: Step)
    requires Inv(lib, a) && NoDeadBytes(a) && PutStep(lib, a, b, step) && (step.Create? || step.Save?)
    ensures NoDeadBytes(b)
    ensures |b.store.index| + InFlight(b) == |a.store.index| + InFlight(a) + Appends(step)
  {
    hide Inv, Indexed, Covers;
    HolderFacts(lib, a, step.t);
    forall id, k | id in b.store.packs && 0 <= k < |b.store.packs[id]| ensures Indexed(b.store.index, id, k) {
      assert id in a.store.packs && b.store.packs[id] == a.store.packs[id];
    }
  }

  lemma TightAppend(lib: Lib, a: Sys, b: Sys, t: nat, comp: Compression)
    requires Lossless(lib) && Inv(lib, a) && NoDeadBytes(a) && PutStep(lib, a, b, Append(t, comp))
    ensures NoDeadBytes(b)
    ensures |b.store.index| + InFlight(b) == |a.store.index| + InFlight(a) + 1
  {
    hide Inv, Indexed, Encode, Lossless, Loc, RefsTrue, LocOk, Plain;
    HolderFacts(lib, a, t);
    var plain := a.threads[t].plain;
    EncodeRoundTrip(lib, comp, plain);
    var stored := Encode(lib, comp, plain).1;
    forall id, k | id in b.store.packs && 0 <= k < |b.store.packs[id]|
      ensures Indexed(b.store.index, id, k) || (Pending(b) && Covers(PendingLoc(b), id, k))
    {
      if id == a.store.active && k >= a.store.size {
        assert Covers(PendingLoc(b), id, k);
      } else {
        assert id in a.store.packs && k < |a.store.packs[id]|;
      }
    }
  }

  lemma IndexedCommit(index: map<Hash, Bytes>, h: Hash, l: Locator, id: Uuid, k: nat)
    requires h !in index && (Indexed(index, id, k) || Covers(l, id, k))
    ensures Indexed(index[h := EncodeLocator(l)], id, k)
  {
    hide Loc, EncodeLocator, DecodeLocator, Covers;
    LocOfEncode(l);
    var next := index[h := EncodeLocator(l)];
    if Covers(l, id, k) {
      assert Covers(Loc(next[h]), id, k);
    } else {
      var g :| g in index && Covers(Loc(index[g]), id, k);
      assert g in next && next[g] == index[g];
    }
  }

  lemma TightCommit(lib: Lib, a: Sys, b: Sys, t: nat)
    requires Inv(lib, a) && NoDeadBytes(a) && PutStep(lib, a, b, Commit(t))
    ensures NoDeadBytes(b)
    ensures |b.store.index| + InFlight(b) == |a.store.index| + InFlight(a)
  {
    hide Inv, Indexed, Covers, EncodeLocator, Loc, LocOk, Plain, RefsTrue;
    HolderFacts(lib, a, t);
    var h, l := lib.hash(a.threads[t].plain), a.threads[t].l;
    forall id, k | id in b.store.packs && 0 <= k < |b.store.packs[id]| ensures Indexed(b.store.index, id, k) {
      IndexedCommit(a.store.index, h, l, id, k);
    }
  }

  lemma TightStep(lib: Lib, a: Sys, b: Sys, step: Step)
    requires Lossless(lib) && Inv(lib, a) && NoDeadBytes(a) && Recorder(lib, a, b, step)
    ensures NoDeadBytes(b)
    ensures |b.store.index| + InFlight(b) == |a.store.index| + InFlight(a) + Appends(step)
  {
    hide Inv, NoDeadBytes, ThreadStep, CatalogStep, Lossless, InFlight;
    if ThreadStep(lib, a, b, step) || CatalogStep(lib, a, b, step) {
      TightQuiet(lib, a, b, step);
    } else if step.Append? {
      TightAppend(lib, a, b, step.t, step.comp);
    } else if step.Commit? {
      TightCommit(lib, a, b, step.t);
    } else {
      TightRoll(lib, a, b, step);
    }
  }

  ghost predicate RecorderRun(lib: Lib, states: seq<Sys>, steps: seq<Step>) {
    && |states| == |steps| + 1
    && forall i :: 0 <= i < |steps| ==> Recorder(lib, states[i], states[i + 1], steps[i])
  }

  function AppendCount(steps: seq<Step>): nat {
    if steps == [] then 0 else AppendCount(steps[..|steps| - 1]) + Appends(steps[|steps| - 1])
  }

  /**
   * Over any interleaving of recorders from an empty repository: as many appends as indexed
   * digests, plus the one in progress if there is one, and not one dead byte.
   */
  lemma {:induction false} AppendedOnce(lib: Lib, states: seq<Sys>, steps: seq<Step>)
    requires Lossless(lib) && RecorderRun(lib, states, steps) && Init(lib, states[0])
    ensures var last := states[|steps|];
      && Inv(lib, last) && NoDeadBytes(last)
      && AppendCount(steps) == |last.store.index| + InFlight(last)
    decreases |steps|
  {
    hide Inv, NoDeadBytes, Recorder, Lossless, InFlight, Init;
    if steps == [] {
      EmptyIsTight(lib, states[0]);
    } else {
      var n := |steps| - 1;
      AppendedOnce(lib, states[..n + 1], steps[..n]);
      RecorderNext(lib, states[n], states[n + 1], steps[n]);
      StepSafe(lib, states[n], states[n + 1], steps[n]);
      TightStep(lib, states[n], states[n + 1], steps[n]);
    }
  }

  lemma RecorderNext(lib: Lib, a: Sys, b: Sys, step: Step)
    requires Recorder(lib, a, b, step)
    ensures Next(lib, a, b, step)
  {
    hide ThreadStep, CatalogStep, PutStep;
  }

  lemma EmptyIsTight(lib: Lib, sys: Sys)
    requires Init(lib, sys)
    ensures Inv(lib, sys) && NoDeadBytes(sys) && |sys.store.index| + InFlight(sys) == 0
  {
    hide Inv;
    InitInv(lib, sys);
  }

  ghost predicate OnlyCover(index: map<Hash, Bytes>, h: Hash, id: Uuid, k: nat)
    requires h in index
  {
    && Covers(Loc(index[h]), id, k)
    && forall g :: g in index && Covers(Loc(index[g]), id, k) ==> g == h
  }

  /** With no append in progress, each byte of each pack belongs to exactly one index row. */
  lemma ExactTiling(lib: Lib, sys: Sys, id: Uuid, k: nat)
    requires Inv(lib, sys) && NoDeadBytes(sys) && sys.mutex.None?
    requires id in sys.store.packs && k < |sys.store.packs[id]|
    ensures exists h :: h in sys.store.index && OnlyCover(sys.store.index, h, id, k)
  {
    hide Loc, RowOk, CatalogTrue, ThreadsPart, IdsPart, MaintPart;
    assert Indexed(sys.store.index, id, k);
    var h :| h in sys.store.index && Covers(Loc(sys.store.index[h]), id, k);
    forall g | g in sys.store.index && g != h ensures !Covers(Loc(sys.store.index[g]), id, k) {
      assert Apart(Loc(sys.store.index[g]), Loc(sys.store.index[h]));
    }
    assert OnlyCover(sys.store.index, h, id, k);
  }

  // ----- the steps of one thread add up to the sequential operation ---------------------------

  function WithThread(a: Sys, t: nat, th: Thread, s: Store): Sys {
    a.(threads := a.threads[t := th], store := s, mutex := if Critical(th) then Some(t) else None)
  }

  /** Check, lock and re-check, all missing, then roll if the pack is full. */
  function LoneLead(lib: Lib, a: Sys, t: nat, refs: map<Hash, Codec>, plain: Bytes): (seq<Sys>, seq<Step>) {
    var missed := WithThread(a, t, Missed(refs, plain), a.store);
    var locked := WithThread(a, t, Locked(refs, plain), a.store);
    if a.store.size >= lib.rollover then
      ([a, missed, locked, WithThread(a, t, NeedRoll(refs, plain), a.store),
        WithThread(a, t, Rolled(refs, plain), CreatePack(lib, a.store)),
        WithThread(a, t, Writing(refs, plain), Roll(lib, a.store))],
       [Check(t, plain), Lock(t), Recheck(t), Create(t), Save(t)])
    else
      ([a, missed, locked, WithThread(a, t, Writing(refs, plain), a.store)],
       [Check(t, plain), Lock(t), Recheck(t)])
  }

  lemma LoneCheck(lib: Lib, a: Sys, t: nat, refs: map<Hash, Codec>, plain: Bytes)
    requires t in a.threads && a.threads[t] == Ready(refs) && a.mutex.None?
    requires |plain| < U32_LIMIT && lib.hash(plain) !in a.store.index
    ensures ThreadStep(lib, a, WithThread(a, t, Missed(refs, plain), a.store), Check(t, plain))
    ensures ThreadStep(lib, WithThread(a, t, Missed(refs, plain), a.store),
                       WithThread(a, t, Locked(refs, plain), a.store), Lock(t))
  {
    hide CodecOf;
  }

  lemma LoneRecheck(lib: Lib, a: Sys, t: nat, refs: map<Hash, Codec>, plain: Bytes)
    requires lib.hash(plain) !in a.store.index
    ensures var next := if a.store.size >= lib.rollover then NeedRoll(refs, plain) else Writing(refs, plain);
      ThreadStep(lib, WithThread(a, t, Locked(refs, plain), a.store), WithThread(a, t, next, a.store), Recheck(t))
  {
    hide CodecOf;
  }

  lemma LoneProbe(lib: Lib, a: Sys, t: nat, refs: map<Hash, Codec>, plain: Bytes, i: nat)
    requires t in a.threads && a.threads[t] == Ready(refs) && a.mutex.None? && i < 3
    requires |plain| < U32_LIMIT && lib.hash(plain) !in a.store.index
    ensures var (states, steps) := LoneLead(lib, a, t, refs, plain);
      ThreadStep(lib, states[i], states[i + 1], steps[i])
  {
    hide ThreadStep, CreatePack, Roll, WithThread;
    LoneCheck(lib, a, t, refs, plain);
    LoneRecheck(lib, a, t, refs, plain);
  }

  lemma LoneCreate(lib: Lib, a: Sys, t: nat, refs: map<Hash, Codec>, plain: Bytes)
    requires CanCreate(lib, a.store)
    ensures PutStep(lib, WithThread(a, t, NeedRoll(refs, plain), a.store),
                    WithThread(a, t, Rolled(refs, plain), CreatePack(lib, a.store)), Create(t))
  {
    hide CreatePack;
    assert a.threads[t := NeedRoll(refs, plain)][t := Rolled(refs, plain)] == a.threads[t := Rolled(refs, plain)];
  }

  lemma LoneSave(lib: Lib, a: Sys, t: nat, refs: map<Hash, Codec>, plain: Bytes)
    ensures PutStep(lib, WithThread(a, t, Rolled(refs, plain), CreatePack(lib, a.store)),
                    WithThread(a, t, Writing(refs, plain), Roll(lib, a.store)), Save(t))
  {
    hide CreatePack;
    assert a.threads[t := Rolled(refs, plain)][t := Writing(refs, plain)] == a.threads[t := Writing(refs, plain)];
  }

  lemma LoneRoll(lib: Lib, a: Sys, t: nat, refs: map<Hash, Codec>, plain: Bytes, i: nat)
    requires a.store.size >= lib.rollover && 3 <= i < 5 && CanCreate(lib, a.store)
    ensures var (states, steps) := LoneLead(lib, a, t, refs, plain);
      PutStep(lib, states[i], states[i + 1], steps[i])
  {
    hide CreatePack, Roll, PutStep, WithThread;
    LoneCreate(lib, a, t, refs, plain);
    LoneSave(lib, a, t, refs, plain);
  }

  lemma LoneLeadRuns(lib: Lib, a: Sys, t: nat, refs: map<Hash, Codec>, plain: Bytes)
    requires t in a.threads && a.threads[t] == Ready(refs) && a.mutex.None?
    requires |plain| < U32_LIMIT && lib.hash(plain) !in a.store.index && CanCreate(lib, a.store)
    ensures var (states, steps) := LoneLead(lib, a, t, refs, plain);
      && RecorderRun(lib, states, steps) && |states| == |steps| + 1 && states[0] == a
      && states[|steps|] == WithThread(a, t, Writing(refs, plain), RollIfFull(lib, a.store))
  {
    hide CatalogStep, ThreadStep, PutStep, CreatePack;
    var (states, steps) := LoneLead(lib, a, t, refs, plain);
    forall i | 0 <= i < |steps| ensures Recorder(lib, states[i], states[i + 1], steps[i]) {
      if i < 3 {
        LoneProbe(lib, a, t, refs, plain, i);
      } else {
        LoneRoll(lib, a, t, refs, plain, i);
      }
    }
  }

  lemma LoneTail(lib: Lib, w: Sys, t: nat, refs: map<Hash, Codec>, plain: Bytes, comp: Compression)
    returns (x: Sys, y: Sys)
    requires t in w.threads && w.threads[t] == Writing(refs, plain) && w.mutex == Some(t)
    requires w.store.active in w.store.packs && w.store.size < U64_LIMIT
    ensures PutStep(lib, w, x, Append(t, comp)) && PutStep(lib, x, y, Commit(t))
    ensures var (codec, stored) := Encode(lib, comp, plain);
      y == w.(store := SetRow(AppendTo(w.store, stored), lib.hash(plain),
                              NextLocator(w.store, |plain|, |stored|, codec)),
              threads := w.threads[t := Ready(refs[lib.hash(plain) := codec])], mutex := None)
  {
    hide Encode, EncodeLocator, AppendTo;
    var (codec, stored) := Encode(lib, comp, plain);
    var l := NextLocator(w.store, |plain|, |stored|, codec);
    x := At(w, t, Appended(refs, plain, l)).(store := AppendTo(w.store, stored));
    y := At(x, t, Ready(refs[lib.hash(plain) := l.codec])).(store := SetRow(x.store, lib.hash(plain), l),
                                                            mutex := None);
    assert w.threads[t := x.threads[t]][t := y.threads[t]] == w.threads[t := y.threads[t]];
  }

  lemma RunSnoc(lib: Lib, states: seq<Sys>, steps: seq<Step>, next: Sys, step: Step)
    requires RecorderRun(lib, states, steps) && Recorder(lib, states[|steps|], next, step)
    ensures RecorderRun(lib, states + [next], steps + [step])
    ensures |states| == |steps| + 1 && (states + [next])[|steps + [step]|] == next && (states + [next])[0] == states[0]
  {
    hide Recorder;
  }

  /** The steps of one thread that alone stores `plain` add up to a sequential `put_chunk` that succeeds. */
  lemma LonePut(lib: Lib, a: Sys, t: nat, plain: Bytes, comp: Compression) returns (states: seq<Sys>, steps: seq<Step>)
    requires Inv(lib, a) && t in a.threads && a.threads[t].Ready? && a.mutex.None?
    requires |plain| < U32_LIMIT && lib.hash(plain) !in a.store.index && Fresh(lib, a.store, 1)
    requires Put(lib, a.store, lib.hash(plain), plain, comp).1.Ok?
    ensures RecorderRun(lib, states, steps) && |states| == |steps| + 1 && states[0] == a
    ensures states[|steps|]
      == a.(store := Put(lib, a.store, lib.hash(plain), plain, comp).0,
            threads := a.threads[t := Ready(a.threads[t].refs[lib.hash(plain) := Encode(lib, comp, plain).0])])
  {
    hide CatalogTrue, IdsPart, MaintPart, ThreadsPart, Encode, RollIfFull, LoneLead, RecorderRun, ThreadStep,
         PutStep, CatalogStep, RowsInv, SetRow, NextLocator, AppendTo;
    var refs := a.threads[t].refs;
    RollUsable(lib, a.store);
    LoneLeadRuns(lib, a, t, refs, plain);
    var (states0, steps0) := LoneLead(lib, a, t, refs, plain);
    var w := states0[|steps0|];
    var x, y := LoneTail(lib, w, t, refs, plain, comp);
    RunSnoc(lib, states0, steps0, x, Append(t, comp));
    RunSnoc(lib, states0 + [x], steps0 + [Append(t, comp)], y, Commit(t));
    assert y.store == PutNew(lib, a.store, lib.hash(plain), plain, comp);
    assert a.threads[t := w.threads[t]][t := y.threads[t]] == a.threads[t := y.threads[t]];
    states, steps := states0 + [x] + [y], steps0 + [Append(t, comp)] + [Commit(t)];
  }
}
