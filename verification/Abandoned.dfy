/** A run in which a roll is abandoned, and a repository small enough to follow it through. */
module Abandoned {
  import opened Base
  import opened Types
  import opened Locators
  import opened Library
  import opened StoreState
  import opened Compaction
  import opened Gc
  import opened Protocol
  import opened Tiling
  import opened Runs
  import opened Resume

  /** Some run of any steps leads from `a` to `b`. */
  ghost predicate Goes(lib: Lib, a: Sys, b: Sys) {
    exists states, steps :: Run(lib, states, steps) && states[0] == a && states[|steps|] == b
  }

  lemma GoesOne(lib: Lib, a: Sys, b: Sys, step: Step)
    requires Next(lib, a, b, step)
    ensures Goes(lib, a, b)
  {
    hide Next;
    var states, steps := [a, b], [step];
    assert Run(lib, states, steps) && states[0] == a && states[|steps|] == b;
  }

  lemma GoesOn(lib: Lib, a: Sys, b: Sys, c: Sys)
    requires Goes(lib, a, b) && Goes(lib, b, c)
    ensures Goes(lib, a, c)
  {
    hide Next;
    var s1, p1 :| Run(lib, s1, p1) && s1[0] == a && s1[|p1|] == b;
    var s2, p2 :| Run(lib, s2, p2) && s2[0] == b && s2[|p2|] == c;
    RunJoin(lib, s1, p1, s2, p2);
    var states, steps := s1 + s2[1..], p1 + p2;
    assert Run(lib, states, steps) && states[0] == a && states[|steps|] == c;
  }

  lemma RunJoin(lib: Lib, s1: seq<Sys>, p1: seq<Step>, s2: seq<Sys>, p2: seq<Step>)
    requires Run(lib, s1, p1) && Run(lib, s2, p2) && s1[|p1|] == s2[0]
    ensures var states, steps := s1 + s2[1..], p1 + p2;
      Run(lib, states, steps) && states[0] == s1[0] && states[|steps|] == s2[|p2|]
  {
    hide Next;
    var states, steps := s1 + s2[1..], p1 + p2;
    forall i | 0 <= i < |steps| ensures Next(lib, states[i], states[i + 1], steps[i]) {
      if i < |p1| {
        assert states[i] == s1[i] && states[i + 1] == s1[i + 1];
      } else {
        var j := i - |p1|;
        assert states[i] == s2[j] && states[i + 1] == s2[j + 1] && steps[i] == p2[j];
      }
    }
  }

  lemma LeadsGoes(lib: Lib, a: Sys, b: Sys)
    requires Leads(lib, a, b)
    ensures Goes(lib, a, b)
  {
    hide SweepStep, TargetStep, MoveStep, ThreadStep, CatalogStep, PutStep, IngestStep, FailStep, CrashStep;
    var states, steps :| MaintenanceRun(lib, states, steps) && states[0] == a && states[|steps|] == b;
    assert Run(lib, states, steps);
  }

  lemma RecorderGoes(lib: Lib, states: seq<Sys>, steps: seq<Step>)
    requires RecorderRun(lib, states, steps)
    ensures Goes(lib, states[0], states[|steps|])
  {
    hide Recorder, Next;
    forall i | 0 <= i < |steps| ensures Next(lib, states[i], states[i + 1], steps[i]) {
      RecorderNext(lib, states[i], states[i + 1], steps[i]);
    }
    assert Run(lib, states, steps);
  }

  lemma GoesInv(lib: Lib, a: Sys, b: Sys)
    requires Lossless(lib) && Inv(lib, a) && Goes(lib, a, b)
    ensures Inv(lib, b)
  {
    hide Inv, Next, Lossless;
    var states, steps :| Run(lib, states, steps) && states[0] == a && states[|steps|] == b;
    RunInv(lib, states, steps, |steps|);
  }

  // ----- the run ------------------------------------------------------------------------

  /** A lone recorder comes to store a new text, finds the active pack full, and starts a roll. */
  lemma RollBegins(lib: Lib, a: Sys, t: nat, plain: Bytes)
    requires t in a.threads && a.threads[t].Ready? && a.mutex.None?
    requires |plain| < U32_LIMIT && lib.hash(plain) !in a.store.index
    requires a.store.size >= lib.rollover && CanCreate(lib, a.store)
    ensures Goes(lib, a, WithThread(a, t, Rolled(a.threads[t].refs, plain), CreatePack(lib, a.store)))
  {
    hide Goes, CreatePack, ThreadStep, PutStep, WithThread;
    var refs := a.threads[t].refs;
    var missed := WithThread(a, t, Missed(refs, plain), a.store);
    var locked := WithThread(a, t, Locked(refs, plain), a.store);
    var need := WithThread(a, t, NeedRoll(refs, plain), a.store);
    LoneCheck(lib, a, t, refs, plain);
    GoesOne(lib, a, missed, Check(t, plain));
    GoesOne(lib, missed, locked, Lock(t));
    GoesOn(lib, a, missed, locked);
    LoneRecheck(lib, a, t, refs, plain);
    GoesOne(lib, locked, need, Recheck(t));
    GoesOn(lib, a, locked, need);
    var rolled := WithThread(a, t, Rolled(refs, plain), CreatePack(lib, a.store));
    LoneCreate(lib, a, t, refs, plain);
    GoesOne(lib, need, rolled, Create(t));
    GoesOn(lib, a, need, rolled);
  }

  /** The save fails; the recorder gives up the mutex and then the lease. */
  lemma RollFails(lib: Lib, a: Sys, t: nat, plain: Bytes, refs: map<Hash, Codec>, s: Store)
    requires a.threads.Keys == {t} && a.mutex.None?
    ensures Goes(lib, WithThread(a, t, Rolled(refs, plain), s), a.(threads := map[], store := s))
  {
    hide Goes;
    var rolled := WithThread(a, t, Rolled(refs, plain), s);
    var back := At(rolled, t, Ready(refs)).(mutex := None);
    assert FailStep(lib, rolled, back, Fail(t));
    GoesOne(lib, rolled, back, Fail(t));
    var done := back.(threads := back.threads - {t});
    assert ThreadStep(lib, back, done, Release(t));
    GoesOne(lib, back, done, Release(t));
    GoesOn(lib, rolled, back, done);
    assert done.threads == map[];
  }

  lemma CollectAndCrash(lib: Lib, a: Sys)
    requires a.maint.Quiet? && a.threads == map[] && a.mutex.None?
    ensures Goes(lib, a, a.(store := Reopen(lib, Swept(a.store, Reachable(a.snaps, a.store.manifests)))))
  {
    hide Goes, Leads, Reachable, Swept;
    var swept := a.(store := Swept(a.store, Reachable(a.snaps, a.store.manifests)));
    CollectionRun(lib, a);
    LeadsGoes(lib, a, swept);
    var end := a.(store := Reopen(lib, swept.store));
    NothingTorn(lib, swept.store);
    assert CrashStep(lib, swept, end, Crash([]));
    GoesOne(lib, swept, end, Crash([]));
    GoesOn(lib, a, swept, end);
  }

  lemma NothingTorn(lib: Lib, s: Store)
    ensures Reopen(lib, Torn(s, [])) == Reopen(lib, s)
  {
    if s.active in s.packs {
      assert s.packs[s.active] + [] == s.packs[s.active];
      assert s.packs[s.active := s.packs[s.active]] == s.packs;
    }
  }

  /**
   * The steps that lead there: a recorder's roll whose save fails, its release, a collection and
   * a restart come to exactly the state `AbandonedRollLosesPuts` is about.
   */
  lemma AbandonedRun(lib: Lib, a: Sys, t: nat, plain: Bytes)
    requires a.maint.Quiet? && a.mutex.None? && a.threads.Keys == {t} && a.threads[t].Ready?
    requires |plain| < U32_LIMIT && lib.hash(plain) !in a.store.index
    requires a.store.size >= lib.rollover && CanCreate(lib, a.store)
    ensures var reach := Reachable(a.snaps, a.store.manifests);
      Goes(lib, a, a.(threads := map[], store := Reopen(lib, Swept(CreatePack(lib, a.store), reach))))
  {
    hide Goes, Reachable, Swept, WithThread, Reopen;
    var refs := a.threads[t].refs;
    var rolled := WithThread(a, t, Rolled(refs, plain), CreatePack(lib, a.store));
    RollBegins(lib, a, t, plain);
    RollFails(lib, a, t, plain, refs, CreatePack(lib, a.store));
    var free := a.(threads := map[], store := CreatePack(lib, a.store));
    GoesOn(lib, a, rolled, free);
    CollectAndCrash(lib, free);
    GoesOn(lib, a, free, a.(threads := map[],
      store := Reopen(lib, Swept(CreatePack(lib, a.store), Reachable(a.snaps, a.store.manifests)))));
  }

  // ----- a repository of two texts ----------------------------------------------------------

  /** Packs are full at one byte; the text 8 has a digest of its own. */
  function TinyLib(): Lib {
    Lib(b => if b == [8] then Zeros(31) + [1] else Zeros(32), (level, b) => None, (b, n) => None,
        i => Zeros(15) + [i % 256], 1, s => [])
  }

  function Empty(): Sys {
    Sys(Roll(TinyLib(), Store(map[], map[], map[], None, Zeros(16), 0, 0)), map[], 1, map[], None, Quiet)
  }

  /** After a lone recorder has stored the text 7 and recorded nothing. */
  function OneText(): Sys {
    Empty().(threads := map[0 := Ready(map[Zeros(32) := Raw])],
             store := Put(TinyLib(), Empty().store, Zeros(32), [7], Off).0)
  }

  lemma TinyIds()
    ensures forall i, j :: 0 <= i < j < 256 ==> TinyLib().uuid(i) != TinyLib().uuid(j)
  {
    forall i, j | 0 <= i < j < 256 ensures TinyLib().uuid(i) != TinyLib().uuid(j) {
      assert TinyLib().uuid(i)[15] == i && TinyLib().uuid(j)[15] == j;
    }
  }

  lemma EmptyRests()
    ensures Init(TinyLib(), Empty()) && Lossless(TinyLib()) && StoreInv(TinyLib(), Empty().store)
    ensures Fresh(TinyLib(), Empty().store, 3)
  {
    TinyIds();
  }

  lemma LeaseTaken()
    ensures var b := At(Empty(), 0, Ready(map[]));
      Goes(TinyLib(), Empty(), b) && Inv(TinyLib(), b)
  {
    hide Goes, Inv, Lossless, Empty, Init;
    EmptyRests();
    EmptyFacts();
    InitInv(TinyLib(), Empty());
    var b := At(Empty(), 0, Ready(map[]));
    assert ThreadStep(TinyLib(), Empty(), b, Acquire(0));
    GoesOne(TinyLib(), Empty(), b, Acquire(0));
    GoesInv(TinyLib(), Empty(), b);
  }

  lemma OneTextStored()
    ensures Put(TinyLib(), Empty().store, Zeros(32), [7], Off).1.Ok?
    ensures StoreInv(TinyLib(), OneText().store) && Fresh(TinyLib(), OneText().store, 2)
  {
    hide Fresh, StoreInv, Put, Init, Lossless, Empty;
    EmptyRests();
    EmptyFacts();
    FreshFewer(TinyLib(), Empty().store, 3, 1);
    PutRefines(TinyLib(), Empty().store, Zeros(32), [7], Off);
    PutFresh(TinyLib(), Empty().store, Zeros(32), [7], Off, 2);
  }

  lemma OneTextReached()
    ensures Goes(TinyLib(), Empty(), OneText())
  {
    hide Goes, Inv, Fresh, StoreInv, Put, Init, Lossless, Empty, RecorderRun, Encode;
    var lib, a := TinyLib(), Empty();
    EmptyRests();
    EmptyFacts();
    LeaseTaken();
    OneTextStored();
    var b := At(a, 0, Ready(map[]));
    FreshFewer(lib, a.store, 3, 1);
    var states, steps := LonePut(lib, b, 0, [7], Off);
    RecorderGoes(lib, states, steps);
    assert map[0 := Ready(map[])][0 := Ready(map[Zeros(32) := Raw])] == map[0 := Ready(map[Zeros(32) := Raw])];
    assert states[|steps|] == OneText();
    GoesOn(lib, a, b, OneText());
  }

  lemma EmptyFacts()
    ensures Empty().threads == map[] && Empty().mutex.None? && Empty().maint.Quiet? && Empty().snaps == map[]
    ensures Empty().store.index == map[] && Empty().store.manifests == map[]
    ensures TinyLib().hash([7]) == Zeros(32) && Encode(TinyLib(), Off, [7]) == (Raw, [7])
  {
  }

  /** The one row points at the one byte of the pack that is active and full. */
  lemma OneTextFull()
    ensures var s := OneText().store;
      && s.index.Keys == {Zeros(32)} && Loc(s.index[Zeros(32)]).packId == s.active && s.size == 1
      && s.manifests == map[]
  {
    hide EncodeLocator, DecodeLocator;
    LocOfEncode(NextLocator(Empty().store, 1, 1, Raw));
  }

  /**
   * The failing input: in a repository of one-byte packs that has stored the text 7, a roll for
   * the text 8 is abandoned. A collection and a restart later no text whatever can be put.
   */
  lemma AbandonedRepository() returns (end: Sys)
    ensures Goes(TinyLib(), Empty(), end) && Init(TinyLib(), Empty())
    ensures end.store.active !in end.store.packs && end.store.index == map[]
    ensures forall h: Hash, plain: Bytes, comp: Compression ::
      Put(TinyLib(), end.store, h, plain, comp) == (end.store, Err(Io))
  {
    hide Goes, StoreInv, Fresh, Put, Init, Lossless, Empty, OneText, CreatePack, Reachable, Orphaned, Swept, Get, Inv;
    var lib := TinyLib();
    EmptyRests();
    OneTextReached();
    OneTextStored();
    OneTextFull();
    OneTextShape();
    var a := OneText();
    var reach := Reachable(a.snaps, a.store.manifests);
    NothingReached(a);
    assert Zeros(31) + [1] != Zeros(32) by { DigestsDiffer(); }
    NextIsNew(lib, a.store);
    AbandonedRun(lib, a, 0, [8]);
    end := a.(threads := map[], store := Reopen(lib, Swept(CreatePack(lib, a.store), reach)));
    GoesOn(lib, Empty(), a, end);
    assert Orphaned(a.store, reach) by { AllOrphaned(a.store, reach); }
    SweptToNothing(lib, a.store);
    FreshFewer(lib, a.store, 2, 1);
    forall h: Hash, plain: Bytes, comp: Compression
      ensures Put(lib, end.store, h, plain, comp) == (end.store, Err(Io)) && end.store.active !in end.store.packs
    {
      AbandonedRollLosesPuts(lib, a.store, reach, h, plain, comp);
    }
    AbandonedRollLosesPuts(lib, a.store, reach, Zeros(32), [7], Off);
  }

  lemma OneTextShape()
    ensures var a := OneText();
      a.maint.Quiet? && a.mutex.None? && a.threads.Keys == {0} && a.threads[0].Ready? && a.snaps == map[]
  {
    hide Put;
  }

  lemma NothingReached(a: Sys)
    requires a.snaps == map[] && a.store.manifests == map[]
    ensures Reachable(a.snaps, a.store.manifests) == {}
  {
  }

  lemma DigestsDiffer()
    ensures Zeros(31) + [1] != Zeros(32)
  {
    assert (Zeros(31) + [1])[31] == 1 && Zeros(32)[31] == 0;
  }

  lemma NextIsNew(lib: Lib, s: Store)
    requires Fresh(lib, s, 2)
    ensures CanCreate(lib, s)
  {
  }

  lemma AllOrphaned(s: Store, reach: set<Hash>)
    requires reach == {} && s.index.Keys == {Zeros(32)} && Loc(s.index[Zeros(32)]).packId == s.active
    ensures Orphaned(s, reach)
  {
    hide Loc;
  }

  lemma SweptToNothing(lib: Lib, s: Store)
    ensures Reopen(lib, Swept(CreatePack(lib, s), {})).index == map[]
  {
    hide DeadPacks;
  }
}
