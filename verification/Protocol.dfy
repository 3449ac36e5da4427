/**
 * The repository as a concurrent protocol: recorders under a shared lease, garbage collection
 * and compaction under the exclusive one, catalog edits, and process death at any point. Each
 * step is one thing another thread or a crash can fall between.
 */
module Protocol {
  import opened Base
  import opened Types
  import opened Sums
  import opened Locators
  import opened Library
  import opened StoreState
  import opened Compaction
  import opened Gc
  import opened Manifests
  import opened FileIo

  // ----- state ----------------------------------------------------------------

  /**
   * A thread that holds the shared lease. `refs` are the chunks its unfinished snapshot may
   * refer to, with the codec the store reported for each. From `Locked` to `Appended` the
   * thread also holds the active-pack mutex.
   */
  datatype Thread =
    | Ready(refs: map<Hash, Codec>)
    | Missed(refs: map<Hash, Codec>, plain: Bytes)
    | Locked(refs: map<Hash, Codec>, plain: Bytes)
    | NeedRoll(refs: map<Hash, Codec>, plain: Bytes)
    | Rolled(refs: map<Hash, Codec>, plain: Bytes)
    | Writing(refs: map<Hash, Codec>, plain: Bytes)
    | Appended(refs: map<Hash, Codec>, plain: Bytes, l: Locator)
    | Numbered(refs: map<Hash, Codec>, id: nat)

  /** What the holder of the exclusive lease, if any, is doing. */
  datatype Maint =
    | Quiet
    | Marking(compacting: bool)
    | Marked(compacting: bool, reach: set<Hash>)
    | Sweeping(compacting: bool, dead: set<Uuid>)
    | Rolling
    | RollSaving
    | Between(targets: set<Uuid>)
    | Draining(targets: set<Uuid>, pack: Uuid)
    | MoveRolled(targets: set<Uuid>, pack: Uuid, h: Hash)
    | MoveWriting(targets: set<Uuid>, pack: Uuid, h: Hash)
    | MoveAppended(targets: set<Uuid>, pack: Uuid, h: Hash, l: Locator)

  datatype Sys = Sys(
    store: Store, snaps: map<nat, Snapshot>, nextId: nat,
    threads: map<nat, Thread>, mutex: Option<nat>, maint: Maint)

  // ----- steps ----------------------------------------------------------------

  datatype Step =
    | Acquire(t: nat)
    | Release(t: nat)
    | Check(t: nat, plain: Bytes)
    | Touch(t: nat, h: Hash)
    | Lock(t: nat)
    | Recheck(t: nat)
    | Create(t: nat)
    | Save(t: nat)
    | Append(t: nat, comp: Compression)
    | Commit(t: nat)
    | Number(t: nat)
    | Record(t: nat, snap: Snapshot)
    | Edit(t: nat, snap: Snapshot)
    | Remove(t: nat, ids: set<nat>)
    | Ingest(key: string, pieces: seq<Bytes>, comp: Compression)
    | IngestStopped(pieces: seq<Bytes>, comp: Compression)
    | GcAcquire(compacting: bool)
    | GcMark
    | GcDropRows
    | GcDelete(p: Uuid)
    | GcDone
    | CompactCreate
    | CompactSave(targets: set<Uuid>)
    | PickPack(p: Uuid)
    | MoveStart(h: Hash)
    | MoveSave
    | MoveAppend
    | MoveCommit
    | PackDone
    | PackCancelled
    | CompactDone
    | Fail(t: nat)
    | MaintFail
    | Crash(torn: Bytes)

  function CodecOf(index: map<Hash, Bytes>, h: Hash): Codec
    requires h in index
  {
    Loc(index[h]).codec
  }

  function At(sys: Sys, t: nat, th: Thread): Sys {
    sys.(threads := sys.threads[t := th])
  }

  predicate CanCreate(lib: Lib, s: Store) {
    lib.uuid(s.drawn) !in s.packs
  }

  /** The refs a snapshot may carry: chunks of the recorder, under their stored codec. */
  predicate Backed(files: seq<FileEntry>, refs: map<Hash, Codec>) {
    forall f, c :: f in files && c in f.manifest.chunks ==> c.hash in refs && refs[c.hash] == c.codec
  }

  /** A thread takes or drops the shared lease, probes the index, or takes the mutex. */
  ghost predicate ThreadStep(lib: Lib, a: Sys, b: Sys, step: Step) {
    match step
    case Acquire(t) => a.maint.Quiet? && t !in a.threads && b == At(a, t, Ready(map[]))
    case Release(t) =>
      t in a.threads && (a.threads[t].Ready? || a.threads[t].Numbered?) && b == a.(threads := a.threads - {t})
    case Check(t, plain) =>
      t in a.threads && a.threads[t].Ready? && |plain| < U32_LIMIT &&
      var h, refs := lib.hash(plain), a.threads[t].refs;
      b == At(a, t, if h in a.store.index then Ready(refs[h := CodecOf(a.store.index, h)]) else Missed(refs, plain))
    case Touch(t, h) =>
      t in a.threads && a.threads[t].Ready? && h in a.store.index &&
      b == At(a, t, Ready(a.threads[t].refs[h := CodecOf(a.store.index, h)]))
    case Lock(t) =>
      t in a.threads && a.threads[t].Missed? && a.mutex.None? &&
      b == At(a, t, Locked(a.threads[t].refs, a.threads[t].plain)).(mutex := Some(t))
    case Recheck(t) =>
      t in a.threads && a.threads[t].Locked? &&
      var th := a.threads[t];
      var h := lib.hash(th.plain);
      if h in a.store.index then b == At(a, t, Ready(th.refs[h := CodecOf(a.store.index, h)])).(mutex := None)
      else if a.store.size >= lib.rollover then b == At(a, t, NeedRoll(th.refs, th.plain))
      else b == At(a, t, Writing(th.refs, th.plain))
    case _ => false
  }

  /** A leased thread changes the snapshot catalog. */
  ghost predicate CatalogStep(lib: Lib, a: Sys, b: Sys, step: Step) {
    match step
    case Number(t) =>
      t in a.threads && a.threads[t].Ready? &&
      b == At(a, t, Numbered(a.threads[t].refs, a.nextId)).(nextId := a.nextId + 1)
    case Record(t, snap) =>
      t in a.threads && a.threads[t].Numbered? && snap.id == a.threads[t].id &&
      Backed(snap.files, a.threads[t].refs) &&
      b == At(a, t, Ready(a.threads[t].refs)).(snaps := a.snaps[snap.id := snap])
    case Edit(t, snap) =>
      t in a.threads && a.threads[t].Ready? && snap.id in a.snaps && snap.files == a.snaps[snap.id].files &&
      b == a.(snaps := a.snaps[snap.id := snap])
    case Remove(t, ids) =>
      t in a.threads && a.threads[t].Ready? && b == a.(snaps := a.snaps - ids)
    case _ => false
  }

  /** The mutex holder changes the store: new pack, append, row commit. */
  ghost predicate PutStep(lib: Lib, a: Sys, b: Sys, step: Step) {
    match step
    case Create(t) =>
      t in a.threads && a.threads[t].NeedRoll? && CanCreate(lib, a.store) &&
      b == At(a, t, Rolled(a.threads[t].refs, a.threads[t].plain)).(store := CreatePack(lib, a.store))
    case Save(t) =>
      t in a.threads && a.threads[t].Rolled? &&
      b == At(a, t, Writing(a.threads[t].refs, a.threads[t].plain)).(store := SaveActive(a.store))
    case Append(t, comp) =>
      t in a.threads && a.threads[t].Writing? && a.store.active in a.store.packs && a.store.size < U64_LIMIT &&
      var th := a.threads[t];
      var (codec, stored) := Encode(lib, comp, th.plain);
      b == At(a, t, Appended(th.refs, th.plain, NextLocator(a.store, |th.plain|, |stored|, codec)))
           .(store := AppendTo(a.store, stored))
    case Commit(t) =>
      t in a.threads && a.threads[t].Appended? &&
      var th := a.threads[t];
      var h := lib.hash(th.plain);
      b == At(a, t, Ready(th.refs[h := th.l.codec])).(store := SetRow(a.store, h, th.l), mutex := None)
    case _ => false
  }

  /**
   * A delta-resume ingest, taken as one step, which leaves nothing but its chunks when one of
   * them is refused. It may also stop between two chunks, or before the manifest is written;
   * stopping inside a put is a recorder's failure, which changes the store in the same way.
   */
  ghost predicate IngestStep(lib: Lib, a: Sys, b: Sys, step: Step) {
    match step
    case Ingest(key, pieces, comp) =>
      a.maint.Quiet? && a.mutex.None? && Storable(pieces) && Fresh(lib, a.store, |pieces|) &&
      var r := IngestPieces(lib, a.store, pieces, comp);
      b == a.(store := Ingesting(lib, r, key, pieces))
    case IngestStopped(pieces, comp) =>
      a.maint.Quiet? && a.mutex.None? && Storable(pieces) && Fresh(lib, a.store, |pieces|) &&
      b == a.(store := IngestPieces(lib, a.store, pieces, comp).store)
    case _ => false
  }

  function Ingesting(lib: Lib, r: Ingested, key: string, pieces: seq<Bytes>): Store {
    match r.result
    case Err(_) => r.store
    case Ok(refs) => r.store.(manifests := r.store.manifests[key := ManifestFor(lib, Flatten(pieces), refs)])
  }

  /** Mark and sweep under the exclusive lease. */
  ghost predicate SweepStep(lib: Lib, a: Sys, b: Sys, step: Step) {
    match step
    case GcAcquire(compacting) =>
      a.maint.Quiet? && a.threads == map[] && b == a.(maint := Marking(compacting))
    case GcMark =>
      a.maint.Marking? && b == a.(maint := Marked(a.maint.compacting, Reachable(a.snaps, a.store.manifests)))
    case GcDropRows =>
      a.maint.Marked? &&
      b == a.(store := a.store.(index := Restrict(a.store.index, a.maint.reach)),
              maint := Sweeping(a.maint.compacting, DeadPacks(a.store, a.maint.reach)))
    case GcDelete(p) =>
      a.maint.Sweeping? && p in a.maint.dead &&
      b == a.(store := DeletePack(a.store, p), maint := a.maint.(dead := a.maint.dead - {p}))
    case GcDone =>
      a.maint.Sweeping? && a.maint.dead == {} &&
      b == a.(maint := if a.maint.compacting then Rolling else Quiet)
    case _ => false
  }

  /** Compaction between chunks: the first roll, the choice of packs, their deletion. */
  ghost predicate TargetStep(lib: Lib, a: Sys, b: Sys, step: Step) {
    match step
    case CompactCreate =>
      a.maint.Rolling? && CanCreate(lib, a.store) &&
      b == a.(store := CreatePack(lib, a.store), maint := RollSaving)
    case CompactSave(targets) =>
      a.maint.RollSaving? && targets <= a.store.packs.Keys - {a.store.active} &&
      b == a.(store := SaveActive(a.store), maint := Between(targets))
    case PickPack(p) =>
      a.maint.Between? && p in a.maint.targets && b == a.(maint := Draining(a.maint.targets - {p}, p))
    case PackDone =>
      a.maint.Draining? && RowsOf(a.store.index, a.maint.pack) == {} &&
      b == a.(store := DeletePack(a.store, a.maint.pack), maint := Between(a.maint.targets))
    case PackCancelled => a.maint.Draining? && b == a.(maint := Between(a.maint.targets))
    case CompactDone => a.maint.Between? && b == a.(maint := Quiet)
    case _ => false
  }

  /** Compaction of one chunk. */
  ghost predicate MoveStep(lib: Lib, a: Sys, b: Sys, step: Step) {
    match step
    case MoveStart(h) =>
      a.maint.Draining? && h in a.store.index && Loc(a.store.index[h]).packId == a.maint.pack &&
      if a.store.size >= lib.rollover then
        CanCreate(lib, a.store) &&
        b == a.(store := CreatePack(lib, a.store), maint := MoveRolled(a.maint.targets, a.maint.pack, h))
      else
        b == a.(maint := MoveWriting(a.maint.targets, a.maint.pack, h))
    case MoveSave =>
      a.maint.MoveRolled? &&
      b == a.(store := SaveActive(a.store), maint := MoveWriting(a.maint.targets, a.maint.pack, a.maint.h))
    case MoveAppend =>
      a.maint.MoveWriting? && a.maint.h in a.store.index &&
      a.store.active in a.store.packs && a.store.size < U64_LIMIT &&
      var l := Loc(a.store.index[a.maint.h]);
      Stored(a.store.packs, l).Some? &&
      b == a.(store := AppendTo(a.store, Stored(a.store.packs, l).value),
              maint := MoveAppended(a.maint.targets, a.maint.pack, a.maint.h,
                                    l.(packId := a.store.active, offset := a.store.size)))
    case MoveCommit =>
      a.maint.MoveAppended? &&
      b == a.(store := SetRow(a.store, a.maint.h, a.maint.l), maint := Draining(a.maint.targets, a.maint.pack))
    case _ => false
  }

  /**
   * An operation fails where it stands and the process goes on. A recorder gives the mutex back
   * and keeps its lease; the holder of the exclusive lease gives it up. Nothing is undone.
   */
  ghost predicate FailStep(lib: Lib, a: Sys, b: Sys, step: Step) {
    match step
    case Fail(t) =>
      t in a.threads && (a.threads[t].Missed? || Critical(a.threads[t])) &&
      b == At(a, t, Ready(a.threads[t].refs)).(mutex := if Critical(a.threads[t]) then None else a.mutex)
    case MaintFail => !a.maint.Quiet? && b == a.(maint := Quiet)
    case _ => false
  }

  /** Process death, with any bytes of an unfinished append on disk, and restart. */
  ghost predicate CrashStep(lib: Lib, a: Sys, b: Sys, step: Step) {
    match step
    case Crash(torn) =>
      b == a.(store := Reopen(lib, Torn(a.store, torn)), threads := map[], mutex := None, maint := Quiet)
    case _ => false
  }

  function Torn(s: Store, torn: Bytes): Store {
    if s.active in s.packs then AppendTo(s, torn) else s
  }

  ghost predicate Next(lib: Lib, a: Sys, b: Sys, step: Step) {
    || ThreadStep(lib, a, b, step)
    || CatalogStep(lib, a, b, step)
    || PutStep(lib, a, b, step)
    || IngestStep(lib, a, b, step)
    || SweepStep(lib, a, b, step)
    || TargetStep(lib, a, b, step)
    || MoveStep(lib, a, b, step)
    || FailStep(lib, a, b, step)
    || CrashStep(lib, a, b, step)
  }

  // ----- the invariant ---------------------------------------------------------

  ghost predicate CodecTrue(index: map<Hash, Bytes>, h: Hash, codec: Codec) {
    h in index && Loc(index[h]).codec == codec
  }

  ghost predicate RefsTrue(index: map<Hash, Bytes>, refs: map<Hash, Codec>) {
    forall h :: h in refs ==> CodecTrue(index, h, refs[h])
  }

  ghost predicate FilesTrue(index: map<Hash, Bytes>, files: seq<FileEntry>) {
    forall f, c :: f in files && c in f.manifest.chunks ==> CodecTrue(index, c.hash, c.codec)
  }

  ghost predicate ManifestTrue(index: map<Hash, Bytes>, m: Manifest) {
    forall c :: c in m.chunks ==> CodecTrue(index, c.hash, c.codec)
  }

  /** Every chunk of every committed snapshot and stored manifest is indexed, under the codec it records. */
  ghost predicate CatalogTrue(index: map<Hash, Bytes>, snaps: map<nat, Snapshot>, manifests: map<string, Manifest>) {
    && (forall id :: id in snaps ==> FilesTrue(index, snaps[id].files))
    && (forall key :: key in manifests ==> ManifestTrue(index, manifests[key]))
  }

  predicate Critical(th: Thread) {
    th.Locked? || th.NeedRoll? || th.Rolled? || th.Writing? || th.Appended?
  }

  /**
   * Sound rows, the in-memory size of the active pack as the disk has it (zero if the pack is
   * missing), and a saved id for a restart to go by. A failed roll leaves no more than this.
   */
  ghost predicate Usable(lib: Lib, s: Store) {
    && RowsInv(lib, s.index, s.packs)
    && s.size == SizeOf(s.packs, s.active)
    && s.saved.Some?
  }

  /** What the mutex holder knows. */
  ghost predicate ThreadOk(lib: Lib, s: Store, th: Thread) {
    && RefsTrue(s.index, th.refs)
    && (Critical(th) || th.Missed? ==> |th.plain| < U32_LIMIT)
    && (th.NeedRoll? || th.Rolled? || th.Writing? || th.Appended? ==> lib.hash(th.plain) !in s.index)
    && (th.Rolled? || th.Writing? ==> s.size < U64_LIMIT)
    && (th.Appended? ==>
          && LocOk(lib, s.packs, lib.hash(th.plain), th.l)
          && Plain(lib, s.packs, th.l) == Some(th.plain)
          && forall k :: k in s.index ==> Apart(Loc(s.index[k]), th.l))
  }

  ghost predicate ThreadsPart(lib: Lib, sys: Sys) {
    && (forall t :: t in sys.threads ==> ThreadOk(lib, sys.store, sys.threads[t]))
    && (forall t :: t in sys.threads && Critical(sys.threads[t]) ==> sys.mutex == Some(t))
    && (sys.mutex.Some? ==> sys.mutex.value in sys.threads && Critical(sys.threads[sys.mutex.value]))
  }

  ghost predicate IdsPart(sys: Sys) {
    && (forall id :: id in sys.snaps ==> id < sys.nextId)
    && (forall t :: t in sys.threads && sys.threads[t].Numbered? ==>
          sys.threads[t].id < sys.nextId && sys.threads[t].id !in sys.snaps)
    && (forall t, u ::
          (t in sys.threads && u in sys.threads && sys.threads[t].Numbered? && sys.threads[u].Numbered?
           && sys.threads[t].id == sys.threads[u].id) ==> t == u)
  }

  ghost predicate MaintPart(lib: Lib, sys: Sys) {
    var s, m := sys.store, sys.maint;
    && (!m.Quiet? ==> sys.threads == map[] && sys.mutex.None?)
    && (m.Marked? ==> m.reach == Reachable(sys.snaps, s.manifests))
    && (m.Sweeping? ==> s.active !in m.dead && forall h :: h in s.index ==> Loc(s.index[h]).packId !in m.dead)
    && (m.Between? || m.Draining? || m.MoveRolled? || m.MoveWriting? || m.MoveAppended? ==>
          m.targets <= s.packs.Keys && s.active !in m.targets)
    && (m.Draining? || m.MoveRolled? || m.MoveWriting? || m.MoveAppended? ==>
          m.pack in s.packs && m.pack != s.active && m.pack !in m.targets)
    && (m.MoveRolled? || m.MoveWriting? || m.MoveAppended? ==> m.h in s.index)
    && (m.MoveRolled? || m.MoveWriting? ==> s.size < U64_LIMIT)
    && (m.MoveAppended? ==>
          && LocOk(lib, s.packs, m.h, m.l)
          && Plain(lib, s.packs, m.l) == Plain(lib, s.packs, Loc(s.index[m.h]))
          && m.l.codec == Loc(s.index[m.h]).codec
          && forall k :: k in s.index && k != m.h ==> Apart(Loc(s.index[k]), m.l))
  }

  ghost predicate Inv(lib: Lib, sys: Sys) {
    && Usable(lib, sys.store)
    && CatalogTrue(sys.store.index, sys.snaps, sys.store.manifests)
    && ThreadsPart(lib, sys)
    && IdsPart(sys)
    && MaintPart(lib, sys)
  }

  /** A freshly opened, empty repository. */
  ghost predicate Init(lib: Lib, sys: Sys) {
    && CanCreate(lib, sys.store.(packs := map[]))
    && sys.store == Roll(lib, Store(map[], map[], map[], None, Zeros(16), 0, 0))
    && sys.snaps == map[] && sys.nextId == 1
    && sys.threads == map[] && sys.mutex.None? && sys.maint.Quiet?
  }

  lemma InitInv(lib: Lib, sys: Sys)
    requires Init(lib, sys)
    ensures Inv(lib, sys)
  {
  }

  // ----- what a step keeps ------------------------------------------------------

  /** The chunks no step may lose: referenced by the catalog or by an unfinished recorder. */
  ghost function Protected(sys: Sys): set<Hash> {
    Reachable(sys.snaps, sys.store.manifests) + (set t, h | t in sys.threads && h in sys.threads[t].refs :: h)
  }

  ghost function Contents(lib: Lib, sys: Sys): map<Hash, Bytes> {
    Abs(lib, sys.store.index, sys.store.packs)
  }

  /** Every protected chunk is still there with the same text. */
  ghost predicate Keeps(lib: Lib, a: Sys, b: Sys) {
    forall h :: h in Protected(a) ==>
      h in Contents(lib, a) && h in Contents(lib, b) && Contents(lib, b)[h] == Contents(lib, a)[h]
  }

  // ----- frames -------------------------------------------------------------------

  lemma ProtectedIndexed(lib: Lib, sys: Sys, h: Hash)
    requires Inv(lib, sys) && h in Protected(sys)
    ensures h in sys.store.index && h in Contents(lib, sys)
  {
    hide Loc, RowsInv, Abs, Plain, LocOk, MaintPart, IdsPart, ThreadOk;
    GetRefines(lib, sys.store.index, sys.store.packs, h);
    if h in Reachable(sys.snaps, sys.store.manifests) {
      ReachableIndexed(sys.store.index, sys.snaps, sys.store.manifests, h);
    } else {
      var t :| t in sys.threads && h in sys.threads[t].refs;
      assert RefsTrue(sys.store.index, sys.threads[t].refs) by {
        assert ThreadOk(lib, sys.store, sys.threads[t]);
        ThreadRefs(lib, sys.store, sys.threads[t]);
      }
    }
  }

  lemma ThreadRefs(lib: Lib, s: Store, th: Thread)
    requires ThreadOk(lib, s, th)
    ensures RefsTrue(s.index, th.refs)
  {
  }

  lemma ReachableIndexed(index: map<Hash, Bytes>, snaps: map<nat, Snapshot>, manifests: map<string, Manifest>, h: Hash)
    requires CatalogTrue(index, snaps, manifests) && h in Reachable(snaps, manifests)
    ensures h in index
  {
    hide Loc;
    if id :| id in snaps && h in FileHashes(snaps[id].files) {
      var f, c :| f in snaps[id].files && c in f.manifest.chunks && c.hash == h;
      assert FilesTrue(index, snaps[id].files);
    } else {
      var key :| key in manifests && h in ManifestHashes(manifests[key]);
      var c :| c in manifests[key].chunks && c.hash == h;
      assert ManifestTrue(index, manifests[key]);
    }
  }

  /** The catalog survives any change of the index that keeps the reachable rows' codecs. */
  lemma CatalogFrame(i: map<Hash, Bytes>, j: map<Hash, Bytes>, snaps: map<nat, Snapshot>,
                     manifests: map<string, Manifest>)
    requires CatalogTrue(i, snaps, manifests)
    requires forall h :: h in Reachable(snaps, manifests) && h in i ==> h in j && Loc(j[h]).codec == Loc(i[h]).codec
    ensures CatalogTrue(j, snaps, manifests)
  {
    hide Loc;
    forall id | id in snaps ensures FilesTrue(j, snaps[id].files) {
      forall f, c | f in snaps[id].files && c in f.manifest.chunks ensures CodecTrue(j, c.hash, c.codec) {
        assert FilesTrue(i, snaps[id].files);
        assert c.hash in FileHashes(snaps[id].files);
      }
    }
    forall key | key in manifests ensures ManifestTrue(j, manifests[key]) {
      forall c | c in manifests[key].chunks ensures CodecTrue(j, c.hash, c.codec) {
        assert ManifestTrue(i, manifests[key]);
        assert c.hash in ManifestHashes(manifests[key]);
      }
    }
  }

  lemma KeepsGrow(lib: Lib, a: Sys, b: Sys)
    requires Inv(lib, a)
    requires Grows(Contents(lib, a), Contents(lib, b))
    ensures Keeps(lib, a, b)
  {
    hide Inv, Contents, Protected;
    forall h | h in Protected(a)
      ensures h in Contents(lib, a) && h in Contents(lib, b) && Contents(lib, b)[h] == Contents(lib, a)[h]
    {
      ProtectedIndexed(lib, a, h);
    }
  }

  // ----- steps that leave the store alone ---------------------------------------------

  /** A step that leaves the store and the maintenance state alone. */
  lemma SameStore(lib: Lib, a: Sys, b: Sys)
    requires Inv(lib, a) && b.store == a.store
    ensures Usable(lib, b.store) && Keeps(lib, a, b)
  {
    hide Loc, RowsInv, Abs, CatalogTrue, ThreadsPart, IdsPart, MaintPart, Protected, Keeps;
    KeepsGrow(lib, a, b);
  }

  lemma SameMaint(lib: Lib, a: Sys, b: Sys)
    requires MaintPart(lib, a) && b.store == a.store && b.maint == a.maint && a.maint.Quiet?
    ensures MaintPart(lib, b)
  {
  }

  /** Only one thread changes, and the mutex changes hands only with it. */
  lemma SetThread(lib: Lib, a: Sys, b: Sys, t: nat, th: Thread)
    requires ThreadsPart(lib, a) && b.threads == a.threads[t := th]
    requires ThreadOk(lib, b.store, th)
    requires forall u :: u in a.threads && u != t ==> ThreadOk(lib, b.store, a.threads[u])
    requires a.mutex.None? || a.mutex == Some(t) || (!Critical(th) && b.mutex == a.mutex)
    requires a.mutex.None? || a.mutex == Some(t) ==> b.mutex == if Critical(th) then Some(t) else None
    ensures ThreadsPart(lib, b)
  {
    hide ThreadOk;
  }

  lemma OthersOk(lib: Lib, a: Sys, s: Store)
    requires ThreadsPart(lib, a) && s == a.store
    ensures forall u :: u in a.threads ==> ThreadOk(lib, s, a.threads[u])
  {
  }

  lemma RefsAdd(index: map<Hash, Bytes>, refs: map<Hash, Codec>, h: Hash)
    requires RefsTrue(index, refs) && h in index
    ensures RefsTrue(index, refs[h := CodecOf(index, h)])
  {
    hide Loc;
  }

  /** The new state of the thread a thread step changes. */
  lemma ThreadStepOwn(lib: Lib, s: Store, th: Thread, refs: map<Hash, Codec>, plain: Bytes, h: Hash)
    requires RefsTrue(s.index, refs) && |plain| < U32_LIMIT
    ensures ThreadOk(lib, s, Ready(refs)) && ThreadOk(lib, s, Missed(refs, plain))
      && ThreadOk(lib, s, Locked(refs, plain))
    ensures h in s.index ==> ThreadOk(lib, s, Ready(refs[h := CodecOf(s.index, h)]))
    ensures lib.hash(plain) !in s.index ==> ThreadOk(lib, s, NeedRoll(refs, plain))
    ensures lib.hash(plain) !in s.index && s.size < U64_LIMIT ==> ThreadOk(lib, s, Writing(refs, plain))
  {
    hide Loc;
    if h in s.index {
      RefsAdd(s.index, refs, h);
    }
  }

  lemma ThreadFacts(lib: Lib, sys: Sys, t: nat)
    requires ThreadsPart(lib, sys) && t in sys.threads
    ensures var th := sys.threads[t];
      && ThreadOk(lib, sys.store, th) && RefsTrue(sys.store.index, th.refs)
      && (Critical(th) || th.Missed? ==> |th.plain| < U32_LIMIT)
      && (Critical(th) <==> sys.mutex == Some(t))
  {
  }

  lemma AcquireThreads(lib: Lib, a: Sys, b: Sys, t: nat)
    requires Inv(lib, a) && ThreadStep(lib, a, b, Acquire(t))
    ensures ThreadsPart(lib, b)
  {
    hide Loc, Usable, CatalogTrue, IdsPart, MaintPart, ThreadOk, ThreadsPart, RefsTrue;
    OthersOk(lib, a, a.store);
    assert RefsTrue(a.store.index, map[]) by { NoRefs(a.store.index); }
    ThreadStepOwn(lib, a.store, Ready(map[]), map[], [], Zeros(32));
    NotHolder(lib, a, t);
    SetThread(lib, a, b, t, Ready(map[]));
  }

  lemma ReleaseThreads(lib: Lib, a: Sys, b: Sys, t: nat)
    requires Inv(lib, a) && ThreadStep(lib, a, b, Release(t))
    ensures ThreadsPart(lib, b)
  {
    hide Loc, Usable, CatalogTrue, IdsPart, MaintPart, ThreadOk, ThreadsPart;
    ThreadFacts(lib, a, t);
    DropThread(lib, a, b, t);
  }

  lemma ProbeThreads(lib: Lib, a: Sys, b: Sys, step: Step)
    requires Inv(lib, a) && ThreadStep(lib, a, b, step) && (step.Check? || step.Touch?)
    ensures ThreadsPart(lib, b)
  {
    hide Loc, Usable, CatalogTrue, IdsPart, MaintPart, ThreadOk, ThreadsPart, RefsTrue;
    var t := step.t;
    OthersOk(lib, a, a.store);
    ThreadFacts(lib, a, t);
    var plain, h := if step.Check? then step.plain else [], if step.Check? then lib.hash(step.plain) else step.h;
    ThreadStepOwn(lib, a.store, a.threads[t], a.threads[t].refs, plain, h);
    SetThread(lib, a, b, t, b.threads[t]);
  }

  lemma LockThreads(lib: Lib, a: Sys, b: Sys, step: Step)
    requires Inv(lib, a) && ThreadStep(lib, a, b, step) && (step.Lock? || step.Recheck?)
    ensures ThreadsPart(lib, b)
  {
    hide Loc, Usable, CatalogTrue, IdsPart, MaintPart, ThreadOk, ThreadsPart, RefsTrue;
    var t := step.t;
    OthersOk(lib, a, a.store);
    ThreadFacts(lib, a, t);
    var th := a.threads[t];
    ThreadStepOwn(lib, a.store, th, th.refs, th.plain, if step.Lock? then Zeros(32) else lib.hash(th.plain));
    SetThread(lib, a, b, t, b.threads[t]);
  }

  lemma ThreadStepThreads(lib: Lib, a: Sys, b: Sys, step: Step)
    requires Inv(lib, a) && ThreadStep(lib, a, b, step)
    ensures ThreadsPart(lib, b)
  {
    hide Inv, ThreadsPart;
    match step {
      case Acquire(t) => AcquireThreads(lib, a, b, t);
      case Release(t) => ReleaseThreads(lib, a, b, t);
      case Check(_, _) => ProbeThreads(lib, a, b, step);
      case Touch(_, _) => ProbeThreads(lib, a, b, step);
      case Lock(_) => LockThreads(lib, a, b, step);
      case Recheck(_) => LockThreads(lib, a, b, step);
    }
  }

  lemma NoRefs(index: map<Hash, Bytes>)
    ensures RefsTrue(index, map[])
  {
  }

  lemma NotHolder(lib: Lib, a: Sys, t: nat)
    requires ThreadsPart(lib, a) && t !in a.threads
    ensures a.mutex != Some(t)
  {
  }

  lemma DropThread(lib: Lib, a: Sys, b: Sys, t: nat)
    requires ThreadsPart(lib, a) && b.threads == a.threads - {t} && b.store == a.store && b.mutex == a.mutex
    requires a.mutex != Some(t)
    ensures ThreadsPart(lib, b)
  {
    hide ThreadOk;
  }

  lemma ThreadStepRest(lib: Lib, a: Sys, b: Sys, step: Step)
    requires Inv(lib, a) && ThreadStep(lib, a, b, step)
    ensures b.store == a.store && b.snaps == a.snaps && b.maint == a.maint && b.nextId == a.nextId
    ensures a.maint.Quiet?
  {
    hide Loc, Usable, CatalogTrue, ThreadOk, IdsPart;
  }

  lemma ThreadStepIds(lib: Lib, a: Sys, b: Sys, step: Step)
    requires Inv(lib, a) && ThreadStep(lib, a, b, step)
    ensures IdsPart(b)
  {
    hide Loc, Usable, CatalogTrue, ThreadsPart, MaintPart;
    forall t | t in b.threads && b.threads[t].Numbered? ensures t in a.threads && b.threads[t] == a.threads[t] {
    }
  }

  lemma ThreadStepInv(lib: Lib, a: Sys, b: Sys, step: Step)
    requires Inv(lib, a) && ThreadStep(lib, a, b, step)
    ensures Inv(lib, b) && Keeps(lib, a, b)
  {
    hide Usable, CatalogTrue, ThreadsPart, IdsPart, MaintPart, ThreadStep, Keeps;
    ThreadStepThreads(lib, a, b, step);
    ThreadStepRest(lib, a, b, step);
    ThreadStepIds(lib, a, b, step);
    SameStore(lib, a, b);
    SameMaint(lib, a, b);
  }

  // ----- the catalog ------------------------------------------------------------------

  lemma RefsOnly(lib: Lib, s: Store, refs: map<Hash, Codec>, id: nat)
    requires RefsTrue(s.index, refs)
    ensures ThreadOk(lib, s, Ready(refs)) && ThreadOk(lib, s, Numbered(refs, id))
  {
    hide Loc;
  }

  lemma SameThreads(lib: Lib, a: Sys, b: Sys)
    requires ThreadsPart(lib, a) && b.threads == a.threads && b.store == a.store && b.mutex == a.mutex
    ensures ThreadsPart(lib, b)
  {
    hide ThreadOk;
  }

  lemma CatalogStepThreads(lib: Lib, a: Sys, b: Sys, step: Step)
    requires Inv(lib, a) && CatalogStep(lib, a, b, step)
    ensures ThreadsPart(lib, b)
  {
    hide Loc, Usable, CatalogTrue, IdsPart, MaintPart, ThreadOk, ThreadsPart, RefsTrue, Backed;
    OthersOk(lib, a, a.store);
    ThreadFacts(lib, a, step.t);
    match step {
      case Number(t) =>
        RefsOnly(lib, a.store, a.threads[t].refs, a.nextId);
        SetThread(lib, a, b, t, b.threads[t]);
      case Record(t, snap) =>
        RefsOnly(lib, a.store, a.threads[t].refs, 0);
        SetThread(lib, a, b, t, b.threads[t]);
      case Edit(t, snap) => SameThreads(lib, a, b);
      case Remove(t, ids) => SameThreads(lib, a, b);
    }
  }

  lemma CatalogStepRest(lib: Lib, a: Sys, b: Sys, step: Step)
    requires Inv(lib, a) && CatalogStep(lib, a, b, step)
    ensures b.store == a.store && b.maint == a.maint && b.mutex == a.mutex
    ensures a.maint.Quiet?
  {
    hide Loc, Usable, CatalogTrue, IdsPart, ThreadOk, Backed;
  }

  lemma CatalogStepIds(lib: Lib, a: Sys, b: Sys, step: Step)
    requires Inv(lib, a) && CatalogStep(lib, a, b, step)
    ensures IdsPart(b)
  {
    hide Usable, CatalogTrue, ThreadsPart, MaintPart, Backed;
  }

  lemma CatalogStepCatalog(lib: Lib, a: Sys, b: Sys, step: Step)
    requires Inv(lib, a) && CatalogStep(lib, a, b, step)
    ensures CatalogTrue(a.store.index, b.snaps, a.store.manifests)
  {
    hide Loc, Usable, MaintPart, IdsPart, FilesTrue, ManifestTrue, ThreadOk;
    if step.Record? {
      ThreadFacts(lib, a, step.t);
      BackedIsTrue(a.store.index, step.snap.files, a.threads[step.t].refs);
    } else if step.Edit? {
      assert FilesTrue(a.store.index, step.snap.files);
    }
  }

  lemma BackedIsTrue(index: map<Hash, Bytes>, files: seq<FileEntry>, refs: map<Hash, Codec>)
    requires RefsTrue(index, refs) && Backed(files, refs)
    ensures FilesTrue(index, files)
  {
    hide Loc;
  }

  lemma CatalogStepInv(lib: Lib, a: Sys, b: Sys, step: Step)
    requires Inv(lib, a) && CatalogStep(lib, a, b, step)
    ensures Inv(lib, b) && Keeps(lib, a, b)
  {
    hide Usable, CatalogTrue, ThreadsPart, IdsPart, MaintPart, CatalogStep, Keeps;
    CatalogStepThreads(lib, a, b, step);
    CatalogStepRest(lib, a, b, step);
    CatalogStepIds(lib, a, b, step);
    CatalogStepCatalog(lib, a, b, step);
    SameStore(lib, a, b);
    SameMaint(lib, a, b);
  }

  // ----- storing a chunk ----------------------------------------------------------------

  /** Every row stays, under its codec. */
  ghost predicate CodecsGrow(i: map<Hash, Bytes>, j: map<Hash, Bytes>) {
    forall h :: h in i ==> h in j && Loc(j[h]).codec == Loc(i[h]).codec
  }

  lemma RefsFrame(i: map<Hash, Bytes>, j: map<Hash, Bytes>, refs: map<Hash, Codec>)
    requires RefsTrue(i, refs) && CodecsGrow(i, j)
    ensures RefsTrue(j, refs)
  {
    hide Loc;
    forall h | h in refs ensures CodecTrue(j, h, refs[h]) {
      assert CodecTrue(i, h, refs[h]);
    }
  }

  /** A thread outside the critical section relies on nothing but its refs. */
  lemma OutsiderOk(lib: Lib, s: Store, t: Store, th: Thread)
    requires ThreadOk(lib, s, th) && !Critical(th) && CodecsGrow(s.index, t.index)
    ensures ThreadOk(lib, t, th)
  {
    hide Loc, RefsTrue, CodecsGrow;
    RefsFrame(s.index, t.index, th.refs);
  }

  lemma OthersFrame(lib: Lib, a: Sys, t: nat, s: Store)
    requires ThreadsPart(lib, a) && a.mutex == Some(t) && CodecsGrow(a.store.index, s.index)
    ensures forall u :: u in a.threads && u != t ==> ThreadOk(lib, s, a.threads[u])
  {
    hide ThreadOk, CodecsGrow;
    forall u | u in a.threads && u != t ensures ThreadOk(lib, s, a.threads[u]) {
      OutsiderOk(lib, a.store, s, a.threads[u]);
    }
  }

  /** What a step of the mutex holder has to show. */
  lemma HolderStep(lib: Lib, a: Sys, b: Sys, t: nat, th: Thread)
    requires Inv(lib, a) && t in a.threads && Critical(a.threads[t]) && !th.Numbered?
    requires b == At(a, t, th).(store := b.store, mutex := if Critical(th) then Some(t) else None)
    requires Usable(lib, b.store) && ThreadOk(lib, b.store, th)
    requires CodecsGrow(a.store.index, b.store.index) && b.store.manifests == a.store.manifests
    requires Grows(Contents(lib, a), Contents(lib, b))
    ensures Inv(lib, b) && Keeps(lib, a, b)
  {
    hide Usable, ThreadOk, CatalogTrue, Contents, Keeps, Reachable, Grows;
    ThreadFacts(lib, a, t);
    OthersFrame(lib, a, t, b.store);
    SetThread(lib, a, b, t, th);
    CatalogFrame(a.store.index, b.store.index, a.snaps, a.store.manifests);
    KeepsGrow(lib, a, b);
    NotNumbered(a, b, t, th);
    assert a.maint.Quiet?;
  }

  lemma NotNumbered(a: Sys, b: Sys, t: nat, th: Thread)
    requires IdsPart(a) && !th.Numbered? && b.threads == a.threads[t := th] && b.snaps == a.snaps
      && b.nextId == a.nextId
    ensures IdsPart(b)
  {
    forall u | u in b.threads && b.threads[u].Numbered? ensures u in a.threads && b.threads[u] == a.threads[u] {
    }
  }

  lemma SameIndexCodecs(i: map<Hash, Bytes>)
    ensures CodecsGrow(i, i)
  {
  }

  lemma CreateFresh(lib: Lib, s: Store)
    requires CanCreate(lib, s)
    ensures Fresh(lib, s, 1)
  {
  }

  lemma CreateInv(lib: Lib, a: Sys, b: Sys, t: nat)
    requires Inv(lib, a) && PutStep(lib, a, b, Create(t))
    ensures Inv(lib, b) && Keeps(lib, a, b)
  {
    hide Loc, RowsInv, Abs, LocOk, Plain, CatalogTrue, IdsPart, MaintPart, Keeps, Extends, Fresh, RefsTrue;
    ThreadFacts(lib, a, t);
    CreateFresh(lib, a.store);
    CreatePackKeeps(lib, a.store);
    SameIndexCodecs(a.store.index);
    HolderStep(lib, a, b, t, b.threads[t]);
  }

  lemma SaveInv(lib: Lib, a: Sys, b: Sys, t: nat)
    requires Inv(lib, a) && PutStep(lib, a, b, Save(t))
    ensures Inv(lib, b) && Keeps(lib, a, b)
  {
    hide Loc, RowsInv, Abs, LocOk, Plain, CatalogTrue, IdsPart, MaintPart, Keeps, RefsTrue;
    ThreadFacts(lib, a, t);
    SameIndexCodecs(a.store.index);
    HolderStep(lib, a, b, t, b.threads[t]);
  }

  /** The appended thread's knowledge: its text is in place, apart from every row. */
  lemma AppendOwn(lib: Lib, s: Store, refs: map<Hash, Codec>, plain: Bytes, comp: Compression)
    requires Lossless(lib) && RowsInv(lib, s.index, s.packs) && ActiveInv(s) && s.size < U64_LIMIT
    requires ThreadOk(lib, s, Writing(refs, plain))
    ensures var (codec, stored) := Encode(lib, comp, plain);
      ThreadOk(lib, AppendTo(s, stored), Appended(refs, plain, NextLocator(s, |plain|, |stored|, codec)))
  {
    hide Loc, RowsInv, LocOk, Plain, Encode, Decode, RefsTrue, Lossless;
    EncodeRoundTrip(lib, comp, plain);
    var (codec, stored) := Encode(lib, comp, plain);
    AppendedLocator(lib, s, lib.hash(plain), plain, codec, stored);
    NextIsApart(lib, s, NextLocator(s, |plain|, |stored|, codec));
  }

  lemma AppendInv(lib: Lib, a: Sys, b: Sys, t: nat, comp: Compression)
    requires Lossless(lib) && Inv(lib, a) && PutStep(lib, a, b, Append(t, comp))
    ensures Inv(lib, b) && Keeps(lib, a, b)
  {
    hide Loc, RowsInv, Abs, CatalogTrue, IdsPart, MaintPart, Keeps, Extends, ThreadOk, Encode, Lossless, NextLocator;
    ThreadFacts(lib, a, t);
    var stored := Encode(lib, comp, a.threads[t].plain).1;
    AppendKeeps(lib, a.store, stored);
    AppendOwn(lib, a.store, a.threads[t].refs, a.threads[t].plain, comp);
    SameIndexCodecs(a.store.index);
    HolderStep(lib, a, b, t, b.threads[t]);
  }

  lemma CommitOwn(lib: Lib, s: Store, th: Thread)
    requires ThreadOk(lib, s, th) && th.Appended? && RowsInv(lib, s.index, s.packs)
    ensures var h := lib.hash(th.plain);
            var t := SetRow(s, h, th.l);
      && RowsInv(lib, t.index, t.packs)
      && Abs(lib, t.index, t.packs) == Abs(lib, s.index, s.packs)[h := th.plain]
      && h !in Abs(lib, s.index, s.packs)
      && CodecsGrow(s.index, t.index)
      && ThreadOk(lib, t, Ready(th.refs[h := th.l.codec]))
  {
    hide Loc, RowsInv, LocOk, Plain, EncodeLocator, DecodeLocator;
    var h := lib.hash(th.plain);
    var t := SetRow(s, h, th.l);
    SetRowKeeps(lib, s.index, s.packs, h, th.l);
    GetRefines(lib, s.index, s.packs, h);
    assert CodecsGrow(s.index, t.index);
    RefsFrame(s.index, t.index, th.refs);
    RefsAdd(t.index, th.refs, h);
  }

  lemma CommitInv(lib: Lib, a: Sys, b: Sys, t: nat)
    requires Inv(lib, a) && PutStep(lib, a, b, Commit(t))
    ensures Inv(lib, b) && Keeps(lib, a, b)
  {
    hide Loc, RowsInv, Abs, CatalogTrue, IdsPart, MaintPart, Keeps, ThreadOk, EncodeLocator, CodecsGrow;
    ThreadFacts(lib, a, t);
    CommitOwn(lib, a.store, a.threads[t]);
    HolderStep(lib, a, b, t, b.threads[t]);
  }

  lemma PutStepInv(lib: Lib, a: Sys, b: Sys, step: Step)
    requires Lossless(lib) && Inv(lib, a) && PutStep(lib, a, b, step)
    ensures Inv(lib, b) && Keeps(lib, a, b)
  {
    hide Inv, Keeps, Lossless;
    match step {
      case Create(t) => CreateInv(lib, a, b, t);
      case Save(t) => SaveInv(lib, a, b, t);
      case Append(t, comp) => AppendInv(lib, a, b, t, comp);
      case Commit(t) => CommitInv(lib, a, b, t);
    }
  }

  // ----- an uncontended ingest ------------------------------------------------------------

  ghost predicate ChunksTrue(index: map<Hash, Bytes>, refs: seq<ChunkRef>) {
    forall c :: c in refs ==> CodecTrue(index, c.hash, c.codec)
  }

  lemma RollUsable(lib: Lib, s: Store)
    requires Usable(lib, s) && Fresh(lib, s, 1)
    ensures var u := RollIfFull(lib, s);
      && Usable(lib, u) && u.size < U64_LIMIT && u.index == s.index && u.manifests == s.manifests
      && Abs(lib, u.index, u.packs) == Abs(lib, s.index, s.packs)
  {
    hide Loc, RowsInv, Abs, Extends;
    if s.size >= lib.rollover {
      CreatePackKeeps(lib, s);
    }
  }

  /** A put on any usable store, whether it succeeds or not. */
  lemma PutUsable(lib: Lib, s: Store, p: Bytes, comp: Compression)
    requires Lossless(lib) && Usable(lib, s) && Fresh(lib, s, 1) && |p| < U32_LIMIT
    ensures var (t, r) := Put(lib, s, lib.hash(p), p, comp);
      && Usable(lib, t) && t.manifests == s.manifests && CodecsGrow(s.index, t.index)
      && Grows(Abs(lib, s.index, s.packs), Abs(lib, t.index, t.packs))
      && Abs(lib, t.index, t.packs)
         == (if r.Ok? then Insert(Abs(lib, s.index, s.packs), lib.hash(p), p) else Abs(lib, s.index, s.packs))
      && (r.Ok? ==> CodecTrue(t.index, lib.hash(p), r.value))
  {
    hide RowsInv, Abs, Lossless, Fresh, Extends, EncodeLocator, Encode, NextLocator, AppendTo, SetRow, RollIfFull,
         DecodeLocator;
    var h := lib.hash(p);
    PutGrows(lib, s, h, p, comp);
    GrowsCodecs(s.index, Put(lib, s, h, p, comp).0.index);
    GetRefines(lib, s.index, s.packs, h);
    if h in s.index {
      IndexedDecodes(lib, s, h);
      GrowsSelf(Abs(lib, s.index, s.packs));
    } else {
      RollUsable(lib, s);
      var u := RollIfFull(lib, s);
      GrowsSelf(Abs(lib, s.index, s.packs));
      if u.active in u.packs {
        AppendRowRefines(lib, u, h, p, comp);
        GetRefines(lib, u.index, u.packs, h);
      }
    }
  }

  lemma IndexedDecodes(lib: Lib, s: Store, h: Hash)
    requires RowsInv(lib, s.index, s.packs) && h in s.index
    ensures Locate(s.index, h) == Ok(Some(Loc(s.index[h])))
  {
    hide DecodeLocator, LocOk, Apart;
    assert RowOk(lib, s.packs, h, s.index[h]);
  }

  /** The map after these texts are put in order, each unless its digest is there. */
  function InsertAll(lib: Lib, m: map<Hash, Bytes>, pieces: seq<Bytes>): map<Hash, Bytes>
    decreases |pieces|
  {
    if pieces == [] then m else InsertAll(lib, Insert(m, lib.hash(pieces[0]), pieces[0]), pieces[1..])
  }

  /** The texts of some first pieces were put; of all of them, if `all`. */
  ghost predicate PutUpTo(lib: Lib, m: map<Hash, Bytes>, n: map<Hash, Bytes>, pieces: seq<Bytes>, all: bool) {
    exists k :: 0 <= k <= |pieces| && n == InsertAll(lib, m, pieces[..k]) && (all ==> k == |pieces|)
  }

  lemma PutNone(lib: Lib, m: map<Hash, Bytes>, pieces: seq<Bytes>)
    ensures PutUpTo(lib, m, m, pieces, pieces == [])
  {
    assert m == InsertAll(lib, m, pieces[..0]);
  }

  lemma PutFirst(lib: Lib, m: map<Hash, Bytes>, n: map<Hash, Bytes>, pieces: seq<Bytes>, all: bool)
    requires pieces != [] && PutUpTo(lib, Insert(m, lib.hash(pieces[0]), pieces[0]), n, pieces[1..], all)
    ensures PutUpTo(lib, m, n, pieces, all)
  {
    var l := Insert(m, lib.hash(pieces[0]), pieces[0]);
    var k :| 0 <= k <= |pieces[1..]| && n == InsertAll(lib, l, pieces[1..][..k]) && (all ==> k == |pieces[1..]|);
    assert pieces[..k + 1][0] == pieces[0] && pieces[..k + 1][1..] == pieces[1..][..k];
    assert n == InsertAll(lib, m, pieces[..k + 1]);
  }

  lemma ChunksSnoc(i: map<Hash, Bytes>, j: map<Hash, Bytes>, refs: seq<ChunkRef>, c: ChunkRef)
    requires ChunksTrue(i, refs) && CodecsGrow(i, j) && CodecTrue(j, c.hash, c.codec)
    ensures ChunksTrue(j, refs + [c])
  {
    hide Loc;
  }

  lemma CodecsGrowChain(i: map<Hash, Bytes>, j: map<Hash, Bytes>, k: map<Hash, Bytes>)
    requires CodecsGrow(i, j) && CodecsGrow(j, k)
    ensures CodecsGrow(i, k)
  {
    hide Loc;
  }

  lemma {:induction false} PutAllUsable(lib: Lib, s: Store, pieces: seq<Bytes>, comp: Compression,
                                        stats: IngestStats, refs: seq<ChunkRef>, offset: nat)
    requires Lossless(lib) && Usable(lib, s) && Fresh(lib, s, |pieces|) && Storable(pieces) && ChunksTrue(s.index, refs)
    ensures var r := PutAll(lib, s, pieces, comp, stats, refs, offset);
      && Usable(lib, r.store) && r.store.manifests == s.manifests && CodecsGrow(s.index, r.store.index)
      && Grows(Abs(lib, s.index, s.packs), Abs(lib, r.store.index, r.store.packs))
      && PutUpTo(lib, Abs(lib, s.index, s.packs), Abs(lib, r.store.index, r.store.packs), pieces, r.result.Ok?)
      && (r.result.Ok? ==> ChunksTrue(r.store.index, r.result.value))
    decreases |pieces|
  {
    hide Put, Usable, Abs, Lossless, Fresh, Grows, CodecsGrow, ChunksTrue, CodecTrue, Count, PutUpTo, Insert;
    PutNone(lib, Abs(lib, s.index, s.packs), pieces);
    if pieces == [] {
      GrowsSelf(Abs(lib, s.index, s.packs));
      SameIndexCodecs(s.index);
    } else {
      var p := pieces[0];
      var (t, r) := Put(lib, s, lib.hash(p), p, comp);
      FreshFewer(lib, s, |pieces|, 1);
      PutUsable(lib, s, p, comp);
      PutFresh(lib, s, lib.hash(p), p, comp, |pieces| - 1);
      if r.Ok? {
        var c := ChunkRef(lib.hash(p), offset, |p|, r.value);
        ChunksSnoc(s.index, t.index, refs, c);
        PutAllUsable(lib, t, pieces[1..], comp, Count(stats, lib.hash(p) in s.index, |p|), refs + [c], offset + |p|);
        var end := PutAll(lib, s, pieces, comp, stats, refs, offset).store;
        PutFirst(lib, Abs(lib, s.index, s.packs), Abs(lib, end.index, end.packs), pieces,
                 PutAll(lib, s, pieces, comp, stats, refs, offset).result.Ok?);
        CodecsGrowChain(s.index, t.index, end.index);
        GrowsTransitive(Abs(lib, s.index, s.packs), Abs(lib, t.index, t.packs), Abs(lib, end.index, end.packs));
      }
    }
  }

  lemma GrowsCodecs(i: map<Hash, Bytes>, j: map<Hash, Bytes>)
    requires Grows(i, j)
    ensures CodecsGrow(i, j)
  {
  }

  lemma CatalogAddManifest(index: map<Hash, Bytes>, snaps: map<nat, Snapshot>, manifests: map<string, Manifest>,
                           key: string, m: Manifest)
    requires CatalogTrue(index, snaps, manifests) && ManifestTrue(index, m)
    ensures CatalogTrue(index, snaps, manifests[key := m])
  {
    hide FilesTrue, ManifestTrue;
  }

  lemma AllFrame(lib: Lib, a: Sys, b: Sys)
    requires ThreadsPart(lib, a) && a.mutex.None? && CodecsGrow(a.store.index, b.store.index)
    requires b.threads == a.threads && b.mutex == a.mutex
    ensures ThreadsPart(lib, b)
  {
    hide ThreadOk, CodecsGrow;
    forall u | u in a.threads ensures ThreadOk(lib, b.store, a.threads[u]) {
      OutsiderOk(lib, a.store, b.store, a.threads[u]);
    }
  }

  lemma IngestFacts(lib: Lib, s: Store, pieces: seq<Bytes>, comp: Compression)
    requires Lossless(lib) && Usable(lib, s) && Fresh(lib, s, |pieces|) && Storable(pieces)
    ensures var r := IngestPieces(lib, s, pieces, comp);
      && Usable(lib, r.store) && r.store.manifests == s.manifests
      && CodecsGrow(s.index, r.store.index)
      && Grows(Abs(lib, s.index, s.packs), Abs(lib, r.store.index, r.store.packs))
      && PutUpTo(lib, Abs(lib, s.index, s.packs), Abs(lib, r.store.index, r.store.packs), pieces, r.result.Ok?)
      && (r.result.Ok? ==> ManifestTrue(r.store.index, ManifestFor(lib, Flatten(pieces), r.result.value)))
  {
    hide RowsInv, Abs, PutAll, Lossless, Fresh, Grows, CodecsGrow, Flatten, CodecTrue, PutUpTo;
    PutAllUsable(lib, s, pieces, comp, NO_STATS.(chunksTotal := |pieces|), [], 0);
  }

  /** The store after an ingest step: with or without the manifest. */
  function AfterIngest(lib: Lib, s: Store, step: Step): Store
    requires step.Ingest? || step.IngestStopped?
  {
    var r := IngestPieces(lib, s, step.pieces, step.comp);
    if step.Ingest? then Ingesting(lib, r, step.key, step.pieces) else r.store
  }

  lemma IngestShape(lib: Lib, a: Sys, b: Sys, step: Step)
    requires IngestStep(lib, a, b, step)
    ensures (step.Ingest? || step.IngestStopped?) && a.maint.Quiet? && a.mutex.None?
    ensures Storable(step.pieces) && Fresh(lib, a.store, |step.pieces|)
    ensures b == a.(store := AfterIngest(lib, a.store, step))
    ensures var r := IngestPieces(lib, a.store, step.pieces, step.comp);
      && b.store.index == r.store.index && b.store.packs == r.store.packs && b.store.saved == r.store.saved
      && b.store.active == r.store.active && b.store.size == r.store.size
      && (b.store.manifests == r.store.manifests ||
          (step.Ingest? && r.result.Ok? &&
           b.store.manifests == r.store.manifests[step.key := ManifestFor(lib, Flatten(step.pieces), r.result.value)]))
  {
    hide IngestPieces, Fresh, Flatten;
  }

  lemma IngestStepInv(lib: Lib, a: Sys, b: Sys, step: Step)
    requires Lossless(lib) && Inv(lib, a) && IngestStep(lib, a, b, step)
    ensures Inv(lib, b) && Keeps(lib, a, b)
  {
    hide RowsInv, Abs, CatalogTrue, IngestPieces, Lossless, Keeps, Fresh, Reachable, Grows, CodecsGrow,
         ThreadsPart, IngestStep, ManifestTrue, Flatten, AfterIngest, PutUpTo;
    IngestShape(lib, a, b, step);
    IngestFacts(lib, a.store, step.pieces, step.comp);
    AllFrame(lib, a, b);
    var r := IngestPieces(lib, a.store, step.pieces, step.comp);
    CodecsGrowFacts(a, r.store.index);
    CatalogFrame(a.store.index, r.store.index, a.snaps, a.store.manifests);
    if step.Ingest? && r.result.Ok? {
      CatalogAddManifest(r.store.index, a.snaps, a.store.manifests, step.key,
                         ManifestFor(lib, Flatten(step.pieces), r.result.value));
    }
    KeepsGrow(lib, a, b);
  }

  lemma CodecsGrowFacts(a: Sys, j: map<Hash, Bytes>)
    requires CodecsGrow(a.store.index, j)
    ensures forall h :: h in Reachable(a.snaps, a.store.manifests) && h in a.store.index ==>
      h in j && Loc(j[h]).codec == Loc(a.store.index[h]).codec
  {
  }

  // ----- sweeping -------------------------------------------------------------------------

  lemma NoThreads(lib: Lib, a: Sys)
    requires a.threads == map[] && a.mutex.None?
    ensures ThreadsPart(lib, a)
  {
  }

  lemma NoThreadIds(a: Sys)
    requires forall id :: id in a.snaps ==> id < a.nextId
    requires a.threads == map[]
    ensures IdsPart(a)
  {
  }

  lemma Alone(lib: Lib, a: Sys)
    requires Inv(lib, a) && !a.maint.Quiet?
    ensures a.threads == map[] && a.mutex.None?
    ensures Protected(a) == Reachable(a.snaps, a.store.manifests)
  {
    hide Usable, CatalogTrue, ThreadsPart, Reachable;
  }

  /** What a step of the exclusive-lease holder has to show. */
  lemma HolderOfLease(lib: Lib, a: Sys, b: Sys)
    requires Inv(lib, a)
    requires b == a.(store := b.store, maint := b.maint) && a.threads == map[] && a.mutex.None?
    requires Usable(lib, b.store) && MaintPart(lib, b) && b.store.manifests == a.store.manifests
    requires forall h :: h in Reachable(a.snaps, a.store.manifests) && h in a.store.index ==>
      h in b.store.index && Loc(b.store.index[h]).codec == Loc(a.store.index[h]).codec
    requires forall h :: h in Reachable(a.snaps, a.store.manifests) && h in Contents(lib, a) ==>
      h in Contents(lib, b) && Contents(lib, b)[h] == Contents(lib, a)[h]
    ensures Inv(lib, b) && Keeps(lib, a, b)
  {
    hide Loc, Usable, MaintPart, CatalogTrue, Contents, Reachable;
    NoThreads(lib, b);
    NoThreadIds(b);
    CatalogFrame(a.store.index, b.store.index, a.snaps, a.store.manifests);
    assert Protected(a) == Reachable(a.snaps, a.store.manifests);
    forall h | h in Protected(a)
      ensures h in Contents(lib, a) && h in Contents(lib, b) && Contents(lib, b)[h] == Contents(lib, a)[h]
    {
      ProtectedIndexed(lib, a, h);
    }
  }

  lemma DropRowsInv(lib: Lib, a: Sys, b: Sys)
    requires Inv(lib, a) && SweepStep(lib, a, b, GcDropRows)
    ensures Inv(lib, b) && Keeps(lib, a, b)
  {
    hide Loc, RowsInv, CatalogTrue, Plain, Keeps, Reachable;
    Alone(lib, a);
    var reach := a.maint.reach;
    assert b.store.index == a.store.index - (a.store.index.Keys - reach);
    DropRowsKeeps(lib, a.store.index, a.store.packs, a.store.index.Keys - reach);
    SweptRows(a.store, reach);
    HolderOfLease(lib, a, b);
  }

  lemma SweptRows(s: Store, reach: set<Hash>)
    ensures s.active !in DeadPacks(s, reach)
    ensures var i := Restrict(s.index, reach);
      forall h :: h in i ==> Loc(i[h]).packId !in DeadPacks(s, reach)
  {
    hide Loc;
    var i := Restrict(s.index, reach);
    forall h | h in i ensures Loc(i[h]).packId !in DeadPacks(s, reach) {
      assert Loc(s.index[h]).packId in LivePacks(s.index, reach);
      LiveIsNotDead(s, reach, Loc(s.index[h]).packId);
    }
  }

  lemma GcDeleteInv(lib: Lib, a: Sys, b: Sys, p: Uuid)
    requires Inv(lib, a) && SweepStep(lib, a, b, GcDelete(p))
    ensures Inv(lib, b) && Keeps(lib, a, b)
  {
    hide Loc, RowsInv, CatalogTrue, Abs, Keeps, Reachable;
    Alone(lib, a);
    DeletePackKeeps(lib, a.store, p);
    HolderOfLease(lib, a, b);
  }

  lemma SweepStepInv(lib: Lib, a: Sys, b: Sys, step: Step)
    requires Inv(lib, a) && SweepStep(lib, a, b, step)
    ensures Inv(lib, b) && Keeps(lib, a, b)
  {
    hide Loc, RowsInv, CatalogTrue, Abs, Keeps, Reachable, DeadPacks, Restrict, DeletePack;
    match step {
      case GcAcquire(_) => HolderOfLease(lib, a, b) by { GcAcquireFree(lib, a, b, step); }
      case GcMark => Alone(lib, a); HolderOfLease(lib, a, b);
      case GcDropRows => DropRowsInv(lib, a, b);
      case GcDelete(p) => GcDeleteInv(lib, a, b, p);
      case GcDone => Alone(lib, a); HolderOfLease(lib, a, b);
    }
  }

  lemma GcAcquireFree(lib: Lib, a: Sys, b: Sys, step: Step)
    requires Inv(lib, a) && SweepStep(lib, a, b, step) && step.GcAcquire?
    ensures a.threads == map[] && a.mutex.None?
  {
    hide Usable, CatalogTrue, MaintPart;
  }

  // ----- compacting ------------------------------------------------------------------------

  lemma TargetStepInv(lib: Lib, a: Sys, b: Sys, step: Step)
    requires Inv(lib, a) && TargetStep(lib, a, b, step)
    ensures Inv(lib, b) && Keeps(lib, a, b)
  {
    hide Loc, RowsInv, CatalogTrue, Abs, Keeps, Reachable, RowsOf, DeletePack, CreatePack;
    Alone(lib, a);
    match step {
      case CompactCreate => CompactCreateInv(lib, a, b);
      case CompactSave(targets) => HolderOfLease(lib, a, b);
      case PickPack(p) => HolderOfLease(lib, a, b);
      case PackDone => PackDoneInv(lib, a, b);
      case PackCancelled => HolderOfLease(lib, a, b);
      case CompactDone => HolderOfLease(lib, a, b);
    }
  }

  lemma CompactCreateInv(lib: Lib, a: Sys, b: Sys)
    requires Inv(lib, a) && TargetStep(lib, a, b, CompactCreate)
    ensures Inv(lib, b) && Keeps(lib, a, b)
  {
    hide Loc, RowsInv, CatalogTrue, Abs, Keeps, Reachable, Extends, Fresh;
    Alone(lib, a);
    CreateFresh(lib, a.store);
    CreatePackKeeps(lib, a.store);
    HolderOfLease(lib, a, b);
  }

  lemma PackDoneInv(lib: Lib, a: Sys, b: Sys)
    requires Inv(lib, a) && TargetStep(lib, a, b, PackDone)
    ensures Inv(lib, b) && Keeps(lib, a, b)
  {
    hide Loc, RowsInv, CatalogTrue, Abs, Keeps, Reachable, RowsOf;
    Alone(lib, a);
    NoRowsIn(a.store.index, a.maint.pack);
    DeletePackKeeps(lib, a.store, a.maint.pack);
    HolderOfLease(lib, a, b);
  }

  lemma MoveStartInv(lib: Lib, a: Sys, b: Sys, h: Hash)
    requires Inv(lib, a) && MoveStep(lib, a, b, MoveStart(h))
    ensures Inv(lib, b) && Keeps(lib, a, b)
  {
    hide Loc, RowsInv, CatalogTrue, Abs, Keeps, Reachable, Extends, Fresh;
    Alone(lib, a);
    if a.store.size >= lib.rollover {
      CreateFresh(lib, a.store);
      CreatePackKeeps(lib, a.store);
    }
    HolderOfLease(lib, a, b);
  }

  lemma MoveSaveInv(lib: Lib, a: Sys, b: Sys)
    requires Inv(lib, a) && MoveStep(lib, a, b, MoveSave)
    ensures Inv(lib, b) && Keeps(lib, a, b)
  {
    hide Loc, RowsInv, CatalogTrue, Abs, Keeps, Reachable;
    Alone(lib, a);
    HolderOfLease(lib, a, b);
  }

  /** The copied bytes read as the same text, apart from every other row. */
  lemma CopyOwn(lib: Lib, s: Store, h: Hash)
    requires RowsInv(lib, s.index, s.packs) && ActiveInv(s) && s.size < U64_LIMIT && h in s.index
    ensures var l := Loc(s.index[h]);
      && Stored(s.packs, l).Some?
      && var t := AppendTo(s, Stored(s.packs, l).value);
         var n := l.(packId := s.active, offset := s.size);
         && LocOk(lib, t.packs, h, n)
         && Plain(lib, t.packs, n) == Plain(lib, t.packs, l)
         && forall k :: k in s.index ==> Apart(Loc(s.index[k]), n)
  {
    hide DecodeLocator, Loc, Stored, Decode, RowsInv, Apart, Plain;
    var l := Loc(s.index[h]);
    assert LocOk(lib, s.packs, h, l) by { RowIsOk(lib, s, h); }
    StoredOfOk(lib, s.packs, h, l);
    var stored := Stored(s.packs, l).value;
    AppendedAt(lib, s, h, l, stored);
    LocFrame(lib, s.packs, AppendTo(s, stored).packs, h, l);
    NextIsApart(lib, s, l.(packId := s.active, offset := s.size));
  }

  lemma RowIsOk(lib: Lib, s: Store, h: Hash)
    requires RowsInv(lib, s.index, s.packs) && h in s.index
    ensures LocOk(lib, s.packs, h, Loc(s.index[h]))
  {
    hide LocOk, Loc;
    assert RowOk(lib, s.packs, h, s.index[h]);
  }

  lemma MoveAppendInv(lib: Lib, a: Sys, b: Sys)
    requires Inv(lib, a) && MoveStep(lib, a, b, MoveAppend)
    ensures Inv(lib, b) && Keeps(lib, a, b)
  {
    hide Loc, RowsInv, CatalogTrue, Abs, Keeps, Reachable, Extends, LocOk, Plain, Stored, Apart;
    Alone(lib, a);
    CopyOwn(lib, a.store, a.maint.h);
    AppendKeeps(lib, a.store, Stored(a.store.packs, Loc(a.store.index[a.maint.h])).value);
    HolderOfLease(lib, a, b);
  }

  lemma MoveCommitRows(lib: Lib, s: Store, h: Hash, l: Locator)
    requires RowsInv(lib, s.index, s.packs) && h in s.index
    requires LocOk(lib, s.packs, h, l)
    requires Plain(lib, s.packs, l) == Plain(lib, s.packs, Loc(s.index[h])) && l.codec == Loc(s.index[h]).codec
    requires forall k :: k in s.index && k != h ==> Apart(Loc(s.index[k]), l)
    ensures var t := SetRow(s, h, l);
      && RowsInv(lib, t.index, t.packs)
      && Abs(lib, t.index, t.packs) == Abs(lib, s.index, s.packs)
      && CodecsGrow(s.index, t.index)
  {
    hide DecodeLocator, EncodeLocator, Loc, RowsInv, Apart, Plain, LocOk;
    SetRowKeeps(lib, s.index, s.packs, h, l);
    RowIsOk(lib, s, h);
    GetRefines(lib, s.index, s.packs, h);
    assert Abs(lib, s.index, s.packs)[h] == Plain(lib, s.packs, l).value;
  }

  lemma MoveCommitInv(lib: Lib, a: Sys, b: Sys)
    requires Inv(lib, a) && MoveStep(lib, a, b, MoveCommit)
    ensures Inv(lib, b) && Keeps(lib, a, b)
  {
    hide Loc, RowsInv, CatalogTrue, Abs, Keeps, Reachable, LocOk, Plain, Apart, EncodeLocator;
    Alone(lib, a);
    MoveCommitRows(lib, a.store, a.maint.h, a.maint.l);
    HolderOfLease(lib, a, b);
  }

  lemma MoveStepInv(lib: Lib, a: Sys, b: Sys, step: Step)
    requires Inv(lib, a) && MoveStep(lib, a, b, step)
    ensures Inv(lib, b) && Keeps(lib, a, b)
  {
    hide Inv, Keeps;
    match step {
      case MoveStart(h) => MoveStartInv(lib, a, b, h);
      case MoveSave => MoveSaveInv(lib, a, b);
      case MoveAppend => MoveAppendInv(lib, a, b);
      case MoveCommit => MoveCommitInv(lib, a, b);
    }
  }

  // ----- process death --------------------------------------------------------------------

  lemma CrashInv(lib: Lib, a: Sys, b: Sys, step: Step)
    requires Inv(lib, a) && CrashStep(lib, a, b, step)
    ensures Inv(lib, b) && Keeps(lib, a, b)
  {
    hide Loc, RowsInv, CatalogTrue, Abs, Keeps, Reachable, Extends, MaintPart, ThreadsPart;
    TornKeeps(lib, a, step.torn);
    NoThreads(lib, b);
    NoThreadIds(b);
    assert MaintPart(lib, b) by { RestMaint(lib, b); }
    KeepsGrow(lib, a, b);
  }

  lemma TornKeeps(lib: Lib, a: Sys, torn: Bytes)
    requires Usable(lib, a.store)
    ensures var s := Torn(a.store, torn);
      && RowsInv(lib, s.index, s.packs) && s.saved == a.store.saved && s.index == a.store.index
      && Abs(lib, s.index, s.packs) == Abs(lib, a.store.index, a.store.packs)
  {
    hide Loc, RowsInv, Abs, Extends;
    if a.store.active in a.store.packs {
      AppendKeeps(lib, a.store, torn);
    }
  }

  lemma RestMaint(lib: Lib, b: Sys)
    requires b.maint.Quiet?
    ensures MaintPart(lib, b)
  {
  }

  // ----- failure in place -----------------------------------------------------------------

  lemma FailInv(lib: Lib, a: Sys, b: Sys, step: Step)
    requires Inv(lib, a) && FailStep(lib, a, b, step) && step.Fail?
    ensures Inv(lib, b) && Keeps(lib, a, b)
  {
    hide Loc, Usable, CatalogTrue, Keeps, Reachable, ThreadOk, ThreadsPart, MaintPart, IdsPart;
    var t := step.t;
    ThreadFacts(lib, a, t);
    OthersOk(lib, a, a.store);
    FailOwn(lib, a.store, a.threads[t]);
    FailThreads(lib, a, b, t);
    NotNumbered(a, b, t, b.threads[t]);
    assert MaintPart(lib, b) by { FailMaint(lib, a, b, t); }
    SameStore(lib, a, b);
  }

  lemma FailOwn(lib: Lib, s: Store, th: Thread)
    requires ThreadOk(lib, s, th)
    ensures ThreadOk(lib, s, Ready(th.refs))
  {
    hide RefsTrue;
  }

  lemma FailThreads(lib: Lib, a: Sys, b: Sys, t: nat)
    requires Inv(lib, a) && FailStep(lib, a, b, Fail(t)) && ThreadOk(lib, a.store, Ready(a.threads[t].refs))
    ensures ThreadsPart(lib, b)
  {
    hide Loc, Usable, CatalogTrue, ThreadOk, MaintPart, IdsPart;
  }

  lemma FailMaint(lib: Lib, a: Sys, b: Sys, t: nat)
    requires Inv(lib, a) && FailStep(lib, a, b, Fail(t))
    ensures MaintPart(lib, b)
  {
    hide Loc, Usable, CatalogTrue, ThreadsPart, IdsPart;
  }

  lemma MaintFailInv(lib: Lib, a: Sys, b: Sys)
    requires Inv(lib, a) && FailStep(lib, a, b, MaintFail)
    ensures Inv(lib, b) && Keeps(lib, a, b)
  {
    hide Loc, RowsInv, CatalogTrue, Abs, Keeps, Reachable, LocOk, Plain, Apart;
    Alone(lib, a);
    HolderOfLease(lib, a, b);
  }

  lemma FailStepInv(lib: Lib, a: Sys, b: Sys, step: Step)
    requires Inv(lib, a) && FailStep(lib, a, b, step)
    ensures Inv(lib, b) && Keeps(lib, a, b)
  {
    hide Inv, Keeps;
    match step {
      case Fail(t) => FailInv(lib, a, b, step);
      case MaintFail => MaintFailInv(lib, a, b);
    }
  }

  // ----- safety -----------------------------------------------------------------------------

  /** Every step keeps the invariant, and loses or alters no protected chunk. */
  lemma StepSafe(lib: Lib, a: Sys, b: Sys, step: Step)
    requires Lossless(lib) && Inv(lib, a) && Next(lib, a, b, step)
    ensures Inv(lib, b) && Keeps(lib, a, b)
  {
    hide Inv, Keeps, Lossless, ThreadStep, CatalogStep, PutStep, IngestStep, SweepStep, TargetStep, MoveStep,
         FailStep, CrashStep;
    if ThreadStep(lib, a, b, step) { ThreadStepInv(lib, a, b, step); }
    else if CatalogStep(lib, a, b, step) { CatalogStepInv(lib, a, b, step); }
    else if PutStep(lib, a, b, step) { PutStepInv(lib, a, b, step); }
    else if IngestStep(lib, a, b, step) { IngestStepInv(lib, a, b, step); }
    else if SweepStep(lib, a, b, step) { SweepStepInv(lib, a, b, step); }
    else if TargetStep(lib, a, b, step) { TargetStepInv(lib, a, b, step); }
    else if MoveStep(lib, a, b, step) { MoveStepInv(lib, a, b, step); }
    else if FailStep(lib, a, b, step) { FailStepInv(lib, a, b, step); }
    else { CrashInv(lib, a, b, step); }
  }

  /** A run: consecutive states are related by the steps between them. */
  ghost predicate Run(lib: Lib, states: seq<Sys>, steps: seq<Step>) {
    && |states| == |steps| + 1
    && forall i :: 0 <= i < |steps| ==> Next(lib, states[i], states[i + 1], steps[i])
  }

  lemma {:induction false} RunInv(lib: Lib, states: seq<Sys>, steps: seq<Step>, i: nat)
    requires Lossless(lib) && Run(lib, states, steps) && Inv(lib, states[0]) && i < |states|
    ensures Inv(lib, states[i])
  {
    hide Inv, Next, Lossless, Keeps;
    if i > 0 {
      RunInv(lib, states, steps, i - 1);
      StepSafe(lib, states[i - 1], states[i], steps[i - 1]);
    }
  }

  /**
   * In every state of every run from an empty repository, a chunk that a committed snapshot,
   * a stored manifest or an unfinished recorder refers to is indexed, and `get` returns a text
   * with that digest.
   */
  lemma ReferencedChunksReadable(lib: Lib, states: seq<Sys>, steps: seq<Step>, i: nat, h: Hash)
    requires Lossless(lib) && Run(lib, states, steps) && Init(lib, states[0]) && i < |states|
    requires h in Protected(states[i])
    ensures var s := states[i].store;
      && h in s.index && h in Contents(lib, states[i])
      && Get(lib, s.index, s.packs, h) == Ok(Some(Contents(lib, states[i])[h]))
      && lib.hash(Contents(lib, states[i])[h]) == h
  {
    hide Next, Lossless, Loc, Abs, Get, RowsInv, Protected, CatalogTrue, ThreadsPart, IdsPart, MaintPart;
    InitInv(lib, states[0]);
    RunInv(lib, states, steps, i);
    ProtectedIndexed(lib, states[i], h);
    GetRefines(lib, states[i].store.index, states[i].store.packs, h);
  }
}
