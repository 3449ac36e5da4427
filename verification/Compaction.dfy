/**
 * Compaction: live chunks are appended to the active pack and their rows repointed, one
 * commit per chunk; a drained pack is deleted.
 */
module Compaction {
  import opened Base
  import opened Locators
  import opened Library
  import opened StoreState

  type Row = (Hash, Locator)

  /** `rows` is a listing, in some order, of exactly the index rows that satisfy `keep`. */
  ghost predicate Lists(rows: seq<Row>, index: map<Hash, Bytes>, keep: set<Hash>) {
    && (forall i :: 0 <= i < |rows| ==> rows[i].0 in keep && rows[i].0 in index && rows[i].1 == Loc(index[rows[i].0]))
    && (forall i, j :: 0 <= i < j < |rows| ==> rows[i].0 != rows[j].0)
    && (forall h :: h in keep && h in index ==> exists i :: 0 <= i < |rows| && rows[i].0 == h)
  }

  function RowsOf(index: map<Hash, Bytes>, id: Uuid): set<Hash> {
    set h | h in index && Loc(index[h]).packId == id
  }

  /** Copy one chunk's stored bytes verbatim to the active pack and repoint its row. */
  function Move(lib: Lib, s: Store, h: Hash, l: Locator): Result<Store> {
    match Stored(s.packs, l)
    case None => Err(MissingChunk(h))
    case Some(b) =>
      if |b| != l.storedLen then Err(CorruptChunk(h))
      else
        var t := RollIfFull(lib, s);
        if t.active !in t.packs then Err(Io)
        else Ok(SetRow(AppendTo(t, b), h, l.(packId := t.active, offset := t.size)))
  }

  datatype Ending = Finished | Cancelled | Failed(error: StoreError)

  datatype Drained = Drained(store: Store, moved: nat, polls: nat, ending: Ending)

  /** The loop of `compact_pack`; `cancel(i)` is the answer to the i-th poll. */
  function Drain(lib: Lib, s: Store, live: seq<Row>, cancel: nat -> bool, polls: nat): Drained
    decreases |live|
  {
    if live == [] then Drained(s, 0, polls, Finished)
    else if cancel(polls) then Drained(s, 0, polls + 1, Cancelled)
    else
      match Move(lib, s, live[0].0, live[0].1)
      case Err(e) => Drained(s, 0, polls + 1, Failed(e))
      case Ok(t) =>
        var d := Drain(lib, t, live[1..], cancel, polls + 1);
        d.(moved := d.moved + 1)
  }

  /** The drain of the rows from `i` on, unfolded once. */
  lemma DrainNext(lib: Lib, s: Store, rows: seq<Row>, i: nat, cancel: nat -> bool, polls: nat)
    requires i < |rows|
    ensures Drain(lib, s, rows[i..], cancel, polls)
      == if cancel(polls) then Drained(s, 0, polls + 1, Cancelled)
         else match Move(lib, s, rows[i].0, rows[i].1)
              case Err(e) => Drained(s, 0, polls + 1, Failed(e))
              case Ok(t) => var d := Drain(lib, t, rows[i + 1..], cancel, polls + 1); d.(moved := d.moved + 1)
  {
    hide Move;
    assert rows[i..][0] == rows[i] && rows[i..][1..] == rows[i + 1..];
  }

  lemma DrainNone(lib: Lib, s: Store, rows: seq<Row>, cancel: nat -> bool, polls: nat)
    ensures Drain(lib, s, rows[|rows|..], cancel, polls) == Drained(s, 0, polls, Finished) && rows[0..] == rows
  {
  }

  datatype Packed = Packed(store: Store, result: Result<nat>, moved: nat, polls: nat)

  function CompactPack(lib: Lib, s: Store, id: Uuid, live: seq<Row>, cancel: nat -> bool, polls: nat): Packed {
    var d := Drain(lib, s, live, cancel, polls);
    match d.ending
    case Finished => Packed(DeletePack(d.store, id), Ok(SizeOf(d.store.packs, id)), d.moved, d.polls)
    case Cancelled => Packed(d.store, Ok(0), d.moved, d.polls)
    case Failed(e) => Packed(d.store, Err(e), d.moved, d.polls)
  }

  // ----- any store ---------------------------------------------------------------------

  /**
   * What a move does to any store, sound or damaged: it fails if the row's pack is gone, or holds
   * less than the row says; otherwise the bytes the row pointed at are appended, whole, and the
   * row points at them, with nothing else about it changed.
   */
  lemma MoveExactly(lib: Lib, s: Store, h: Hash, l: Locator)
    ensures var r := Move(lib, s, h, l);
      && (r == Err(MissingChunk(h)) <==> l.packId !in s.packs)
      && (r == Err(CorruptChunk(h)) <==>
            l.packId in s.packs && l.storedLen > 0 && |s.packs[l.packId]| < l.offset + l.storedLen)
      && (r.Ok? ==> MovedTo(lib, s, r.value, h, l))
  {
    hide EncodeLocator, DecodeLocator;
    if l.packId in s.packs {
      RangeWithin(s.packs, l.packId, l.offset, l.storedLen);
    }
    var r := Move(lib, s, h, l);
    if r.Ok? {
      var t := RollIfFull(lib, s);
      LocatorRoundTrip(l.(packId := t.active, offset := t.size));
      var b := Within(s.packs[l.packId], l.offset, l.storedLen);
      assert r.value.packs == s.packs[t.active := t.packs[t.active] + b];
    }
  }

  /** The bytes at `l` are appended to the active pack, or to a new one if that is full, and the row follows. */
  ghost predicate MovedTo(lib: Lib, s: Store, t: Store, h: Hash, l: Locator) {
    var rolls := s.size >= lib.rollover;
    var id := if rolls then lib.uuid(s.drawn) else s.active;
    var before := if rolls || id !in s.packs then [] else s.packs[id];
    && l.packId in s.packs
    && t.packs == s.packs[id := before + Within(s.packs[l.packId], l.offset, l.storedLen)]
    && h in t.index && t.index == s.index[h := t.index[h]]
    && DecodeLocator(t.index[h]) == Ok(l.(packId := id, offset := if rolls then 0 else s.size))
    && t.active == id && t.size == (if rolls then 0 else s.size) + l.storedLen
    && t.manifests == s.manifests && t.drawn == (if rolls then s.drawn + 1 else s.drawn)
    && |Within(s.packs[l.packId], l.offset, l.storedLen)| == l.storedLen
  }

  /** A row whose bytes are all there, whatever they decode to. */
  ghost predicate Fits(s: Store, k: Hash) {
    && k in s.index && DecodeLocator(s.index[k]).Ok?
    && var l := Loc(s.index[k]); l.packId in s.packs && l.offset + l.storedLen <= |s.packs[l.packId]|
  }

  /** What `get` needs to know of a row. */
  lemma GetSame(lib: Lib, s: Store, t: Store, k: Hash)
    requires Fits(s, k) && Fits(t, k)
    requires var a, b := Loc(s.index[k]), Loc(t.index[k]);
      a.codec == b.codec && a.len == b.len && Stored(s.packs, a) == Stored(t.packs, b)
    ensures Get(lib, t.index, t.packs, k) == Get(lib, s.index, s.packs, k)
  {
    hide DecodeLocator, Stored;
    assert DecodeLocator(s.index[k]) == Ok(Loc(s.index[k])) && DecodeLocator(t.index[k]) == Ok(Loc(t.index[k]));
  }

  lemma MovedFits(lib: Lib, s: Store, t: Store, h: Hash, l: Locator, k: Hash)
    requires ActiveInv(s) && Fresh(lib, s, 1) && MovedTo(lib, s, t, h, l)
    requires h in s.index && l == Loc(s.index[h]) && Fits(s, k)
    ensures ActiveInv(t) && Fits(t, k)
    ensures var a, b := Loc(s.index[k]), Loc(t.index[k]);
      a.codec == b.codec && a.len == b.len && Stored(s.packs, a) == Stored(t.packs, b)
  {
    hide DecodeLocator;
    var a, b := Loc(s.index[k]), Loc(t.index[k]);
    assert lib.uuid(s.drawn) !in s.packs;
    RangeWithin(s.packs, a.packId, a.offset, a.storedLen);
    RangeWithin(t.packs, b.packId, b.offset, b.storedLen);
    if k == h {
      assert t.packs[t.active][b.offset..b.offset + l.storedLen] == Within(s.packs[l.packId], l.offset, l.storedLen);
    } else {
      var x, y := s.packs[a.packId], t.packs[a.packId];
      assert x <= y && x[a.offset..a.offset + a.storedLen] == y[a.offset..a.offset + a.storedLen];
    }
  }

  // ----- one move --------------------------------------------------------

  /** What moving one row preserves about the rest of the store. */
  ghost predicate Moved(lib: Lib, s: Store, t: Store, h: Hash) {
    && StoreInv(lib, t)
    && Abs(lib, t.index, t.packs) == Abs(lib, s.index, s.packs)
    && Extends(s.packs, t.packs)
    && t.index.Keys == s.index.Keys
    && (forall k :: k in s.index && k != h ==> t.index[k] == s.index[k])
    && h in s.index && Loc(t.index[h]).packId == t.active
    && Loc(t.index[h]).storedLen == Loc(s.index[h]).storedLen
    && Loc(t.index[h]).codec == Loc(s.index[h]).codec
    && t.manifests == s.manifests
  }

  lemma StoredOfOk(lib: Lib, packs: map<Uuid, Bytes>, h: Hash, l: Locator)
    requires LocOk(lib, packs, h, l)
    ensures Stored(packs, l).Some? && |Stored(packs, l).value| == l.storedLen
    ensures Decode(lib, l.codec, Stored(packs, l).value, l.len) == Plain(lib, packs, l)
  {
  }

  /** Bytes appended at the end are what the new locator reads. */
  lemma AppendedAt(lib: Lib, t: Store, h: Hash, l: Locator, b: Bytes)
    requires ActiveInv(t) && t.size < U64_LIMIT
    requires |b| == l.storedLen <= l.len
    requires Decode(lib, l.codec, b, l.len).Some?
    requires var p := Decode(lib, l.codec, b, l.len).value; |p| == l.len && lib.hash(p) == h
    ensures var n := l.(packId := t.active, offset := t.size);
      LocOk(lib, AppendTo(t, b).packs, h, n)
      && Plain(lib, AppendTo(t, b).packs, n) == Decode(lib, l.codec, b, l.len)
  {
    assert AppendTo(t, b).packs[t.active][t.size..t.size + |b|] == b;
  }

  lemma MoveSucceeds(lib: Lib, s: Store, h: Hash)
    requires StoreInv(lib, s) && Fresh(lib, s, 1) && h in s.index
    ensures Move(lib, s, h, Loc(s.index[h])).Ok?
    ensures Moved(lib, s, Move(lib, s, h, Loc(s.index[h])).value, h)
  {
    hide DecodeLocator, EncodeLocator, Loc, Plain, Stored, Decode, RollIfFull, LocOk, RowsInv, Abs;
    var l := Loc(s.index[h]);
    assert RowOk(lib, s.packs, h, s.index[h]) && l.storedLen <= l.len by { RowFacts(lib, s, h); }
    StoredOfOk(lib, s.packs, h, l);
    var b := Stored(s.packs, l).value;
    RowFacts(lib, s, h);
    RollIfFullKeeps(lib, s);
    var t := RollIfFull(lib, s);
    var u := AppendTo(t, b);
    AppendKeeps(lib, t, b);
    ExtendsTransitive(s.packs, t.packs, u.packs);
    AppendedAt(lib, t, h, l, b);
    var n := l.(packId := t.active, offset := t.size);
    NextIsApart(lib, t, n);
    SetRowKeeps(lib, u.index, u.packs, h, n);
    GetRefines(lib, s.index, s.packs, h);
    assert Abs(lib, s.index, s.packs)[h] == Plain(lib, s.packs, l).value by { AbsAt(lib, s, h); }
  }

  lemma RowFacts(lib: Lib, s: Store, h: Hash)
    requires StoreInv(lib, s) && h in s.index
    ensures RowOk(lib, s.packs, h, s.index[h])
    ensures LocOk(lib, s.packs, h, Loc(s.index[h]))
    ensures Loc(s.index[h]).storedLen <= Loc(s.index[h]).len
    ensures Plain(lib, s.packs, Loc(s.index[h])).Some?
    ensures |Plain(lib, s.packs, Loc(s.index[h])).value| == Loc(s.index[h]).len
    ensures lib.hash(Plain(lib, s.packs, Loc(s.index[h])).value) == h
  {
    hide DecodeLocator, Plain;
    assert RowOk(lib, s.packs, h, s.index[h]);
  }

  lemma AbsAt(lib: Lib, s: Store, h: Hash)
    requires h in s.index && Plain(lib, s.packs, Loc(s.index[h])).Some?
    ensures h in Abs(lib, s.index, s.packs)
    ensures Abs(lib, s.index, s.packs)[h] == Plain(lib, s.packs, Loc(s.index[h])).value
  {
  }

  lemma MoveFresh(lib: Lib, s: Store, h: Hash, l: Locator, n: nat)
    requires StoreInv(lib, s) && Fresh(lib, s, n + 1) && Move(lib, s, h, l).Ok?
    ensures Fresh(lib, Move(lib, s, h, l).value, n)
    ensures s.drawn <= Move(lib, s, h, l).value.drawn
  {
    hide DecodeLocator, EncodeLocator, Loc, Stored, RowsInv;
    FreshAfterRoll(lib, s, n);
  }

  // ----- a whole pack ------------------------------------------------------

  /** The rows still to move are untouched by the moves before them. */
  lemma ListsAfterMove(s: Store, t: Store, live: seq<Row>, id: Uuid)
    requires live != [] && Lists(live, s.index, RowsOf(s.index, id))
    requires t.index.Keys == s.index.Keys
    requires forall k :: k in s.index && k != live[0].0 ==> t.index[k] == s.index[k]
    requires live[0].0 in t.index && Loc(t.index[live[0].0]).packId != id
    ensures Lists(live[1..], t.index, RowsOf(t.index, id))
  {
    hide Loc;
    var rest := live[1..];
    assert forall i :: 0 <= i < |rest| ==> rest[i] == live[i + 1];
    forall h | h in RowsOf(t.index, id) ensures exists i :: 0 <= i < |rest| && rest[i].0 == h {
      assert h in RowsOf(s.index, id);
      var i :| 0 <= i < |live| && live[i].0 == h;
      assert i != 0;
      assert rest[i - 1].0 == h;
    }
  }

  /** One move of a drain leaves everything the rest of it needs. */
  lemma DrainStep(lib: Lib, s: Store, id: Uuid, live: seq<Row>)
    requires live != [] && StoreInv(lib, s) && Fresh(lib, s, |live|)
    requires id in s.packs && id != s.active
    requires Lists(live, s.index, RowsOf(s.index, id))
    ensures live[0].0 in s.index && live[0].1 == Loc(s.index[live[0].0]) && Loc(s.index[live[0].0]).packId == id
    ensures Move(lib, s, live[0].0, live[0].1).Ok?
    ensures var t := Move(lib, s, live[0].0, live[0].1).value;
      && StoreInv(lib, t) && Fresh(lib, t, |live| - 1)
      && id in t.packs && id != t.active
      && Lists(live[1..], t.index, RowsOf(t.index, id))
      && Abs(lib, t.index, t.packs) == Abs(lib, s.index, s.packs)
      && Extends(s.packs, t.packs) && t.manifests == s.manifests
  {
    hide DecodeLocator, Loc, Stored, RowsInv, Abs, Plain, Move, Fresh, RowsOf;
    var h := live[0].0;
    assert live[0].1 == Loc(s.index[h]);
    RowOfPack(s.index, h, id);
    FreshFewer(lib, s, |live|, 1);
    MoveSucceeds(lib, s, h);
    MoveFresh(lib, s, h, Loc(s.index[h]), |live| - 1);
    MoveActive(lib, s, h, Loc(s.index[h]), id);
    ListsAfterMove(s, Move(lib, s, h, Loc(s.index[h])).value, live, id);
  }

  lemma RowOfPack(index: map<Hash, Bytes>, h: Hash, id: Uuid)
    requires h in RowsOf(index, id)
    ensures h in index && Loc(index[h]).packId == id
  {
    hide Loc;
  }

  /**
   * Stopped by `cancel` after any number of moves, or run to the end, the drain leaves the
   * invariant and the abstract map exactly as they were; it cannot fail on a sound store;
   * and when it finishes, no row points into the drained pack.
   */
  lemma {:induction false} DrainKeeps(lib: Lib, s: Store, id: Uuid, live: seq<Row>, cancel: nat -> bool, polls: nat)
    requires StoreInv(lib, s) && Fresh(lib, s, |live|)
    requires id in s.packs && id != s.active
    requires Lists(live, s.index, RowsOf(s.index, id))
    ensures var d := Drain(lib, s, live, cancel, polls);
      && StoreInv(lib, d.store)
      && Abs(lib, d.store.index, d.store.packs) == Abs(lib, s.index, s.packs)
      && Extends(s.packs, d.store.packs)
      && d.store.active != id
      && d.store.manifests == s.manifests
      && !d.ending.Failed?
      && (d.ending.Finished? ==> d.moved == |live| && RowsOf(d.store.index, id) == {})
    decreases |live|
  {
    hide DecodeLocator, Loc, Stored, RowsInv, Abs, Plain, Move, Fresh, RowsOf, Lists;
    if live == [] {
      EmptyListing(s.index, id);
    } else if !cancel(polls) {
      DrainStep(lib, s, id, live);
      var t := Move(lib, s, live[0].0, live[0].1).value;
      DrainKeeps(lib, t, id, live[1..], cancel, polls + 1);
      ExtendsTransitive(s.packs, t.packs, Drain(lib, s, live, cancel, polls).store.packs);
    }
  }

  lemma FreshFewer(lib: Lib, s: Store, n: nat, m: nat)
    requires Fresh(lib, s, n) && m <= n
    ensures Fresh(lib, s, m)
  {
  }

  lemma EmptyListing(index: map<Hash, Bytes>, id: Uuid)
    requires Lists([], index, RowsOf(index, id))
    ensures RowsOf(index, id) == {}
  {
    hide Loc;
    assert forall h :: h in RowsOf(index, id) ==> h in index;
  }

  /** A move never makes an existing pack active, so the pack being drained stays inactive. */
  lemma MoveActive(lib: Lib, s: Store, h: Hash, l: Locator, id: Uuid)
    requires Fresh(lib, s, 1) && id in s.packs && id != s.active
    requires Move(lib, s, h, l).Ok?
    ensures Move(lib, s, h, l).value.active != id
  {
    hide DecodeLocator, EncodeLocator, Loc, Stored;
    assert lib.uuid(s.drawn) !in s.packs;
  }

  /**
   * `compact_pack` as a whole. The pack file goes only when no row points into it, and the
   * map from digest to plaintext is the same before and after, cancelled or not.
   */
  lemma CompactPackKeeps(lib: Lib, s: Store, id: Uuid, live: seq<Row>, cancel: nat -> bool, polls: nat)
    requires StoreInv(lib, s) && Fresh(lib, s, |live|)
    requires id in s.packs && id != s.active
    requires Lists(live, s.index, RowsOf(s.index, id))
    ensures var p := CompactPack(lib, s, id, live, cancel, polls);
      && StoreInv(lib, p.store) && p.result.Ok?
      && Abs(lib, p.store.index, p.store.packs) == Abs(lib, s.index, s.packs)
      && p.store.manifests == s.manifests
      && (id !in p.store.packs ==> RowsOf(p.store.index, id) == {})
      && ((forall i :: !cancel(i)) ==> id !in p.store.packs)
  {
    hide DecodeLocator, Loc, RowsInv, Abs, Drain, Fresh;
    DrainKeeps(lib, s, id, live, cancel, polls);
    var d := Drain(lib, s, live, cancel, polls);
    if d.ending.Finished? {
      NoRowsIn(d.store.index, id);
      DeletePackKeeps(lib, d.store, id);
    }
    if forall i :: !cancel(i) {
      DrainUncancelled(lib, s, live, cancel, polls);
    }
  }

  lemma NoRowsIn(index: map<Hash, Bytes>, id: Uuid)
    requires RowsOf(index, id) == {}
    ensures forall h :: h in index ==> Loc(index[h]).packId != id
  {
    hide Loc;
    forall h | h in index ensures Loc(index[h]).packId != id {
      assert h !in RowsOf(index, id);
    }
  }

  lemma {:induction false} DrainUncancelled(lib: Lib, s: Store, live: seq<Row>, cancel: nat -> bool, polls: nat)
    requires forall i :: !cancel(i)
    ensures !Drain(lib, s, live, cancel, polls).ending.Cancelled?
    decreases |live|
  {
    hide Move;
    if live != [] {
      var m := Move(lib, s, live[0].0, live[0].1);
      if m.Ok? {
        DrainUncancelled(lib, m.value, live[1..], cancel, polls + 1);
      }
    }
  }

  /** The store after the first `k` moves, when nothing cancels them. */
  function AfterMoves(lib: Lib, s: Store, live: seq<Row>, k: nat): Store
    requires k <= |live|
  {
    Drain(lib, s, live[..k], _ => false, 0).store
  }

  lemma {:induction false} DrainPrefix(lib: Lib, s: Store, id: Uuid, live: seq<Row>, k: nat, polls: nat)
    requires k <= |live|
    requires StoreInv(lib, s) && Fresh(lib, s, |live|)
    requires id in s.packs && id != s.active
    requires Lists(live, s.index, RowsOf(s.index, id))
    ensures var t := Drain(lib, s, live[..k], _ => false, polls).store;
      && StoreInv(lib, t) && Abs(lib, t.index, t.packs) == Abs(lib, s.index, s.packs)
      && Extends(s.packs, t.packs) && t.manifests == s.manifests
      && Fresh(lib, t, |live| - k)
    decreases |live|
  {
    hide DecodeLocator, Loc, Stored, RowsInv, Abs, Plain, Move, Fresh, RowsOf, Lists;
    if k > 0 {
      DrainStep(lib, s, id, live);
      assert live[..k][0] == live[0] && live[..k][1..] == live[1..][..k - 1];
      var t := Move(lib, s, live[0].0, live[0].1).value;
      DrainPrefix(lib, t, id, live[1..], k - 1, polls + 1);
      ExtendsTransitive(s.packs, t.packs, Drain(lib, s, live[..k], _ => false, polls).store.packs);
    }
  }

  // ----- a whole pack of any store -----------------------------------------------------------

  lemma MovedFresh(lib: Lib, s: Store, t: Store, h: Hash, l: Locator, n: nat)
    requires ActiveInv(s) && Fresh(lib, s, n + 1) && MovedTo(lib, s, t, h, l)
    ensures Fresh(lib, t, n)
  {
    hide DecodeLocator, Within;
  }

  lemma MovedElsewhere(lib: Lib, s: Store, t: Store, h: Hash, l: Locator, id: Uuid)
    requires Fresh(lib, s, 1) && MovedTo(lib, s, t, h, l) && h in s.index
    requires id in s.packs && id != s.active
    ensures t.active != id && id in t.packs && t.packs[id] == s.packs[id] && Loc(t.index[h]).packId != id
    ensures t.index.Keys == s.index.Keys && forall k :: k in s.index && k != h ==> t.index[k] == s.index[k]
  {
    hide DecodeLocator, Within;
    assert lib.uuid(s.drawn) !in s.packs;
    assert Loc(t.index[h]) == DecodeLocator(t.index[h]).value;
  }

  /**
   * On any store, sound or damaged, a drain changes no answer for a digest whose bytes are all
   * there, whether it finishes, is cancelled, or stops at a row it cannot move.
   */
  lemma {:induction false} DrainAnswers(lib: Lib, s: Store, id: Uuid, live: seq<Row>, cancel: nat -> bool, polls: nat,
                                        k: Hash)
    requires ActiveInv(s) && Fresh(lib, s, |live|) && Fits(s, k)
    requires id in s.packs && id != s.active && Lists(live, s.index, RowsOf(s.index, id))
    ensures var d := Drain(lib, s, live, cancel, polls);
      && Fits(d.store, k) && Get(lib, d.store.index, d.store.packs, k) == Get(lib, s.index, s.packs, k)
      && id in d.store.packs && d.store.packs[id] == s.packs[id]
      && (d.ending.Finished? ==> RowsOf(d.store.index, id) == {})
    decreases |live|
  {
    hide DecodeLocator, Loc, Stored, Move, Fresh, RowsOf, Lists, Get, Fits, MovedTo, ActiveInv;
    if live == [] {
      EmptyListing(s.index, id);
    } else if !cancel(polls) {
      var h, l := live[0].0, live[0].1;
      FirstListed(live, s.index, id);
      MoveExactly(lib, s, h, l);
      var m := Move(lib, s, h, l);
      if m.Ok? {
        FreshFewer(lib, s, |live|, 1);
        MovedFits(lib, s, m.value, h, l, k);
        GetSame(lib, s, m.value, k);
        MovedFresh(lib, s, m.value, h, l, |live| - 1);
        MovedElsewhere(lib, s, m.value, h, l, id);
        ListsAfterMove(s, m.value, live, id);
        DrainAnswers(lib, m.value, id, live[1..], cancel, polls + 1, k);
      }
    }
  }

  lemma FirstListed(live: seq<Row>, index: map<Hash, Bytes>, id: Uuid)
    requires live != [] && Lists(live, index, RowsOf(index, id))
    ensures live[0].0 in index && live[0].1 == Loc(index[live[0].0])
  {
    hide Loc, RowsOf;
  }

  /** So neither does compacting a pack, which is deleted only if every row has left it. */
  lemma PackAnswers(lib: Lib, s: Store, id: Uuid, live: seq<Row>, cancel: nat -> bool, polls: nat, k: Hash)
    requires ActiveInv(s) && Fresh(lib, s, |live|) && Fits(s, k)
    requires id in s.packs && id != s.active && Lists(live, s.index, RowsOf(s.index, id))
    ensures var t := CompactPack(lib, s, id, live, cancel, polls).store;
      Fits(t, k) && Get(lib, t.index, t.packs, k) == Get(lib, s.index, s.packs, k)
  {
    hide DecodeLocator, Loc, Drain, RowsOf, Lists, Get, Fresh;
    DrainAnswers(lib, s, id, live, cancel, polls, k);
    var d := Drain(lib, s, live, cancel, polls);
    if d.ending.Finished? {
      NoRowsIn(d.store.index, id);
      var t := DeletePack(d.store, id);
      var l := Loc(t.index[k]);
      assert Stored(t.packs, l) == Stored(d.store.packs, l) by { OtherPack(d.store.packs, id, l); }
      GetSame(lib, d.store, t, k);
    }
  }

  lemma OtherPack(packs: map<Uuid, Bytes>, id: Uuid, l: Locator)
    requires l.packId in packs && l.packId != id
    ensures Stored(packs - {id}, l) == Stored(packs, l)
  {
  }

  /** What every crash of a drain of `id` must leave. */
  ghost predicate Recovered(lib: Lib, s: Store, id: Uuid, t: Store) {
    && StoreInv(lib, t) && Abs(lib, t.index, t.packs) == Abs(lib, s.index, s.packs)
    && id in s.packs && id in t.packs && s.packs[id] <= t.packs[id] && t.manifests == s.manifests
  }

  /**
   * Process death during `compact_pack`: after any number of committed moves, with any
   * unindexed bytes the next append left on disk, or with a pack created for it whose id is not
   * saved yet, the reopened store is sound, stands for the same map, and still has the source
   * pack with everything it held.
   */
  lemma CompactPackCrash(lib: Lib, s: Store, id: Uuid, live: seq<Row>, k: nat, torn: Bytes)
    requires k <= |live|
    requires StoreInv(lib, s) && Fresh(lib, s, |live|)
    requires id in s.packs && id != s.active
    requires Lists(live, s.index, RowsOf(s.index, id))
    ensures AfterMoves(lib, s, live, k).active in AfterMoves(lib, s, live, k).packs
    ensures Recovered(lib, s, id, Reopen(lib, AppendTo(AfterMoves(lib, s, live, k), torn)))
    ensures k < |live| ==> Recovered(lib, s, id, Reopen(lib, CreatePack(lib, AfterMoves(lib, s, live, k))))
  {
    hide DecodeLocator, Loc, Drain, RowsInv, Abs, CreatePack, Fresh;
    DrainPrefix(lib, s, id, live, k, 0);
    var t := AfterMoves(lib, s, live, k);
    assert t == Drain(lib, s, live[..k], _ => false, 0).store;
    AppendKeeps(lib, t, torn);
    ExtendsTransitive(s.packs, t.packs, AppendTo(t, torn).packs);
    ReopenRecovers(lib, AppendTo(t, torn));
    if k < |live| {
      FreshFewer(lib, t, |live| - k, 1);
      CreatePackKeeps(lib, t);
      Unsaved(lib, t);
      ExtendsTransitive(s.packs, t.packs, CreatePack(lib, t).packs);
      ReopenRecovers(lib, CreatePack(lib, t));
    }
  }

  lemma Unsaved(lib: Lib, t: Store)
    requires StoreInv(lib, t)
    ensures var u := CreatePack(lib, t);
      u.saved == Some(t.active) && t.active in u.packs && u.manifests == t.manifests
  {
    hide RowsInv;
  }
}
