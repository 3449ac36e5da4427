/** The chunk store as the program has it: an object whose methods update it in place. */
module ChunkStores {
  import opened Base
  import opened Types
  import opened Sums
  import opened Locators
  import opened Library
  import opened StoreState
  import opened Compaction
  import opened Gc
  import opened Space

  datatype PackStat = PackStat(packId: Uuid, fileBytes: nat, liveBytes: nat, liveChunks: nat, isActive: bool)

  ghost predicate StatOf(s: Store, p: PackStat) {
    && p.packId in s.packs
    && p.fileBytes == |s.packs[p.packId]|
    && p.liveBytes == LiveBytes(s.index, p.packId)
    && p.liveChunks == |RowsOf(s.index, p.packId)|
    && p.isActive == (p.packId == s.active)
  }

  /** One entry for each pack in `ids`. */
  ghost predicate StatsOf(s: Store, stats: seq<PackStat>, ids: set<Uuid>) {
    && (forall i :: 0 <= i < |stats| ==> StatOf(s, stats[i]) && stats[i].packId in ids)
    && (forall i, j :: 0 <= i < j < |stats| ==> stats[i].packId != stats[j].packId)
    && (forall id :: id in ids ==> exists i :: 0 <= i < |stats| && stats[i].packId == id)
  }

  lemma StatsSnoc(s: Store, stats: seq<PackStat>, ids: set<Uuid>, p: PackStat)
    requires StatsOf(s, stats, ids) && StatOf(s, p) && p.packId !in ids
    ensures StatsOf(s, stats + [p], ids + {p.packId})
  {
    hide StatOf;
    var next := stats + [p];
    forall id | id in ids + {p.packId} ensures exists i :: 0 <= i < |next| && next[i].packId == id {
      if id == p.packId {
        assert next[|stats|].packId == id;
      } else {
        var i :| 0 <= i < |stats| && stats[i].packId == id;
        assert next[i].packId == id;
      }
    }
  }

  class ChunkStore {
    var index: map<Hash, Bytes>
    var packs: map<Uuid, Bytes>
    var manifests: map<string, Manifest>
    var saved: Option<Uuid>
    var active: Uuid
    var size: nat
    var drawn: nat
    const lib: Lib

    function State(): Store
      reads this
    {
      Store(index, packs, manifests, saved, active, size, drawn)
    }

    /** Opening the directory that holds `disk`, whose in-memory part is irrelevant. */
    constructor (lib: Lib, disk: Store)
      ensures this.lib == lib
      ensures State() == Reopen(lib, disk)
    {
      this.lib := lib;
      index, packs, manifests := disk.index, disk.packs, disk.manifests;
      drawn := disk.drawn;
      match disk.saved {
        case Some(id) =>
          saved := disk.saved;
          active := id;
          size := SizeOf(disk.packs, id);
        case None =>
          var id := lib.uuid(disk.drawn);
          packs := disk.packs[id := []];
          saved := Some(id);
          active := id;
          size := 0;
          drawn := disk.drawn + 1;
      }
    }

    method RollLocked()
      modifies this
      ensures State() == Roll(lib, old(State()))
    {
      var id := lib.uuid(drawn);
      drawn := drawn + 1;
      packs := packs[id := []];
      active, size := id, 0;
      saved := Some(id);
    }

    method PutChunk(h: Hash, plain: Bytes, comp: Compression) returns (r: Result<Codec>)
      modifies this
      ensures State() == Put(lib, old(State()), h, plain, comp).0
      ensures r == Put(lib, old(State()), h, plain, comp).1
      ensures h !in old(index) && r.Ok? ==>
        exists stored :: PutAt(lib, old(State()), State(), h, plain, comp, r.value, stored)
    {
      hide EncodeLocator, DecodeLocator, Encode, PutAt;
      ghost var s := State();
      if h in index {
        match DecodeLocator(index[h]) {
          case Err(e) => return Err(e);
          case Ok(l) => return Ok(l.codec);
        }
      }
      var (codec, stored) := Encode(lib, comp, plain);
      if size >= lib.rollover {
        RollLocked();
      }
      var offset := size;
      if active !in packs {
        return Err(Io);
      }
      packs := packs[active := packs[active] + stored];
      size := size + |stored|;
      var l := Locator(active, offset, |plain| % U32_LIMIT, |stored| % U32_LIMIT, codec);
      index := index[h := EncodeLocator(l)];
      PutExactly(lib, s, h, plain, comp);
      return Ok(codec);
    }

    method GetChunk(h: Hash) returns (r: Result<Option<Bytes>>)
      ensures r == Get(lib, index, packs, h)
      ensures forall p :: r == Ok(Some(p)) ==> lib.hash(p) == h
    {
      if h !in index { return Ok(None); }
      match DecodeLocator(index[h]) {
        case Err(e) => return Err(e);
        case Ok(l) =>
          var stored := GetRange(packs, l.packId, l.offset, l.storedLen);
          if stored.None? { return Err(MissingChunk(h)); }
          var plain := Decode(lib, l.codec, stored.value, l.len);
          if plain.None? || lib.hash(plain.value) != h { return Err(CorruptChunk(h)); }
          return Ok(Some(plain.value));
      }
    }

    method PutManifest(key: string, m: Manifest)
      modifies this`manifests
      ensures State() == old(State()).(manifests := old(manifests)[key := m])
    {
      manifests := manifests[key := m];
    }

    method RemoveChunkIndexEntries(hashes: seq<Hash>)
      modifies this`index
      ensures State() == DropRows(old(State()), set h | h in hashes)
    {
      var i := 0;
      while i < |hashes|
        invariant 0 <= i <= |hashes|
        invariant index == old(index) - (set h | h in hashes[..i])
      {
        index := index - {hashes[i]};
        i := i + 1;
      }
      assert hashes[..i] == hashes;
    }

    method RemovePackFile(id: Uuid) returns (freed: nat)
      modifies this`packs
      ensures State() == DeletePack(old(State()), id)
      ensures freed == SizeOf(old(packs), id)
    {
      freed := SizeOf(packs, id);
      packs := packs - {id};
    }

    /** A point-in-time listing of the index; one undecodable row fails the whole listing. */
    method AllLocators() returns (r: Result<seq<Row>>)
      ensures r.Ok? <==> Decodable(index)
      ensures r.Ok? ==> Lists(r.value, index, index.Keys)
      ensures r.Err? ==> r == Err(BadIndex)
    {
      var todo := index.Keys;
      var rows: seq<Row> := [];
      while todo != {}
        invariant todo <= index.Keys
        invariant forall h :: h in index && h !in todo ==> DecodeLocator(index[h]).Ok?
        invariant Lists(rows, index, index.Keys - todo)
        decreases todo
      {
        var h :| h in todo;
        match DecodeLocator(index[h]) {
          case Err(e) =>
            LocatorRows(index[h]);
            return Err(e);
          case Ok(l) =>
            ListsSnoc(rows, index, index.Keys - todo, h, l);
            rows := rows + [(h, l)];
            todo := todo - {h};
            assert index.Keys - todo == index.Keys - (todo + {h}) + {h};
        }
      }
      return Ok(rows);
    }

    /** Live bytes and live chunks by pack, accumulated row by row. */
    method TallyRows(rows: seq<Row>) returns (live: map<Uuid, (nat, nat)>)
      requires Lists(rows, index, index.Keys)
      ensures forall id :: Tally(live, id) == (LiveBytes(index, id), |RowsOf(index, id)|)
    {
      hide Loc, LiveBytes, RowsOf, Lists, AddRow, Tallied;
      live := map[];
      ghost var done: set<Hash> := {};
      NothingTallied(index);
      for i := 0 to |rows|
        invariant done == Heads(rows[..i])
        invariant forall id :: Tally(live, id) == Tallied(index, done, id)
      {
        HeadsStep(rows, i);
        NotYetTallied(rows, index, i);
        TallyStep(index, live, done, rows[i].0);
        live := AddRow(live, rows[i].1);
        done := done + {rows[i].0};
      }
      assert rows[..|rows|] == rows;
      AllHeads(rows, index);
      AllTallied(index);
    }

    /** Per-pack accounting over every pack file, with or without rows. */
    method PackStats() returns (r: Result<seq<PackStat>>)
      ensures r.Ok? <==> Decodable(index)
      ensures r.Ok? ==> StatsOf(State(), r.value, packs.Keys)
      ensures r.Err? ==> r == Err(BadIndex)
    {
      hide Loc, LiveBytes, RowsOf, Lists, Decodable;
      var listing := AllLocators();
      if listing.Err? { return Err(BadIndex); }
      var live := TallyRows(listing.value);
      var out: seq<PackStat> := [];
      var todo := packs.Keys;
      while todo != {}
        invariant todo <= packs.Keys
        invariant StatsOf(State(), out, packs.Keys - todo)
        decreases todo
      {
        var id :| id in todo;
        var t := Tally(live, id);
        var stat := PackStat(id, |packs[id]|, t.0, t.1, id == active);
        assert StatOf(State(), stat);
        StatsSnoc(State(), out, packs.Keys - todo, stat);
        out := out + [stat];
        assert packs.Keys - (todo - {id}) == packs.Keys - todo + {id};
        todo := todo - {id};
      }
      assert packs.Keys - todo == packs.Keys;
      return Ok(out);
    }

    /** One step of compaction: read, roll if full, append, repoint. */
    method MoveChunk(h: Hash, l: Locator) returns (r: Result<()>)
      modifies this
      ensures match Move(lib, old(State()), h, l)
        case Ok(t) => State() == t && r == Ok(())
        case Err(e) => State() == old(State()) && r == Err(e)
    {
      hide EncodeLocator;
      var stored := GetRange(packs, l.packId, l.offset, l.storedLen);
      if stored.None? { return Err(MissingChunk(h)); }
      if |stored.value| != l.storedLen { return Err(CorruptChunk(h)); }
      if size >= lib.rollover {
        RollLocked();
      }
      if active !in packs { return Err(Io); }
      var newOffset := size;
      packs := packs[active := packs[active] + stored.value];
      size := size + |stored.value|;
      index := index[h := EncodeLocator(l.(packId := active, offset := newOffset))];
      return Ok(());
    }

    /**
     * Moves every live chunk of `id` to the active pack, polling `cancel` before each, and
     * then deletes the pack. `live` is the listing it worked from.
     */
    method CompactPack(id: Uuid, cancel: nat -> bool, polls: nat)
      returns (r: Result<nat>, moved: nat, polled: nat, ghost live: seq<Row>)
      requires id != active
      modifies this
      ensures !Decodable(old(index)) ==> r == Err(BadIndex) && State() == old(State())
      ensures Decodable(old(index)) ==>
        && Lists(live, old(index), RowsOf(old(index), id))
        && Packed(State(), r, moved, polled) == Compaction.CompactPack(lib, old(State()), id, live, cancel, polls)
    {
      hide Loc, Move, Lists, Decodable, RowsOf, Drain;
      moved, polled, live := 0, polls, [];
      var listing := AllLocators();
      if listing.Err? { return Err(BadIndex), 0, polls, []; }
      var rows := RowsIn(listing.value, id);
      RowsInLists(listing.value, index, id);
      live := rows;
      ghost var s := State();
      var i := 0;
      DrainNone(lib, s, rows, cancel, polls);
      while i < |rows|
        invariant 0 <= i <= |rows| && moved == i
        invariant WithMoved(moved, Drain(lib, State(), rows[i..], cancel, polled)) == Drain(lib, s, rows, cancel, polls)
      {
        DrainNext(lib, State(), rows, i, cancel, polled);
        polled := polled + 1;
        if cancel(polled - 1) {
          return Ok(0), moved, polled, live;
        }
        var step := MoveChunk(rows[i].0, rows[i].1);
        if step.Err? { return Err(step.error), moved, polled, live; }
        moved := moved + 1;
        i := i + 1;
      }
      DrainNone(lib, State(), rows, cancel, polled);
      var freed := RemovePackFile(id);
      r := Ok(freed);
    }
  }

  function WithMoved(n: nat, d: Drained): Drained {
    d.(moved := n + d.moved)
  }

  function RowsIn(rows: seq<Row>, id: Uuid): seq<Row> {
    if rows == [] then []
    else (if rows[0].1.packId == id then [rows[0]] else []) + RowsIn(rows[1..], id)
  }

  lemma {:induction false} RowsInMembers(rows: seq<Row>, id: Uuid)
    ensures forall r :: r in RowsIn(rows, id) <==> r in rows && r.1.packId == id
    ensures (forall i, j :: 0 <= i < j < |rows| ==> rows[i].0 != rows[j].0) ==>
      forall i, j :: 0 <= i < j < |RowsIn(rows, id)| ==> RowsIn(rows, id)[i].0 != RowsIn(rows, id)[j].0
  {
    if rows != [] {
      RowsInMembers(rows[1..], id);
      var rest := RowsIn(rows[1..], id);
      assert forall r :: r in rows <==> r == rows[0] || r in rows[1..];
      if forall i, j :: 0 <= i < j < |rows| ==> rows[i].0 != rows[j].0 {
        forall j | 0 <= j < |rest| ensures rest[j].0 != rows[0].0 {
          assert rest[j] in rows[1..];
        }
      }
    }
  }

  lemma RowsInSound(rows: seq<Row>, index: map<Hash, Bytes>, id: Uuid, i: nat)
    requires Lists(rows, index, index.Keys) && i < |RowsIn(rows, id)|
    ensures var r := RowsIn(rows, id)[i]; r.0 in RowsOf(index, id) && r.0 in index && r.1 == Loc(index[r.0])
  {
    hide Loc, RowsIn;
    RowsInMembers(rows, id);
    var r := RowsIn(rows, id)[i];
    assert r in RowsIn(rows, id);
    var k :| 0 <= k < |rows| && rows[k] == r;
  }

  lemma RowsInComplete(rows: seq<Row>, index: map<Hash, Bytes>, id: Uuid, h: Hash)
    requires Lists(rows, index, index.Keys) && h in RowsOf(index, id)
    ensures exists i :: 0 <= i < |RowsIn(rows, id)| && RowsIn(rows, id)[i].0 == h
  {
    hide Loc, RowsIn;
    RowsInMembers(rows, id);
    var k :| 0 <= k < |rows| && rows[k].0 == h;
    assert rows[k] in rows && rows[k].1.packId == id;
    var i :| 0 <= i < |RowsIn(rows, id)| && RowsIn(rows, id)[i] == rows[k];
    assert RowsIn(rows, id)[i].0 == h;
  }

  lemma RowsInLists(rows: seq<Row>, index: map<Hash, Bytes>, id: Uuid)
    requires Lists(rows, index, index.Keys)
    ensures Lists(RowsIn(rows, id), index, RowsOf(index, id))
  {
    hide Loc, RowsIn, RowsOf;
    RowsInMembers(rows, id);
    forall i | 0 <= i < |RowsIn(rows, id)|
      ensures var r := RowsIn(rows, id)[i]; r.0 in RowsOf(index, id) && r.0 in index && r.1 == Loc(index[r.0])
    {
      RowsInSound(rows, index, id, i);
    }
    forall h | h in RowsOf(index, id) && h in index
      ensures exists i :: 0 <= i < |RowsIn(rows, id)| && RowsIn(rows, id)[i].0 == h
    {
      RowsInComplete(rows, index, id, h);
    }
  }

  // ----- tallying live bytes row by row ------------------------------------

  function Tally(live: map<Uuid, (nat, nat)>, id: Uuid): (nat, nat) {
    if id in live then live[id] else (0, 0)
  }

  function AddRow(live: map<Uuid, (nat, nat)>, l: Locator): map<Uuid, (nat, nat)> {
    var t := Tally(live, l.packId);
    live[l.packId := (t.0 + l.storedLen, t.1 + 1)]
  }

  ghost function Tallied(index: map<Hash, Bytes>, done: set<Hash>, id: Uuid): (nat, nat) {
    (LiveBytes(Restrict(index, done), id), |RowsOf(Restrict(index, done), id)|)
  }

  function Heads(rows: seq<Row>): set<Hash> {
    set r | r in rows :: r.0
  }

  lemma HeadsStep(rows: seq<Row>, i: nat)
    requires i < |rows|
    ensures Heads(rows[..i + 1]) == Heads(rows[..i]) + {rows[i].0}
  {
    assert rows[..i + 1] == rows[..i] + [rows[i]];
  }

  lemma NotYetTallied(rows: seq<Row>, index: map<Hash, Bytes>, i: nat)
    requires Lists(rows, index, index.Keys) && i < |rows|
    ensures rows[i].0 !in Heads(rows[..i]) && rows[i].0 in index && rows[i].1 == Loc(index[rows[i].0])
  {
    hide Loc;
  }

  lemma AllHeads(rows: seq<Row>, index: map<Hash, Bytes>)
    requires Lists(rows, index, index.Keys)
    ensures Heads(rows) == index.Keys
  {
    hide Loc;
    forall h | h in index ensures h in Heads(rows) {
      var i :| 0 <= i < |rows| && rows[i].0 == h;
      assert rows[i] in rows;
    }
  }

  lemma NothingTallied(index: map<Hash, Bytes>)
    ensures forall id :: Tallied(index, {}, id) == (0, 0)
  {
    hide Loc;
    forall id ensures Tallied(index, {}, id) == (0, 0) {
      assert LiveMap(Restrict(index, {}), id) == map[];
      assert RowsOf(Restrict(index, {}), id) == {};
    }
  }

  lemma AllTallied(index: map<Hash, Bytes>)
    ensures Restrict(index, index.Keys) == index
    ensures forall id :: Tallied(index, index.Keys, id) == (LiveBytes(index, id), |RowsOf(index, id)|)
  {
    hide Loc, LiveBytes, RowsOf;
    assert Restrict(index, index.Keys) == index;
  }

  lemma LiveSnoc(a: map<Hash, Bytes>, h: Hash, row: Bytes)
    requires h !in a
    ensures var id := Loc(row).packId;
      && h !in LiveMap(a, id) && h !in RowsOf(a, id)
      && LiveMap(a[h := row], id) == LiveMap(a, id)[h := Loc(row).storedLen as nat]
      && RowsOf(a[h := row], id) == RowsOf(a, id) + {h}
  {
    hide Loc;
  }

  lemma LiveOther(a: map<Hash, Bytes>, h: Hash, row: Bytes, id: Uuid)
    requires h !in a && id != Loc(row).packId
    ensures LiveMap(a[h := row], id) == LiveMap(a, id) && RowsOf(a[h := row], id) == RowsOf(a, id)
  {
    hide Loc;
  }

  lemma TallyOne(index: map<Hash, Bytes>, done: set<Hash>, h: Hash, id: Uuid)
    requires h in index && h !in done
    ensures var l := Loc(index[h]);
      var t := Tallied(index, done, id);
      Tallied(index, done + {h}, id) == if l.packId == id then (t.0 + l.storedLen, t.1 + 1) else t
  {
    hide Loc, LiveMap, RowsOf;
    var a := Restrict(index, done);
    assert Restrict(index, done + {h}) == a[h := index[h]];
    if Loc(index[h]).packId == id {
      LiveSnoc(a, h, index[h]);
      TotalInsert(LiveMap(a, id), h, Loc(index[h]).storedLen as nat);
    } else {
      LiveOther(a, h, index[h], id);
    }
  }

  lemma TallyStep(index: map<Hash, Bytes>, live: map<Uuid, (nat, nat)>, done: set<Hash>, h: Hash)
    requires h in index && h !in done
    requires forall id :: Tally(live, id) == Tallied(index, done, id)
    ensures forall id :: Tally(AddRow(live, Loc(index[h])), id) == Tallied(index, done + {h}, id)
  {
    hide Loc, Tallied;
    forall id ensures Tally(AddRow(live, Loc(index[h])), id) == Tallied(index, done + {h}, id) {
      TallyOne(index, done, h, id);
    }
  }

  lemma ListsSnoc(rows: seq<Row>, index: map<Hash, Bytes>, keep: set<Hash>, h: Hash, l: Locator)
    requires Lists(rows, index, keep) && h in index && h !in keep && l == Loc(index[h])
    ensures Lists(rows + [(h, l)], index, keep + {h})
  {
    hide Loc;
    var next := rows + [(h, l)];
    forall k | k in keep + {h} && k in index ensures exists i :: 0 <= i < |next| && next[i].0 == k {
      if k == h {
        assert next[|rows|].0 == h;
      } else {
        var i :| 0 <= i < |rows| && rows[i].0 == k;
        assert next[i].0 == k;
      }
    }
  }
}
