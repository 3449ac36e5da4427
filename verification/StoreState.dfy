/**
 * The chunk store as a value: the index table, the pack files, the manifest table, the
 * persisted active-pack id, and the in-memory active pack. The steps that change it are
 * the ones a crash can fall between.
 */
module StoreState {
  import opened Base
  import opened Types
  import opened Locators
  import opened Library

  datatype Store = Store(
    index: map<Hash, Bytes>, packs: map<Uuid, Bytes>, manifests: map<string, Manifest>,
    saved: Option<Uuid>, active: Uuid, size: nat, drawn: nat)

  // ----- reading --------------------------------------------------------

  /** A blob read, clamped to the blob's real length. */
  function GetRange(packs: map<Uuid, Bytes>, id: Uuid, offset: nat, len: nat): Option<Bytes> {
    if id !in packs then None
    else
      var start := Min(offset, |packs[id]|);
      Some(packs[id][start..Min(start + len, |packs[id]|)])
  }

  function Stored(packs: map<Uuid, Bytes>, l: Locator): Option<Bytes> {
    GetRange(packs, l.packId, l.offset, l.storedLen)
  }

  /** What the bytes a locator points at decode to. */
  function Plain(lib: Lib, packs: map<Uuid, Bytes>, l: Locator): Option<Bytes> {
    match Stored(packs, l)
    case None => None
    case Some(stored) => Decode(lib, l.codec, stored, l.len)
  }

  function Locate(index: map<Hash, Bytes>, h: Hash): Result<Option<Locator>> {
    if h !in index then Ok(None)
    else
      match DecodeLocator(index[h])
      case Err(e) => Err(e)
      case Ok(l) => Ok(Some(l))
  }

  /** `get`: a missing row, a missing pack, an undecodable frame and a wrong digest all differ. */
  function Get(lib: Lib, index: map<Hash, Bytes>, packs: map<Uuid, Bytes>, h: Hash): Result<Option<Bytes>> {
    match Locate(index, h)
    case Err(e) => Err(e)
    case Ok(None) => Ok(None)
    case Ok(Some(l)) =>
      match Stored(packs, l)
      case None => Err(MissingChunk(h))
      case Some(stored) =>
        match Decode(lib, l.codec, stored, l.len)
        case None => Err(CorruptChunk(h))
        case Some(p) => if lib.hash(p) == h then Ok(Some(p)) else Err(CorruptChunk(h))
  }

  /** The bytes of a blob from `offset` on, at most `len` of them, as many as there are. */
  function Within(blob: Bytes, offset: nat, len: nat): Bytes {
    if offset >= |blob| then [] else if offset + len >= |blob| then blob[offset..] else blob[offset..offset + len]
  }

  /** The text that a row's bytes stand for, if they stand for one. */
  function TextAt(lib: Lib, packs: map<Uuid, Bytes>, l: Locator): Option<Bytes>
    requires l.packId in packs
  {
    var stored := Within(packs[l.packId], l.offset, l.storedLen);
    if l.codec.Raw? then Some(stored) else lib.decompress(stored, l.len)
  }

  /**
   * Which answer `get` gives, in any store, sound or damaged: whatever has rotted, a text that is
   * handed out has the digest asked for, and every other case is told apart by the row and the
   * bytes of its pack.
   */
  lemma GetExactly(lib: Lib, index: map<Hash, Bytes>, packs: map<Uuid, Bytes>, h: Hash)
    ensures var r := Get(lib, index, packs, h);
      && (forall p :: r == Ok(Some(p)) ==> lib.hash(p) == h)
      && (r == Ok(None) <==> h !in index)
      && (r == Err(BadIndex) <==> h in index && DecodeLocator(index[h]).Err?)
      && (h in index && DecodeLocator(index[h]).Ok? ==>
            var l := DecodeLocator(index[h]).value;
            && (r == Err(MissingChunk(h)) <==> l.packId !in packs)
            && (l.packId in packs ==>
                  var t := TextAt(lib, packs, l);
                  && (r == Err(CorruptChunk(h)) <==> t.None? || lib.hash(t.value) != h)
                  && (r.Ok? <==> t.Some? && lib.hash(t.value) == h)
                  && (r.Ok? ==> r == Ok(t))))
  {
    BadRow(index, h);
    if h in index && DecodeLocator(index[h]).Ok? {
      var l := DecodeLocator(index[h]).value;
      if l.packId in packs {
        RangeWithin(packs, l.packId, l.offset, l.storedLen);
      }
    }
  }

  lemma BadRow(index: map<Hash, Bytes>, h: Hash)
    ensures h in index && DecodeLocator(index[h]).Err? ==> DecodeLocator(index[h]) == Err(BadIndex)
  {
  }

  lemma RangeWithin(packs: map<Uuid, Bytes>, id: Uuid, offset: nat, len: nat)
    requires id in packs
    ensures GetRange(packs, id, offset, len) == Some(Within(packs[id], offset, len))
  {
    var b := packs[id];
    assert b[|b|..] == [] && b[Min(offset, |b|)..|b|] == b[Min(offset, |b|)..];
    if offset < |b| && offset + len < |b| {
      assert Min(offset, |b|) == offset && Min(offset + len, |b|) == offset + len;
    }
  }

  // ----- the row invariant and the abstract value ------------------------

  function Loc(row: Bytes): Locator {
    match DecodeLocator(row)
    case Ok(l) => l
    case Err(_) => Locator(Zeros(16), 0, 0, 0, Raw)
  }

  /** `l` names bytes that exist, fit, and decode to a text of the right length and digest. */
  ghost predicate LocOk(lib: Lib, packs: map<Uuid, Bytes>, h: Hash, l: Locator) {
    && l.packId in packs
    && l.offset + l.storedLen <= |packs[l.packId]|
    && l.storedLen <= l.len
    && Plain(lib, packs, l).Some?
    && |Plain(lib, packs, l).value| == l.len
    && lib.hash(Plain(lib, packs, l).value) == h
  }

  ghost predicate RowOk(lib: Lib, packs: map<Uuid, Bytes>, h: Hash, row: Bytes) {
    DecodeLocator(row).Ok? && LocOk(lib, packs, h, Loc(row))
  }

  predicate Apart(a: Locator, b: Locator) {
    a.packId != b.packId || a.offset + a.storedLen <= b.offset || b.offset + b.storedLen <= a.offset
  }

  /** Every row is sound and no two rows share a byte. */
  ghost predicate RowsInv(lib: Lib, index: map<Hash, Bytes>, packs: map<Uuid, Bytes>) {
    && (forall h :: h in index ==> RowOk(lib, packs, h, index[h]))
    && (forall h, k :: h in index && k in index && h != k ==> Apart(Loc(index[h]), Loc(index[k])))
  }

  /** The in-memory active pack agrees with the disk. */
  ghost predicate ActiveInv(s: Store) {
    s.active in s.packs && s.size == |s.packs[s.active]|
  }

  ghost predicate StoreInv(lib: Lib, s: Store) {
    RowsInv(lib, s.index, s.packs) && ActiveInv(s) && s.saved == Some(s.active)
  }

  /** The map from digest to plaintext that the store stands for. */
  ghost function Abs(lib: Lib, index: map<Hash, Bytes>, packs: map<Uuid, Bytes>): map<Hash, Bytes> {
    map h | h in index && Plain(lib, packs, Loc(index[h])).Some? :: Plain(lib, packs, Loc(index[h])).value
  }

  /** Insertion that leaves an existing entry alone. */
  function Insert(m: map<Hash, Bytes>, h: Hash, plain: Bytes): map<Hash, Bytes> {
    if h in m then m else m[h := plain]
  }

  /** The next `n` random identifiers are new and distinct. */
  ghost predicate Fresh(lib: Lib, s: Store, n: nat) {
    && (forall i :: s.drawn <= i < s.drawn + n ==> lib.uuid(i) !in s.packs)
    && (forall i, j :: s.drawn <= i < j < s.drawn + n ==> lib.uuid(i) != lib.uuid(j))
  }

  // ----- the steps ------------------------------------------------------

  /** `File::create` of the next pack, together with the in-memory switch to it. */
  function CreatePack(lib: Lib, s: Store): Store {
    var id := lib.uuid(s.drawn);
    s.(packs := s.packs[id := []], active := id, size := 0, drawn := s.drawn + 1)
  }

  /** The stats transaction that makes a restart resume the active pack. */
  function SaveActive(s: Store): Store {
    s.(saved := Some(s.active))
  }

  function Roll(lib: Lib, s: Store): Store {
    SaveActive(CreatePack(lib, s))
  }

  function RollIfFull(lib: Lib, s: Store): Store {
    if s.size >= lib.rollover then Roll(lib, s) else s
  }

  function AppendTo(s: Store, b: Bytes): Store
    requires s.active in s.packs
  {
    s.(packs := s.packs[s.active := s.packs[s.active] + b], size := s.size + |b|)
  }

  function SetRow(s: Store, h: Hash, l: Locator): Store {
    s.(index := s.index[h := EncodeLocator(l)])
  }

  function DropRows(s: Store, gone: set<Hash>): Store {
    s.(index := s.index - gone)
  }

  function DeletePack(s: Store, id: Uuid): Store {
    s.(packs := s.packs - {id})
  }

  function SizeOf(packs: map<Uuid, Bytes>, id: Uuid): nat {
    if id in packs then |packs[id]| else 0
  }

  /** What a restart makes of the disk: the saved pack with its real length, or a new pack. */
  function Reopen(lib: Lib, s: Store): Store {
    match s.saved
    case Some(id) => s.(active := id, size := SizeOf(s.packs, id))
    case None => Roll(lib, s)
  }

  /** The locator of bytes about to be appended. */
  function NextLocator(s: Store, len: nat, storedLen: nat, codec: Codec): Locator
    requires s.size < U64_LIMIT
  {
    Locator(s.active, s.size, len % U32_LIMIT, storedLen % U32_LIMIT, codec)
  }

  /**
   * `put_chunk`: a dedup hit returns the codec already stored; otherwise encode, roll the
   * pack if it is full, append, and commit the row.
   */
  function Put(lib: Lib, s: Store, h: Hash, plain: Bytes, comp: Compression): (Store, Result<Codec>) {
    match Locate(s.index, h)
    case Err(e) => (s, Err(e))
    case Ok(Some(l)) => (s, Ok(l.codec))
    case Ok(None) =>
      var t := RollIfFull(lib, s);
      if t.active !in t.packs then (t, Err(Io))
      else (PutNew(lib, s, h, plain, comp), Ok(Encode(lib, comp, plain).0))
  }

  // ----- what the steps keep ---------------------------------------------

  /** Bytes once written stay where they are. */
  ghost predicate Extends(old_: map<Uuid, Bytes>, new_: map<Uuid, Bytes>) {
    forall id :: id in old_ ==> id in new_ && old_[id] <= new_[id]
  }

  lemma ExtendsTransitive(a: map<Uuid, Bytes>, b: map<Uuid, Bytes>, c: map<Uuid, Bytes>)
    requires Extends(a, b) && Extends(b, c)
    ensures Extends(a, c)
  {
  }

  /** A sound locator reads the same bytes after any later append, creation or unrelated deletion. */
  lemma LocFrame(lib: Lib, before: map<Uuid, Bytes>, after: map<Uuid, Bytes>, h: Hash, l: Locator)
    requires LocOk(lib, before, h, l)
    requires l.packId in after && before[l.packId] <= after[l.packId]
    ensures Plain(lib, after, l) == Plain(lib, before, l)
    ensures LocOk(lib, after, h, l)
  {
    hide Decode;
    var b, a := before[l.packId], after[l.packId];
    assert a[..|b|] == b;
    assert a[l.offset..l.offset + l.storedLen] == b[l.offset..l.offset + l.storedLen];
  }

  lemma RowFrame(lib: Lib, before: map<Uuid, Bytes>, after: map<Uuid, Bytes>, h: Hash, row: Bytes)
    requires RowOk(lib, before, h, row)
    requires Loc(row).packId in before && Loc(row).packId in after && before[Loc(row).packId] <= after[Loc(row).packId]
    ensures RowOk(lib, after, h, row)
    ensures Plain(lib, after, Loc(row)) == Plain(lib, before, Loc(row))
  {
    hide DecodeLocator, LocOk, Plain, Loc;
    LocFrame(lib, before, after, h, Loc(row));
  }

  lemma AbsFrame(lib: Lib, index: map<Hash, Bytes>, before: map<Uuid, Bytes>, after: map<Uuid, Bytes>)
    requires forall h :: h in index ==> Plain(lib, after, Loc(index[h])) == Plain(lib, before, Loc(index[h]))
    ensures Abs(lib, index, after) == Abs(lib, index, before)
  {
    hide Plain, Loc;
  }

  /** Every row's pack is still there and begins as it did. */
  ghost predicate Undisturbed(index: map<Hash, Bytes>, before: map<Uuid, Bytes>, after: map<Uuid, Bytes>) {
    forall h :: h in index ==>
      && Loc(index[h]).packId in before && Loc(index[h]).packId in after
      && before[Loc(index[h]).packId] <= after[Loc(index[h]).packId]
  }

  /** Changing pack bytes that no row reads changes neither the rows' soundness nor the abstract map. */
  lemma RowsFrame(lib: Lib, index: map<Hash, Bytes>, before: map<Uuid, Bytes>, after: map<Uuid, Bytes>)
    requires RowsInv(lib, index, before) && Undisturbed(index, before, after)
    ensures RowsInv(lib, index, after)
    ensures Abs(lib, index, after) == Abs(lib, index, before)
  {
    hide Loc, Plain, Apart, RowOk, Abs;
    forall h | h in index
      ensures RowOk(lib, after, h, index[h])
      ensures Plain(lib, after, Loc(index[h])) == Plain(lib, before, Loc(index[h]))
    {
      RowFrame(lib, before, after, h, index[h]);
    }
    AbsFrame(lib, index, before, after);
  }

  /** Under the invariant `get` is lookup in the abstract map. */
  lemma GetRefines(lib: Lib, index: map<Hash, Bytes>, packs: map<Uuid, Bytes>, h: Hash)
    requires RowsInv(lib, index, packs)
    ensures Abs(lib, index, packs).Keys == index.Keys
    ensures var m := Abs(lib, index, packs);
      Get(lib, index, packs, h) == Ok(if h in m then Some(m[h]) else None)
    ensures h in index ==> lib.hash(Abs(lib, index, packs)[h]) == h
  {
    hide DecodeLocator, GetRange;
    assert forall k :: k in index ==> RowOk(lib, packs, k, index[k]);
    assert Abs(lib, index, packs).Keys == index.Keys;
  }

  lemma LocOfEncode(l: Locator)
    ensures DecodeLocator(EncodeLocator(l)).Ok? && Loc(EncodeLocator(l)) == l
  {
    hide DecodeLocator, EncodeLocator;
    LocatorRoundTrip(l);
  }

  lemma SetRowAbs(lib: Lib, index: map<Hash, Bytes>, packs: map<Uuid, Bytes>, h: Hash, l: Locator)
    requires Plain(lib, packs, l).Some?
    ensures Abs(lib, index[h := EncodeLocator(l)], packs)
         == Abs(lib, index, packs)[h := Plain(lib, packs, l).value]
  {
    hide DecodeLocator, EncodeLocator, Plain, Loc;
    LocOfEncode(l);
  }

  lemma SetRowRows(lib: Lib, index: map<Hash, Bytes>, packs: map<Uuid, Bytes>, h: Hash, l: Locator)
    requires RowsInv(lib, index, packs)
    requires LocOk(lib, packs, h, l)
    requires forall k :: k in index && k != h ==> Apart(Loc(index[k]), l)
    ensures RowsInv(lib, index[h := EncodeLocator(l)], packs)
  {
    hide DecodeLocator, EncodeLocator, Plain, Loc, LocOk;
    LocOfEncode(l);
    var next := index[h := EncodeLocator(l)];
    forall k | k in next ensures RowOk(lib, packs, k, next[k]) {
      if k != h { assert RowOk(lib, packs, k, index[k]); }
    }
    forall j, k | j in next && k in next && j != k ensures Apart(Loc(next[j]), Loc(next[k])) {
      if j == h { assert Apart(Loc(index[k]), l); }
    }
  }

  /** Committing a row for bytes that are in place and that no other row reads. */
  lemma SetRowKeeps(lib: Lib, index: map<Hash, Bytes>, packs: map<Uuid, Bytes>, h: Hash, l: Locator)
    requires RowsInv(lib, index, packs)
    requires LocOk(lib, packs, h, l)
    requires forall k :: k in index && k != h ==> Apart(Loc(index[k]), l)
    ensures var next := index[h := EncodeLocator(l)];
      && RowsInv(lib, next, packs)
      && Abs(lib, next, packs) == Abs(lib, index, packs)[h := Plain(lib, packs, l).value]
      && Loc(next[h]) == l
  {
    hide DecodeLocator, EncodeLocator, Plain, Loc, RowsInv, Abs;
    LocOfEncode(l);
    SetRowAbs(lib, index, packs, h, l);
    SetRowRows(lib, index, packs, h, l);
  }

  lemma DropRowsKeeps(lib: Lib, index: map<Hash, Bytes>, packs: map<Uuid, Bytes>, gone: set<Hash>)
    requires RowsInv(lib, index, packs)
    ensures RowsInv(lib, index - gone, packs)
    ensures Abs(lib, index - gone, packs) == Abs(lib, index, packs) - gone
  {
    hide DecodeLocator, GetRange, Plain, Loc;
    var next := index - gone;
    forall k | k in next ensures RowOk(lib, packs, k, next[k]) {
      assert RowOk(lib, packs, k, index[k]);
    }
  }

  /** Appending cannot disturb a row, and the appended bytes are apart from every row. */
  lemma AppendKeeps(lib: Lib, s: Store, b: Bytes)
    requires RowsInv(lib, s.index, s.packs) && ActiveInv(s)
    ensures var t := AppendTo(s, b);
      && RowsInv(lib, t.index, t.packs) && ActiveInv(t)
      && Abs(lib, t.index, t.packs) == Abs(lib, s.index, s.packs)
      && Extends(s.packs, t.packs)
  {
    hide DecodeLocator, GetRange, Plain, Loc;
    var t := AppendTo(s, b);
    assert forall h :: h in s.index ==> RowOk(lib, s.packs, h, s.index[h]);
    RowsFrame(lib, s.index, s.packs, t.packs);
  }

  lemma CreatePackKeeps(lib: Lib, s: Store)
    requires RowsInv(lib, s.index, s.packs) && Fresh(lib, s, 1)
    ensures var t := CreatePack(lib, s);
      && RowsInv(lib, t.index, t.packs) && ActiveInv(t)
      && Abs(lib, t.index, t.packs) == Abs(lib, s.index, s.packs)
      && Extends(s.packs, t.packs)
  {
    hide DecodeLocator, GetRange, Plain, Loc, Decode;
    var t := CreatePack(lib, s);
    assert lib.uuid(s.drawn) !in s.packs;
    assert forall h :: h in s.index ==> RowOk(lib, s.packs, h, s.index[h]);
    RowsFrame(lib, s.index, s.packs, t.packs);
  }

  lemma DeletePackKeeps(lib: Lib, s: Store, id: Uuid)
    requires RowsInv(lib, s.index, s.packs)
    requires forall h :: h in s.index ==> Loc(s.index[h]).packId != id
    ensures var t := DeletePack(s, id);
      RowsInv(lib, t.index, t.packs) && Abs(lib, t.index, t.packs) == Abs(lib, s.index, s.packs)
  {
    hide DecodeLocator, GetRange, Plain, Loc;
    assert forall h :: h in s.index ==> RowOk(lib, s.packs, h, s.index[h]);
    RowsFrame(lib, s.index, s.packs, s.packs - {id});
  }

  lemma RollIfFullKeeps(lib: Lib, s: Store)
    requires StoreInv(lib, s) && Fresh(lib, s, 1)
    ensures var t := RollIfFull(lib, s);
      && StoreInv(lib, t) && Extends(s.packs, t.packs)
      && t.index == s.index && t.manifests == s.manifests
      && Abs(lib, t.index, t.packs) == Abs(lib, s.index, s.packs)
      && t.size < U64_LIMIT
  {
    if s.size >= lib.rollover {
      CreatePackKeeps(lib, s);
    }
  }

  /** Freshness survives drawing an identifier and appending. */
  lemma FreshAfterRoll(lib: Lib, s: Store, n: nat)
    requires Fresh(lib, s, n + 1)
    ensures Fresh(lib, Roll(lib, s), n)
    ensures Fresh(lib, RollIfFull(lib, s), n)
  {
  }

  /**
   * The text just appended, found through its locator. The length is below 2^32, so the
   * narrowing to 32 bits in the locator loses nothing.
   */
  lemma AppendedLocator(lib: Lib, s: Store, h: Hash, plain: Bytes, codec: Codec, stored: Bytes)
    requires ActiveInv(s) && s.size < U64_LIMIT
    requires |plain| < U32_LIMIT && |stored| <= |plain|
    requires Decode(lib, codec, stored, |plain|) == Some(plain) && lib.hash(plain) == h
    ensures var l := NextLocator(s, |plain|, |stored|, codec);
      LocOk(lib, AppendTo(s, stored).packs, h, l) && Plain(lib, AppendTo(s, stored).packs, l) == Some(plain)
  {
    var l := NextLocator(s, |plain|, |stored|, codec);
    assert l.len == |plain| && l.storedLen == |stored|;
    var t := AppendTo(s, stored);
    assert t.packs[s.active][s.size..s.size + |stored|] == stored;
  }

  /** Bytes at or past the end of the active pack are apart from every row. */
  lemma NextIsApart(lib: Lib, s: Store, l: Locator)
    requires RowsInv(lib, s.index, s.packs) && ActiveInv(s)
    requires l.packId == s.active && l.offset >= s.size
    ensures forall k :: k in s.index ==> Apart(Loc(s.index[k]), l)
  {
    hide DecodeLocator, GetRange, Plain, Loc;
    assert forall k :: k in s.index ==> RowOk(lib, s.packs, k, s.index[k]);
  }

  /** Storing a text whose digest is not indexed yet: encode, roll if full, append, commit. */
  function PutNew(lib: Lib, s: Store, h: Hash, plain: Bytes, comp: Compression): Store
    requires RollIfFull(lib, s).active in RollIfFull(lib, s).packs
  {
    var (codec, stored) := Encode(lib, comp, plain);
    var t := RollIfFull(lib, s);
    SetRow(AppendTo(t, stored), h, NextLocator(t, |plain|, |stored|, codec))
  }

  /** Appending a new text to the active pack and committing its row. */
  lemma AppendRowRefines(lib: Lib, t: Store, h: Hash, plain: Bytes, comp: Compression)
    requires Lossless(lib) && RowsInv(lib, t.index, t.packs) && ActiveInv(t) && t.size < U64_LIMIT
    requires h == lib.hash(plain) && |plain| < U32_LIMIT && h !in t.index
    ensures var (codec, stored) := Encode(lib, comp, plain);
      var u := SetRow(AppendTo(t, stored), h, NextLocator(t, |plain|, |stored|, codec));
      && RowsInv(lib, u.index, u.packs) && ActiveInv(u) && Extends(t.packs, u.packs)
      && Abs(lib, u.index, u.packs) == Abs(lib, t.index, t.packs)[h := plain]
      && h in u.index && Loc(u.index[h]).codec == codec
      && u.manifests == t.manifests && u.saved == t.saved && u.active == t.active
  {
    hide DecodeLocator, EncodeLocator, Plain, LocOk, Encode, Decode, RowsInv, Abs;
    EncodeRoundTrip(lib, comp, plain);
    var (codec, stored) := Encode(lib, comp, plain);
    var u := AppendTo(t, stored);
    AppendKeeps(lib, t, stored);
    AppendedLocator(lib, t, h, plain, codec, stored);
    var l := NextLocator(t, |plain|, |stored|, codec);
    NextIsApart(lib, t, l);
    SetRowKeeps(lib, u.index, u.packs, h, l);
  }

  lemma PutNewRefines(lib: Lib, s: Store, h: Hash, plain: Bytes, comp: Compression)
    requires Lossless(lib) && StoreInv(lib, s) && Fresh(lib, s, 1)
    requires h == lib.hash(plain) && |plain| < U32_LIMIT && h !in s.index
    requires RollIfFull(lib, s).active in RollIfFull(lib, s).packs
    ensures var t := PutNew(lib, s, h, plain, comp);
      && StoreInv(lib, t) && Extends(s.packs, t.packs)
      && Abs(lib, t.index, t.packs) == Abs(lib, s.index, s.packs)[h := plain]
      && h in t.index && Loc(t.index[h]).codec == Encode(lib, comp, plain).0
      && t.manifests == s.manifests
  {
    hide Encode, RowsInv, RollIfFull, Abs, AppendTo, SetRow, NextLocator, Extends, Loc, Lossless;
    RollIfFullKeeps(lib, s);
    var t := RollIfFull(lib, s);
    AppendRowRefines(lib, t, h, plain, comp);
    ExtendsTransitive(s.packs, t.packs, PutNew(lib, s, h, plain, comp).packs);
  }

  /**
   * `put_chunk` keeps the invariant and refines insertion-if-absent into the abstract map.
   * Nothing already stored is disturbed, whatever the compression policy.
   */
  lemma PutRefines(lib: Lib, s: Store, h: Hash, plain: Bytes, comp: Compression)
    requires Lossless(lib) && StoreInv(lib, s) && Fresh(lib, s, 1)
    requires h == lib.hash(plain) && |plain| < U32_LIMIT
    ensures var (t, r) := Put(lib, s, h, plain, comp);
      && StoreInv(lib, t) && Extends(s.packs, t.packs)
      && Abs(lib, t.index, t.packs) == Insert(Abs(lib, s.index, s.packs), h, plain)
      && h in t.index && r == Ok(Loc(t.index[h]).codec)
      && t.manifests == s.manifests
  {
    hide DecodeLocator, EncodeLocator, Plain, LocOk, Encode, Abs;
    GetRefines(lib, s.index, s.packs, h);
    if h in s.index {
      assert RowOk(lib, s.packs, h, s.index[h]);
    } else {
      RollIfFullKeeps(lib, s);
      PutNewRefines(lib, s, h, plain, comp);
    }
  }

  /**
   * Where and how a text is put, exactly and in any store. A text whose digest has a row leaves
   * the store alone. Any other is appended, encoded as its policy promises, to the active pack if
   * that is below the size at which packs are closed and else to a new one; the row names the
   * place, the two lengths and the codec; no other row, byte or manifest changes.
   */
  ghost predicate PutAt(lib: Lib, s: Store, t: Store, h: Hash, plain: Bytes, comp: Compression, codec: Codec,
                        stored: Bytes) {
    var rolls := s.size >= lib.rollover;
    var id := if rolls then lib.uuid(s.drawn) else s.active;
    var before := if rolls || id !in s.packs then [] else s.packs[id];
    && AsPromised(lib, comp, plain, codec, stored)
    && t.packs == s.packs[id := before + stored]
    && h in t.index && t.index == s.index[h := t.index[h]]
    && DecodeLocator(t.index[h])
       == Ok(Locator(id, if rolls then 0 else s.size, |plain| % U32_LIMIT, |stored| % U32_LIMIT, codec))
    && t.manifests == s.manifests && t.active == id
    && t.size == (if rolls then 0 else s.size) + |stored|
    && t.saved == (if rolls then Some(id) else s.saved)
  }

  lemma PutExactly(lib: Lib, s: Store, h: Hash, plain: Bytes, comp: Compression)
    ensures var (t, r) := Put(lib, s, h, plain, comp);
      && (h in s.index ==> t == s)
      && (h !in s.index && r.Ok? ==> exists stored :: PutAt(lib, s, t, h, plain, comp, r.value, stored))
  {
    hide EncodeLocator, DecodeLocator, Encode, AsPromised;
    if h !in s.index && RollIfFull(lib, s).active in RollIfFull(lib, s).packs {
      EncodeKeepsPromise(lib, comp, plain);
      var (codec, stored) := Encode(lib, comp, plain);
      var u := RollIfFull(lib, s);
      LocatorRoundTrip(NextLocator(u, |plain|, |stored|, codec));
      var t := PutNew(lib, s, h, plain, comp);
      assert t.packs == s.packs[u.active := u.packs[u.active] + stored];
      assert PutAt(lib, s, t, h, plain, comp, codec, stored);
    }
  }

  lemma PutFresh(lib: Lib, s: Store, h: Hash, plain: Bytes, comp: Compression, n: nat)
    requires Fresh(lib, s, n + 1)
    ensures Fresh(lib, Put(lib, s, h, plain, comp).0, n)
  {
    hide DecodeLocator, EncodeLocator, RowsInv, Encode, Loc;
    FreshAfterRoll(lib, s, n);
  }

  /**
   * A restart of a disk whose rows are sound and whose saved pack exists resumes that pack
   * at its real length, whatever unindexed bytes a crash left behind.
   */
  lemma ReopenRecovers(lib: Lib, s: Store)
    requires RowsInv(lib, s.index, s.packs)
    requires s.saved.Some? && s.saved.value in s.packs
    ensures StoreInv(lib, Reopen(lib, s))
    ensures Abs(lib, Reopen(lib, s).index, Reopen(lib, s).packs) == Abs(lib, s.index, s.packs)
  {
  }
}
