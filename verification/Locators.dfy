/** The fixed-size index rows: chunk locators and their little-endian encoding. */
module Locators {
  import opened Base
  import opened Types

  datatype Locator = Locator(packId: Uuid, offset: u64, len: u32, storedLen: u32, codec: Codec)

  function Tag(c: Codec): byte {
    match c
    case Raw => 0
    case Zstd => 1
  }

  function OfTag(b: byte): Option<Codec> {
    if b == 0 then Some(Raw) else if b == 1 then Some(Zstd) else None
  }

  function Pow256(w: nat): nat {
    if w == 0 then 1 else 256 * Pow256(w - 1)
  }

  lemma Pow256Values()
    ensures Pow256(4) == U32_LIMIT && Pow256(8) == U64_LIMIT
  {
    assert Pow256(2) == 65536;
    assert Pow256(4) == U32_LIMIT;
    assert Pow256(6) == 65536 * U32_LIMIT;
  }

  function ToLittleEndian(n: nat, w: nat): (b: Bytes)
    ensures |b| == w
  {
    if w == 0 then [] else [n % 256] + ToLittleEndian(n / 256, w - 1)
  }

  function FromLittleEndian(b: Bytes): (n: nat)
    ensures n < Pow256(|b|)
  {
    if b == [] then 0 else b[0] + 256 * FromLittleEndian(b[1..])
  }

  lemma {:induction false} LittleEndianRoundTrip(n: nat, w: nat)
    requires n < Pow256(w)
    ensures FromLittleEndian(ToLittleEndian(n, w)) == n
  {
    if w > 0 {
      LittleEndianRoundTrip(n / 256, w - 1);
      assert ToLittleEndian(n, w)[1..] == ToLittleEndian(n / 256, w - 1);
    }
  }

  lemma {:induction false} LittleEndianInverse(b: Bytes)
    ensures ToLittleEndian(FromLittleEndian(b), |b|) == b
  {
    if b != [] {
      LittleEndianInverse(b[1..]);
      var n := FromLittleEndian(b);
      assert n % 256 == b[0] && n / 256 == FromLittleEndian(b[1..]);
    }
  }

  function FromU32(b: Bytes): u32
    requires |b| == 4
  {
    Pow256Values();
    FromLittleEndian(b)
  }

  function FromU64(b: Bytes): u64
    requires |b| == 8
  {
    Pow256Values();
    FromLittleEndian(b)
  }

  /** The 34-byte row written today. */
  function EncodeLocator(l: Locator): Bytes {
    l.packId + ToLittleEndian(l.offset, 8) + ToLittleEndian(l.storedLen, 4)
    + ToLittleEndian(l.len, 4) + [Tag(l.codec)] + [0]
  }

  /** Reads the current row and the older 28-byte row of uncompressed chunks. */
  function DecodeLocator(row: Bytes): Result<Locator> {
    if |row| == 28 then
      var len := FromU32(row[24..28]);
      Ok(Locator(row[0..16], FromU64(row[16..24]), len, len, Raw))
    else if |row| == 34 then
      match OfTag(row[32])
      case None => Err(BadIndex)
      case Some(codec) =>
        Ok(Locator(row[0..16], FromU64(row[16..24]), FromU32(row[28..32]), FromU32(row[24..28]), codec))
    else
      Err(BadIndex)
  }

  /** A row just written reads back as the locator it was written from. */
  lemma LocatorRoundTrip(l: Locator)
    ensures |EncodeLocator(l)| == 34
    ensures DecodeLocator(EncodeLocator(l)) == Ok(l)
  {
    hide ToLittleEndian, FromLittleEndian, Pow256;
    Pow256Values();
    LittleEndianRoundTrip(l.offset, 8);
    LittleEndianRoundTrip(l.storedLen, 4);
    LittleEndianRoundTrip(l.len, 4);
    var row := EncodeLocator(l);
    assert row[0..16] == l.packId;
    assert row[16..24] == ToLittleEndian(l.offset, 8);
    assert row[24..28] == ToLittleEndian(l.storedLen, 4);
    assert row[28..32] == ToLittleEndian(l.len, 4);
    assert row[32] == Tag(l.codec);
  }

  /** Where each part of a row is, byte by byte, least significant first. */
  lemma RowLayout(l: Locator)
    ensures var row := EncodeLocator(l);
      && |row| == 34 && row[..16] == l.packId
      && l.offset == Four(row, 16) + U32_LIMIT * Four(row, 20)
      && l.storedLen == Four(row, 24) && l.len == Four(row, 28)
      && row[32] == (if l.codec.Raw? then 0 else 1) && row[33] == 0
  {
    hide ToLittleEndian, FromLittleEndian, Pow256;
    Pow256Values();
    var row := EncodeLocator(l);
    assert row[..16] == l.packId;
    assert row[16..24] == ToLittleEndian(l.offset, 8);
    assert row[24..28] == ToLittleEndian(l.storedLen, 4);
    assert row[28..32] == ToLittleEndian(l.len, 4);
    LittleEndianRoundTrip(l.offset, 8);
    LittleEndianRoundTrip(l.storedLen, 4);
    LittleEndianRoundTrip(l.len, 4);
    EightAt(row, 16);
    FourAt(row, 24);
    FourAt(row, 28);
  }

  function Four(b: Bytes, i: nat): int
    requires i + 4 <= |b|
  {
    (b[i] as int) + 0x100 * (b[i + 1] as int) + 0x1_0000 * (b[i + 2] as int) + 0x100_0000 * (b[i + 3] as int)
  }

  lemma OneMore(b: Bytes, i: nat, w: nat)
    requires w > 0 && i + w <= |b|
    ensures FromLittleEndian(b[i..i + w]) == b[i] as int + 256 * FromLittleEndian(b[i + 1..i + w])
  {
    assert b[i..i + w][1..] == b[i + 1..i + w];
  }

  lemma {:induction false} Lifted(b: Bytes, i: nat, w: nat)
    requires 4 <= w && i + w <= |b|
    ensures FromLittleEndian(b[i..i + w]) == Four(b, i) + U32_LIMIT * FromLittleEndian(b[i + 4..i + w])
  {
    hide FromLittleEndian;
    OneMore(b, i, w);
    OneMore(b, i + 1, w - 1);
    OneMore(b, i + 2, w - 2);
    OneMore(b, i + 3, w - 3);
  }

  lemma FourAt(b: Bytes, i: nat)
    requires i + 4 <= |b|
    ensures FromLittleEndian(b[i..i + 4]) == Four(b, i)
  {
    Lifted(b, i, 4);
    assert b[i + 4..i + 4] == [];
  }

  lemma EightAt(b: Bytes, i: nat)
    requires i + 8 <= |b|
    ensures FromLittleEndian(b[i..i + 8]) == Four(b, i) + U32_LIMIT * Four(b, i + 4)
  {
    hide FromLittleEndian;
    Lifted(b, i, 8);
    FourAt(b, i + 4);
  }

  /** Which byte strings are rows at all, and what re-encoding one gives. */
  lemma LocatorRows(row: Bytes)
    ensures DecodeLocator(row).Ok? <==> |row| == 28 || (|row| == 34 && row[32] <= 1)
    ensures |row| == 34 && row[32] <= 1 ==> EncodeLocator(DecodeLocator(row).value) == row[..33] + [0]
    ensures |row| == 28 ==>
      var l := DecodeLocator(row).value;
      EncodeLocator(l) == row + row[24..28] + [0, 0] && l.storedLen == l.len && l.codec == Raw
  {
    hide ToLittleEndian, FromLittleEndian, Pow256;
    if |row| == 28 {
      LittleEndianInverse(row[16..24]);
      LittleEndianInverse(row[24..28]);
      assert row == row[0..16] + row[16..24] + row[24..28];
    } else if |row| == 34 && row[32] <= 1 {
      LittleEndianInverse(row[16..24]);
      LittleEndianInverse(row[24..28]);
      LittleEndianInverse(row[28..32]);
      assert row[..33] == row[0..16] + row[16..24] + row[24..28] + row[28..32] + [row[32]];
    }
  }
}
