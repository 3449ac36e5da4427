/** Bytes, digests, identifiers and the failure types shared by every module. */
module Base {

  type byte = x: int | 0 <= x < 256
  type Bytes = seq<byte>

  const U32_LIMIT := 0x1_0000_0000
  const U64_LIMIT := 0x1_0000_0000_0000_0000

  type u32 = x: int | 0 <= x < U32_LIMIT
  type u64 = x: int | 0 <= x < U64_LIMIT

  function Zeros(n: nat): Bytes {
    seq(n, i requires 0 <= i < n => 0 as byte)
  }

  /** A BLAKE3-256 digest. */
  type Hash = h: Bytes | |h| == 32 witness Zeros(32)

  /** A pack file's identifier. */
  type Uuid = u: Bytes | |u| == 16 witness Zeros(16)

  datatype Option<+T> = None | Some(value: T)

  datatype StoreError =
    | Io
    | BadIndex
    | MissingChunk(hash: Hash)
    | CorruptChunk(hash: Hash)
    | SnapshotNotFound(id: nat)
    | CapacityOverflow

  datatype Result<+T> = Ok(value: T) | Err(error: StoreError)

  function Min(a: int, b: int): int {
    if a <= b then a else b
  }

  function Max(a: int, b: int): int {
    if a >= b then a else b
  }
}
