/** The external functions the repository calls, and the compression policy built on them. */
module Library {
  import opened Base
  import opened Types

  /**
   * `hash` is BLAKE3, `compress` and `decompress` are zstd (the latter bounded by a
   * capacity), `uuid(i)` is the i-th random pack identifier, `rollover` is the pack size
   * past which the next append starts a fresh pack, and `json` serialises a snapshot.
   */
  datatype Lib = Lib(
    hash: Bytes -> Hash,
    compress: (int, Bytes) -> Option<Bytes>,
    decompress: (Bytes, nat) -> Option<Bytes>,
    uuid: nat -> Uuid,
    rollover: u64,
    json: Snapshot -> Bytes)

  /** The one property of zstd the repository relies on. */
  ghost predicate Lossless(lib: Lib) {
    forall level: int, p: Bytes, c: Bytes {:trigger lib.compress(level, p), lib.decompress(c, |p|)} ::
      lib.compress(level, p) == Some(c) ==> lib.decompress(c, |p|) == Some(p)
  }

  /** No two of these byte strings share a digest. */
  ghost predicate CollisionFree(lib: Lib, texts: set<Bytes>) {
    forall a, b :: a in texts && b in texts && lib.hash(a) == lib.hash(b) ==> a == b
  }

  datatype Compression = Off | Auto(level: int) | Always(level: int)

  function ClampLevel(level: int): int {
    if level < 1 then 1 else if level > 22 then 22 else level
  }

  /** The codec and the bytes to store for `plain`. */
  function Encode(lib: Lib, comp: Compression, plain: Bytes): (Codec, Bytes) {
    if comp.Off? then (Raw, plain)
    else
      match lib.compress(ClampLevel(comp.level), plain)
      case None => (Raw, plain)
      case Some(c) =>
        var keep := if comp.Always? then |c| < |plain| else |c| * 100 < |plain| * 97;
        if keep then (Zstd, c) else (Raw, plain)
  }

  function Decode(lib: Lib, codec: Codec, stored: Bytes, len: nat): Option<Bytes> {
    match codec
    case Raw => Some(stored)
    case Zstd => lib.decompress(stored, len)
  }

  /**
   * What a policy promises about the bytes kept for a text. Off keeps the text. Always keeps the
   * shorter of the text and its frame. Auto keeps a frame below 97 hundredths of the text, and
   * the text otherwise. Without a frame the text is kept.
   */
  ghost predicate AsPromised(lib: Lib, comp: Compression, plain: Bytes, codec: Codec, stored: Bytes) {
    && (codec.Raw? ==> stored == plain)
    && (comp.Off? ==> codec.Raw?)
    && (!comp.Off? ==>
          exists level: int :: Nearest(comp.level, level) &&
            match lib.compress(level, plain)
            case None => codec.Raw?
            case Some(frame) =>
              && (codec.Zstd? ==> stored == frame)
              && (comp.Always? ==> |stored| == Min(|frame|, |plain|))
              && (comp.Auto? && codec.Zstd? ==> |stored| * 100 < |plain| * 97)
              && (comp.Auto? && |frame| * 100 < |plain| * 97 ==> codec.Zstd?))
  }

  /** `level` is the compression level in range that is closest to the one asked for. */
  predicate Nearest(asked: int, level: int) {
    1 <= level <= 22 && (asked < level ==> level == 1) && (asked > level ==> level == 22)
  }

  lemma EncodeKeepsPromise(lib: Lib, comp: Compression, plain: Bytes)
    ensures var (codec, stored) := Encode(lib, comp, plain); AsPromised(lib, comp, plain, codec, stored)
  {
    if !comp.Off? {
      assert Nearest(comp.level, ClampLevel(comp.level));
    }
  }

  /** Whatever the policy picks decodes to the plaintext and never takes more room than it. */
  lemma EncodeRoundTrip(lib: Lib, comp: Compression, plain: Bytes)
    requires Lossless(lib)
    ensures var (codec, stored) := Encode(lib, comp, plain);
      && Decode(lib, codec, stored, |plain|) == Some(plain)
      && |stored| <= |plain|
      && (codec == Raw <==> |stored| == |plain|)
  {
    if !comp.Off? {
      var c := lib.compress(ClampLevel(comp.level), plain);
      if c.Some? {
        assert lib.decompress(c.value, |plain|) == Some(plain);
      }
    }
  }
}
