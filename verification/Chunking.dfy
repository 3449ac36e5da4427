/**
 * Content-defined chunking: the cutter, whole-buffer chunking, and the rolling-buffer
 * chunker that has to agree with it.
 */
module Chunking {
  import opened Base
  import opened Types
  import opened Library

  /**
   * The cutter's sizes and its per-position decisions. A decision may look at the bytes from
   * the start of the chunk up to the position, and is stricter before the average size.
   */
  datatype Cdc = Cdc(min: nat, avg: nat, max: nat, strict: Bytes -> bool, loose: Bytes -> bool)

  predicate ValidCdc(c: Cdc) {
    0 < c.min <= c.avg <= c.max
  }

  predicate Stops(c: Cdc, prefix: Bytes) {
    if |prefix| <= c.avg then c.strict(prefix) else c.loose(prefix)
  }

  function Scan(c: Cdc, w: Bytes, k: nat, limit: nat): nat
    requires k <= limit <= |w|
    decreases limit - k
  {
    if k == limit || Stops(c, w[..k + 1]) then k else Scan(c, w, k + 1, limit)
  }

  /** The length of the first chunk of `w`. */
  function Cut(c: Cdc, w: Bytes): nat
    requires ValidCdc(c)
  {
    if |w| <= c.min then |w| else Scan(c, w, c.min, Min(|w|, c.max))
  }

  lemma {:induction false} ScanBounds(c: Cdc, w: Bytes, k: nat, limit: nat)
    requires k <= limit <= |w|
    ensures k <= Scan(c, w, k, limit) <= limit
    decreases limit - k
  {
    if k < limit && !Stops(c, w[..k + 1]) {
      ScanBounds(c, w, k + 1, limit);
    }
  }

  lemma CutBounds(c: Cdc, w: Bytes)
    requires ValidCdc(c) && w != []
    ensures 0 < Cut(c, w) <= Min(|w|, c.max)
  {
    if |w| > c.min {
      ScanBounds(c, w, c.min, Min(|w|, c.max));
    }
  }

  /** The scan ends at the first stop, or at the limit. */
  lemma {:induction false} ScanFirst(c: Cdc, w: Bytes, k: nat, limit: nat)
    requires k <= limit <= |w|
    ensures var r := Scan(c, w, k, limit);
      && k <= r <= limit && (r < limit ==> Stops(c, w[..r + 1]))
      && forall j :: k < j <= r ==> !Stops(c, w[..j])
    decreases limit - k
  {
    if k < limit && !Stops(c, w[..k + 1]) {
      ScanFirst(c, w, k + 1, limit);
    }
  }

  /**
   * Where a chunk ends: never before the minimum size, at the first stop from there on, and at
   * the maximum size or the end of the bytes if there is none.
   */
  lemma CutExactly(c: Cdc, w: Bytes, n: nat)
    requires ValidCdc(c) && w != []
    ensures n == Cut(c, w) <==>
      && Min(|w|, c.min) <= n <= Min(|w|, c.max)
      && (n < Min(|w|, c.max) ==> Stops(c, w[..n + 1]))
      && forall j :: c.min < j <= n ==> !Stops(c, w[..j])
  {
    if |w| > c.min {
      ScanFirst(c, w, c.min, Min(|w|, c.max));
    }
  }

  lemma {:induction false} ScanStable(c: Cdc, w: Bytes, x: Bytes, k: nat, a: nat, b: nat)
    requires k <= a <= |w| && a <= b <= |w + x|
    requires Scan(c, w, k, a) < a || a == b
    ensures Scan(c, w + x, k, b) == Scan(c, w, k, a)
    decreases a - k
  {
    if k < a {
      assert (w + x)[..k + 1] == w[..k + 1];
      if !Stops(c, w[..k + 1]) {
        ScanStable(c, w, x, k + 1, a, b);
      }
    }
  }

  /** A cut inside the window, or a window of at least `max` bytes, settles the cut for good. */
  lemma CutStable(c: Cdc, w: Bytes, x: Bytes)
    requires ValidCdc(c) && w != []
    requires Cut(c, w) < |w| || c.max <= |w|
    ensures Cut(c, w + x) == Cut(c, w)
  {
    if |w| <= c.min {
      assert |w| == c.min == c.avg == c.max;
      if x != [] {
        assert Scan(c, w + x, c.min, c.max) == c.min;
      } else {
        assert w + x == w;
      }
    } else {
      ScanBounds(c, w, c.min, Min(|w|, c.max));
      ScanStable(c, w, x, c.min, Min(|w|, c.max), Min(|w + x|, c.max));
    }
  }

  /** Whole-buffer chunking. */
  function Cuts(c: Cdc, w: Bytes): seq<Bytes>
    requires ValidCdc(c)
  {
    if w == [] then []
    else
      CutBounds(c, w);
      [w[..Cut(c, w)]] + Cuts(c, w[Cut(c, w)..])
  }

  /** The descriptors of consecutive pieces, the first at `base`. */
  function Describe(lib: Lib, pieces: seq<Bytes>, base: nat): seq<Chunk> {
    if pieces == [] then []
    else [Chunk(base, |pieces[0]|, lib.hash(pieces[0]))] + Describe(lib, pieces[1..], base + |pieces[0]|)
  }

  /** Each piece has one descriptor, with its place, its length and its digest. */
  lemma {:induction false} DescribeExactly(lib: Lib, pieces: seq<Bytes>, base: nat, i: nat)
    requires i < |pieces|
    ensures |Describe(lib, pieces, base)| == |pieces|
    ensures Describe(lib, pieces, base)[i] == Chunk(base + |Flatten(pieces[..i])|, |pieces[i]|, lib.hash(pieces[i]))
  {
    if i > 0 {
      DescribeExactly(lib, pieces[1..], base + |pieces[0]|, i - 1);
      assert pieces[..i][1..] == pieces[1..][..i - 1];
    } else {
      DescribeLength(lib, pieces, base);
    }
  }

  lemma {:induction false} DescribeLength(lib: Lib, pieces: seq<Bytes>, base: nat)
    ensures |Describe(lib, pieces, base)| == |pieces|
  {
    if pieces != [] {
      DescribeLength(lib, pieces[1..], base + |pieces[0]|);
    }
  }

  lemma {:induction false} DescribeAppend(lib: Lib, a: seq<Bytes>, p: Bytes, base: nat)
    ensures Describe(lib, a + [p], base) == Describe(lib, a, base) + [Chunk(base + |Flatten(a)|, |p|, lib.hash(p))]
  {
    if a == [] {
      assert a + [p] == [p];
    } else {
      assert (a + [p])[1..] == a[1..] + [p];
      DescribeAppend(lib, a[1..], p, base + |a[0]|);
    }
  }

  lemma {:induction false} CutsFlatten(c: Cdc, w: Bytes)
    requires ValidCdc(c)
    ensures Flatten(Cuts(c, w)) == w
    decreases |w|
  {
    if w != [] {
      CutBounds(c, w);
      CutsFlatten(c, w[Cut(c, w)..]);
    }
  }

  lemma {:induction false} CutsSizes(c: Cdc, w: Bytes)
    requires ValidCdc(c)
    ensures forall p :: p in Cuts(c, w) ==> 0 < |p| <= c.max
    ensures forall i :: 0 <= i < |Cuts(c, w)| - 1 ==> |Cuts(c, w)[i]| >= c.min
    decreases |w|
  {
    if w != [] {
      CutBounds(c, w);
      CutExactly(c, w, Cut(c, w));
      var rest := Cuts(c, w[Cut(c, w)..]);
      CutsSizes(c, w[Cut(c, w)..]);
      assert Cuts(c, w) == [w[..Cut(c, w)]] + rest;
      assert |w| <= c.min ==> rest == [];
    }
  }

  method ChunkBytes(lib: Lib, c: Cdc, bytes: Bytes) returns (out: seq<Chunk>)
    requires ValidCdc(c)
    ensures out == Describe(lib, Cuts(c, bytes), 0)
  {
    hide Cut, Describe, Flatten, Cuts;
    NothingYet(lib, c, bytes);
    out := [];
    var offset := 0;
    ghost var pieces: seq<Bytes> := [];
    while offset < |bytes|
      invariant 0 <= offset <= |bytes|
      invariant Cuts(c, bytes) == pieces + Cuts(c, bytes[offset..])
      invariant |Flatten(pieces)| == offset
      invariant out == Describe(lib, pieces, 0)
    {
      CutBounds(c, bytes[offset..]);
      var len := Cut(c, bytes[offset..]);
      var slice := bytes[offset..offset + len];
      ChunkBytesStep(c, bytes, offset, len, pieces);
      DescribeAppend(lib, pieces, slice, 0);
      FlattenLast(pieces, slice);
      out := out + [Chunk(offset, len, lib.hash(slice))];
      pieces := pieces + [slice];
      offset := offset + len;
    }
    assert bytes[offset..] == [];
    NothingYet(lib, c, []);
    assert pieces + [] == pieces;
  }

  lemma NothingYet(lib: Lib, c: Cdc, w: Bytes)
    requires ValidCdc(c)
    ensures Flatten([]) == [] && Describe(lib, [], 0) == [] && Cuts(c, []) == []
    ensures Cuts(c, w) == [] + Cuts(c, w[0..])
  {
    hide Cut;
    assert w[0..] == w;
  }

  lemma ChunkBytesStep(c: Cdc, w: Bytes, offset: nat, len: nat, pieces: seq<Bytes>)
    requires ValidCdc(c) && offset < |w| && len == Cut(c, w[offset..]) && 0 < len <= |w| - offset
    requires Cuts(c, w) == pieces + Cuts(c, w[offset..])
    ensures Cuts(c, w) == pieces + [w[offset..offset + len]] + Cuts(c, w[offset + len..])
  {
    hide Cut;
    var rest := w[offset..];
    assert rest[..len] == w[offset..offset + len] && rest[len..] == w[offset + len..];
    assert Cuts(c, rest) == [rest[..len]] + Cuts(c, rest[len..]);
    assert pieces + ([rest[..len]] + Cuts(c, rest[len..])) == pieces + [rest[..len]] + Cuts(c, rest[len..]);
  }

  // ----- short reads --------------------------------------------------------

  /** How many bytes the k-th read delivers: whatever the plan says, but 0 only at the end. */
  function ReadLen(plan: nat -> nat, k: nat, want: nat, left: nat): nat {
    if want == 0 || left == 0 then 0 else Max(1, Min(plan(k), Min(want, left)))
  }

  class Reader {
    const data: Bytes
    const plan: nat -> nat
    var pos: nat
    var calls: nat

    constructor (data: Bytes, plan: nat -> nat)
      ensures this.data == data && this.plan == plan && pos == 0 && calls == 0
    {
      this.data, this.plan := data, plan;
      pos, calls := 0, 0;
    }

    method Read(want: nat) returns (b: Bytes)
      requires pos <= |data|
      modifies this
      ensures calls == old(calls) + 1
      ensures pos == old(pos) + ReadLen(plan, old(calls), want, |data| - old(pos)) <= |data|
      ensures b == data[old(pos)..pos]
    {
      var n := ReadLen(plan, calls, want, |data| - pos);
      b := data[pos..pos + n];
      pos, calls := pos + n, calls + 1;
    }
  }

  // ----- the rolling buffer ---------------------------------------------------

  /**
   * The pieces one pass emits from its window: before the end of input it stops at the first
   * cut that ends past `max`. `off` is how much of the window came before `w`.
   */
  function Emit(c: Cdc, w: Bytes, off: nat, eof: bool): seq<Bytes>
    requires ValidCdc(c)
  {
    if w == [] || (!eof && off + Cut(c, w) > c.max) then []
    else
      CutBounds(c, w);
      [w[..Cut(c, w)]] + Emit(c, w[Cut(c, w)..], off + Cut(c, w), eof)
  }

  /** One pass of the cutter over the window data[start..end]. */
  datatype Pass = Pass(start: nat, end: nat, eof: bool)

  ghost predicate InputAt(data: Bytes, start: nat, pos: nat, eof: bool) {
    start <= pos <= |data| && (eof ==> pos == |data|)
  }

  /** What one read leaves: the new position, whether the end was seen, and the reads made. */
  function AfterRead(c: Cdc, data: Bytes, plan: nat -> nat, start: nat, pos: nat, eof: bool, calls: nat)
    : (nat, bool, nat)
    requires start <= pos <= |data|
  {
    if !eof && pos - start < 2 * c.max then
      var n := ReadLen(plan, calls, 2 * c.max - (pos - start), |data| - pos);
      (pos + n, n == 0, calls + 1)
    else
      (pos, eof, calls)
  }

  lemma AfterReadAt(c: Cdc, data: Bytes, plan: nat -> nat, start: nat, pos: nat, eof: bool, calls: nat)
    requires InputAt(data, start, pos, eof)
    ensures var (p, e, _) := AfterRead(c, data, plan, start, pos, eof, calls);
      InputAt(data, start, p, e) && pos <= p && (!e && p - start < c.max ==> pos < p)
  {
  }

  lemma EmitUnfold(c: Cdc, w: Bytes, off: nat, eof: bool)
    requires ValidCdc(c) && w != [] && (eof || off + Cut(c, w) <= c.max)
    ensures 0 < Cut(c, w) <= |w|
    ensures var rest := Emit(c, w[Cut(c, w)..], off + Cut(c, w), eof);
      Emit(c, w, off, eof) == [w[..Cut(c, w)]] + rest
      && Flatten(Emit(c, w, off, eof)) == w[..Cut(c, w)] + Flatten(rest)
  {
    hide Cut;
    CutBounds(c, w);
    var rest := Emit(c, w[Cut(c, w)..], off + Cut(c, w), eof);
    assert ([w[..Cut(c, w)]] + rest)[1..] == rest;
  }

  lemma PrefixJoin(w: Bytes, k: nat, t: Bytes)
    requires k <= |w| && t <= w[k..]
    ensures w[..k] + t <= w
    ensures t == w[k..] ==> w[..k] + t == w
  {
    assert w == w[..k] + w[k..];
  }

  lemma {:induction false} EmitTakes(c: Cdc, w: Bytes, off: nat, eof: bool)
    requires ValidCdc(c)
    ensures Flatten(Emit(c, w, off, eof)) <= w
    ensures eof ==> Flatten(Emit(c, w, off, eof)) == w
    ensures w != [] && (eof || off == 0) ==> Flatten(Emit(c, w, off, eof)) != []
    decreases |w|
  {
    hide Cut;
    if w != [] {
      CutBounds(c, w);
      if eof || off + Cut(c, w) <= c.max {
        var k := Cut(c, w);
        EmitUnfold(c, w, off, eof);
        EmitTakes(c, w[k..], off + k, eof);
        PrefixJoin(w, k, Flatten(Emit(c, w[k..], off + k, eof)));
      }
    }
  }

  /** The passes of the read loop from a given state, for a given schedule of short reads. */
  ghost function Passes(c: Cdc, data: Bytes, plan: nat -> nat, start: nat, pos: nat, eof: bool, calls: nat): seq<Pass>
    requires ValidCdc(c) && InputAt(data, start, pos, eof)
    decreases |data| - start, |data| - pos, if eof then 0 else 1
  {
    if eof && start == pos then []
    else
      AfterReadAt(c, data, plan, start, pos, eof, calls);
      var (p, e, k) := AfterRead(c, data, plan, start, pos, eof, calls);
      if !e && p - start < c.max then Passes(c, data, plan, start, p, e, k)
      else if start == p then []
      else
        EmitTakes(c, data[start..p], 0, e);
        var taken := |Flatten(Emit(c, data[start..p], 0, e))|;
        [Pass(start, p, e)] + Passes(c, data, plan, start + taken, p, e, k)
  }

  function Window(data: Bytes, p: Pass): Bytes
    requires p.start <= p.end <= |data|
  {
    data[p.start..p.end]
  }

  ghost predicate InRange(data: Bytes, passes: seq<Pass>) {
    forall i :: 0 <= i < |passes| ==> passes[i].start <= passes[i].end <= |data|
  }

  ghost function PiecesOf(c: Cdc, data: Bytes, passes: seq<Pass>): seq<Bytes>
    requires ValidCdc(c) && InRange(data, passes)
  {
    if passes == [] then []
    else Emit(c, Window(data, passes[0]), 0, passes[0].eof) + PiecesOf(c, data, passes[1..])
  }

  lemma {:induction false} PassesInRange(c: Cdc, data: Bytes, plan: nat -> nat, start: nat, pos: nat, eof: bool,
                                         calls: nat)
    requires ValidCdc(c) && InputAt(data, start, pos, eof)
    ensures InRange(data, Passes(c, data, plan, start, pos, eof, calls))
    decreases |data| - start, |data| - pos, if eof then 0 else 1
  {
    hide Emit, AfterRead;
    if !(eof && start == pos) {
      AfterReadAt(c, data, plan, start, pos, eof, calls);
      var (p, e, k) := AfterRead(c, data, plan, start, pos, eof, calls);
      if !e && p - start < c.max {
        PassesInRange(c, data, plan, start, p, e, k);
      } else if start != p {
        EmitTakes(c, data[start..p], 0, e);
        PassesInRange(c, data, plan, start + |Flatten(Emit(c, data[start..p], 0, e))|, p, e, k);
      }
    }
  }

  /** The pieces the streaming chunker emits from a given state. */
  ghost function Streamed(c: Cdc, data: Bytes, plan: nat -> nat, start: nat, pos: nat, eof: bool,
                          calls: nat): seq<Bytes>
    requires ValidCdc(c) && InputAt(data, start, pos, eof)
  {
    PassesInRange(c, data, plan, start, pos, eof, calls);
    PiecesOf(c, data, Passes(c, data, plan, start, pos, eof, calls))
  }

  lemma PiecesStep(c: Cdc, data: Bytes, p: Pass, rest: seq<Pass>)
    requires ValidCdc(c) && p.start <= p.end <= |data| && InRange(data, rest)
    ensures InRange(data, [p] + rest)
    ensures PiecesOf(c, data, [p] + rest) == Emit(c, Window(data, p), 0, p.eof) + PiecesOf(c, data, rest)
  {
    hide Emit;
    assert ([p] + rest)[0] == p;
    assert ([p] + rest)[1..] == rest;
  }

  /** One round of the read loop, as an equation on what is still to be emitted. */
  lemma StreamedStep(c: Cdc, data: Bytes, plan: nat -> nat, start: nat, pos: nat, eof: bool, calls: nat)
    requires ValidCdc(c) && InputAt(data, start, pos, eof) && !(eof && start == pos)
    ensures var (p, e, k) := AfterRead(c, data, plan, start, pos, eof, calls);
      && InputAt(data, start, p, e)
      && (!e && p - start < c.max ==>
            Streamed(c, data, plan, start, pos, eof, calls) == Streamed(c, data, plan, start, p, e, k))
      && (start == p && e ==> Streamed(c, data, plan, start, pos, eof, calls) == [])
      && (start < p && (e || p - start >= c.max) ==>
            var out := Emit(c, data[start..p], 0, e);
            && InputAt(data, start + |Flatten(out)|, p, e) && Flatten(out) != []
            && Streamed(c, data, plan, start, pos, eof, calls)
               == out + Streamed(c, data, plan, start + |Flatten(out)|, p, e, k))
  {
    hide Emit, AfterRead, Flatten, PiecesOf;
    AfterReadAt(c, data, plan, start, pos, eof, calls);
    var (p, e, k) := AfterRead(c, data, plan, start, pos, eof, calls);
    PassesInRange(c, data, plan, start, pos, eof, calls);
    if start == p && e {
      assert Passes(c, data, plan, start, pos, eof, calls) == [];
      assert PiecesOf(c, data, []) == [] by { NoPieces(c, data); }
    } else if e || p - start >= c.max {
      EmitTakes(c, data[start..p], 0, e);
      var taken := |Flatten(Emit(c, data[start..p], 0, e))|;
      var rest := Passes(c, data, plan, start + taken, p, e, k);
      PassesInRange(c, data, plan, start + taken, p, e, k);
      assert Passes(c, data, plan, start, pos, eof, calls) == [Pass(start, p, e)] + rest;
      PiecesStep(c, data, Pass(start, p, e), rest);
    }
  }

  lemma NoPieces(c: Cdc, data: Bytes)
    requires ValidCdc(c)
    ensures PiecesOf(c, data, []) == []
  {
  }

  // ----- what streaming preserves for every schedule ---------------------------

  /** Whatever the short reads, the pieces concatenate to the input. */
  lemma {:induction false} StreamedCovers(c: Cdc, data: Bytes, plan: nat -> nat, start: nat, pos: nat, eof: bool,
                                          calls: nat)
    requires ValidCdc(c) && InputAt(data, start, pos, eof)
    ensures Flatten(Streamed(c, data, plan, start, pos, eof, calls)) == data[start..]
    decreases |data| - start, |data| - pos, if eof then 0 else 1
  {
    hide Emit, AfterRead, PiecesOf, Passes, Streamed;
    if eof && start == pos {
      StreamedEnd(c, data, plan, start, calls);
    } else {
      AfterReadAt(c, data, plan, start, pos, eof, calls);
      StreamedStep(c, data, plan, start, pos, eof, calls);
      var (p, e, k) := AfterRead(c, data, plan, start, pos, eof, calls);
      if !e && p - start < c.max {
        StreamedCovers(c, data, plan, start, p, e, k);
      } else if start < p {
        var out := Emit(c, data[start..p], 0, e);
        var next := start + |Flatten(out)|;
        EmitTakes(c, data[start..p], 0, e);
        StreamedCovers(c, data, plan, next, p, e, k);
        FlattenAppend(out, Streamed(c, data, plan, next, p, e, k));
        Rejoin(data, start, p, Flatten(out));
      }
    }
  }

  /** Whatever the short reads, every piece has between 1 and `max` bytes. */
  lemma {:induction false} StreamedSizes(c: Cdc, data: Bytes, plan: nat -> nat, start: nat, pos: nat, eof: bool,
                                         calls: nat)
    requires ValidCdc(c) && InputAt(data, start, pos, eof)
    ensures forall p :: p in Streamed(c, data, plan, start, pos, eof, calls) ==> 0 < |p| <= c.max
    decreases |data| - start, |data| - pos, if eof then 0 else 1
  {
    hide Emit, AfterRead, PiecesOf, Passes, Streamed, Flatten;
    if eof && start == pos {
      StreamedEnd(c, data, plan, start, calls);
    } else {
      AfterReadAt(c, data, plan, start, pos, eof, calls);
      StreamedStep(c, data, plan, start, pos, eof, calls);
      var (p, e, k) := AfterRead(c, data, plan, start, pos, eof, calls);
      if !e && p - start < c.max {
        StreamedSizes(c, data, plan, start, p, e, k);
      } else if start < p {
        var out := Emit(c, data[start..p], 0, e);
        EmitTakes(c, data[start..p], 0, e);
        EmitSizes(c, data[start..p], 0, e);
        StreamedSizes(c, data, plan, start + |Flatten(out)|, p, e, k);
      }
    }
  }

  lemma Rejoin(data: Bytes, start: nat, end: nat, taken: Bytes)
    requires start <= end <= |data| && taken <= data[start..end]
    ensures taken + data[start + |taken|..] == data[start..]
  {
  }

  lemma StreamedEnd(c: Cdc, data: Bytes, plan: nat -> nat, start: nat, calls: nat)
    requires ValidCdc(c) && start == |data|
    ensures Streamed(c, data, plan, start, start, true, calls) == []
  {
  }

  lemma {:induction false} EmitSizes(c: Cdc, w: Bytes, off: nat, eof: bool)
    requires ValidCdc(c)
    ensures forall p :: p in Emit(c, w, off, eof) ==> 0 < |p| <= c.max
    decreases |w|
  {
    hide Cut;
    if w != [] {
      CutBounds(c, w);
      EmitSizes(c, w[Cut(c, w)..], off + Cut(c, w), eof);
    }
  }

  // ----- when streaming agrees with whole-buffer chunking ------------------------

  /** Does whole-buffer chunking of `w` cut at `k`? */
  predicate Boundary(c: Cdc, w: Bytes, k: nat)
    requires ValidCdc(c)
  {
    k == 0 || (w != [] && (CutBounds(c, w); Cut(c, w) <= k && Boundary(c, w[Cut(c, w)..], k - Cut(c, w))))
  }

  /**
   * The guard of the branch that can go wrong: a pass before the end of input whose window is
   * exactly `max` bytes cuts its last piece at the window's end, so that end must be a cut of
   * the whole input.
   */
  predicate Faithful(c: Cdc, data: Bytes, p: Pass)
    requires ValidCdc(c) && p.start <= p.end <= |data|
  {
    p.eof || p.end - p.start != c.max || Boundary(c, data[p.start..], c.max)
  }

  ghost predicate AllFaithful(c: Cdc, data: Bytes, passes: seq<Pass>)
    requires ValidCdc(c) && InRange(data, passes)
  {
    forall i :: 0 <= i < |passes| ==> Faithful(c, data, passes[i])
  }

  lemma {:induction false} EmitIsCuts(c: Cdc, w: Bytes, off: nat)
    requires ValidCdc(c)
    ensures Emit(c, w, off, true) == Cuts(c, w)
    decreases |w|
  {
    hide Cut;
    if w != [] {
      CutBounds(c, w);
      EmitIsCuts(c, w[Cut(c, w)..], off + Cut(c, w));
    }
  }

  lemma CutsUnfold(c: Cdc, w: Bytes, k: nat)
    requires ValidCdc(c) && w != [] && k == Cut(c, w)
    ensures 0 < k <= |w| && Cuts(c, w) == [w[..k]] + Cuts(c, w[k..])
  {
    CutBounds(c, w);
  }

  lemma EmitIsPrefixStep(c: Cdc, w: Bytes, x: Bytes, off: nat, k: nat, rest: seq<Bytes>)
    requires ValidCdc(c) && w != [] && k == Cut(c, w) == Cut(c, w + x) && 0 < k <= |w|
    requires off + k <= c.max
    requires rest == Emit(c, w[k..], off + k, false) && Flatten(rest) <= w[k..]
    requires Cuts(c, w[k..] + x) == rest + Cuts(c, (w[k..] + x)[|Flatten(rest)|..])
    ensures var out := Emit(c, w, off, false);
      Cuts(c, w + x) == out + Cuts(c, (w + x)[|Flatten(out)|..])
  {
    hide Cut, Cuts, Emit, Flatten;
    EmitUnfold(c, w, off, false);
    CutsThrough(c, w, x, k);
    DropTwice(w, x, k, |Flatten(rest)|);
    var tail := Cuts(c, (w + x)[k + |Flatten(rest)|..]);
    assert [w[..k]] + (rest + tail) == [w[..k]] + rest + tail;
  }

  /**
   * A window longer than `max`, or of exactly `max` bytes ending on a true cut, emits a prefix
   * of what whole-buffer chunking gives for the window followed by any further input.
   */
  lemma {:induction false} EmitIsPrefix(c: Cdc, w: Bytes, x: Bytes, off: nat)
    requires ValidCdc(c) && off + |w| >= c.max && off <= c.max
    requires off + |w| == c.max ==> Boundary(c, w + x, |w|)
    ensures var out := Emit(c, w, off, false);
      && Flatten(out) <= w
      && Cuts(c, w + x) == out + Cuts(c, (w + x)[|Flatten(out)|..])
    decreases |w|
  {
    hide Cut, Cuts, Boundary;
    EmitTakes(c, w, off, false);
    if w == [] || off + Cut(c, w) > c.max {
      assert (w + x)[0..] == w + x;
      assert Flatten(Emit(c, w, off, false)) == [];
    } else {
      CutBounds(c, w);
      var k := Cut(c, w);
      CutAgrees(c, w, x, off);
      assert (w + x)[k..] == w[k..] + x;
      EmitIsPrefix(c, w[k..], x, off + k);
      EmitIsPrefixStep(c, w, x, off, k, Emit(c, w[k..], off + k, false));
    }
  }

  lemma CutsThrough(c: Cdc, w: Bytes, x: Bytes, k: nat)
    requires ValidCdc(c) && w != [] && 0 < k <= |w| && Cut(c, w + x) == k
    ensures Cuts(c, w + x) == [w[..k]] + Cuts(c, w[k..] + x)
  {
    hide Cut;
    CutsUnfold(c, w + x, k);
    assert (w + x)[k..] == w[k..] + x && (w + x)[..k] == w[..k];
  }

  lemma DropTwice(w: Bytes, x: Bytes, k: nat, n: nat)
    requires k <= |w| && n <= |w| - k
    ensures (w[k..] + x)[n..] == (w + x)[k + n..]
  {
  }

  /** The first cut of such a window is the first cut of the whole input. */
  lemma CutAgrees(c: Cdc, w: Bytes, x: Bytes, off: nat)
    requires ValidCdc(c) && w != [] && off + |w| >= c.max
    requires off + Cut(c, w) <= c.max
    requires off + |w| == c.max ==> Boundary(c, w + x, |w|)
    ensures Cut(c, w + x) == Cut(c, w)
    ensures off + |w| == c.max ==> Boundary(c, (w + x)[Cut(c, w)..], |w| - Cut(c, w))
  {
    CutBounds(c, w);
    CutBounds(c, w + x);
    if Cut(c, w) < |w| || c.max <= |w| {
      CutStable(c, w, x);
    } else {
      CutMonotone(c, w, x);
    }
  }

  /** More input never shortens the first chunk. */
  lemma CutMonotone(c: Cdc, w: Bytes, x: Bytes)
    requires ValidCdc(c) && w != [] && Cut(c, w) == |w|
    ensures Cut(c, w + x) >= |w| || |w| > c.max
  {
    if |w| <= c.min {
      if |w + x| > c.min {
        ScanBounds(c, w + x, c.min, Min(|w + x|, c.max));
      }
    } else if |w| <= c.max {
      ScanFull(c, w, x, c.min, |w|, Min(|w + x|, c.max));
    }
  }

  lemma {:induction false} ScanFull(c: Cdc, w: Bytes, x: Bytes, k: nat, a: nat, b: nat)
    requires k <= a <= |w| && a <= b <= |w + x|
    requires Scan(c, w, k, a) == a
    ensures Scan(c, w + x, k, b) >= a
    decreases a - k
  {
    if k < a {
      assert (w + x)[..k + 1] == w[..k + 1];
      ScanFull(c, w, x, k + 1, a, b);
    } else {
      ScanBounds(c, w + x, k, b);
    }
  }

  /** A split of the cuts of `w` falls on a boundary. */
  lemma {:induction false} SplitIsBoundary(c: Cdc, w: Bytes, a: seq<Bytes>, b: seq<Bytes>)
    requires ValidCdc(c) && Cuts(c, w) == a + b
    ensures Boundary(c, w, |Flatten(a)|)
    decreases |w|
  {
    hide Cut;
    if a != [] {
      assert w != [];
      CutBounds(c, w);
      var k := Cut(c, w);
      CutsUnfold(c, w, k);
      assert Cuts(c, w)[0] == (a + b)[0] == a[0];
      assert Cuts(c, w)[1..] == (a + b)[1..] == a[1..] + b;
      SplitIsBoundary(c, w[k..], a[1..], b);
      assert |Flatten(a)| == k + |Flatten(a[1..])|;
    }
  }

  /** A pass over exactly `max` bytes before the end consumes the whole window. */
  lemma {:induction false} EmitExact(c: Cdc, w: Bytes, off: nat)
    requires ValidCdc(c) && off + |w| == c.max
    ensures Flatten(Emit(c, w, off, false)) == w
    decreases |w|
  {
    hide Cut;
    if w != [] {
      CutBounds(c, w);
      var k := Cut(c, w);
      EmitUnfold(c, w, off, false);
      EmitExact(c, w[k..], off + k);
      assert w[..k] + w[k..] == w;
    }
  }

  lemma CancelPrefix<T>(a: seq<T>, x: seq<T>, y: seq<T>)
    requires a + x == a + y
    ensures x == y
  {
    assert (a + x)[|a|..] == x;
    assert (a + y)[|a|..] == y;
  }

  /** What one pass contributes: a faithful one is neutral, an unfaithful one is fatal. */
  lemma PassDecides(c: Cdc, data: Bytes, p: Pass, rest: seq<Bytes>)
    requires ValidCdc(c) && p.start < p.end <= |data|
    requires p.eof ==> p.end == |data|
    requires !p.eof ==> p.end - p.start >= c.max
    ensures var out := Emit(c, Window(data, p), 0, p.eof);
      && Flatten(out) <= Window(data, p)
      && (Faithful(c, data, p) ==>
            (out + rest == Cuts(c, data[p.start..]) <==> rest == Cuts(c, data[p.start + |Flatten(out)|..])))
      && (!Faithful(c, data, p) ==> out + rest != Cuts(c, data[p.start..]))
  {
    hide Emit, Cuts, Cut, Boundary;
    var w, x := Window(data, p), data[p.end..];
    var whole := data[p.start..];
    assert w + x == whole;
    var out := Emit(c, w, 0, p.eof);
    EmitTakes(c, w, 0, p.eof);
    if Faithful(c, data, p) {
      if p.eof {
        EmitIsCuts(c, w, 0);
        assert w == whole;
        assert data[p.start + |Flatten(out)|..] == [];
        assert Cuts(c, []) == [] by { NoCuts(c); }
        assert out + [] == out;
      } else {
        EmitIsPrefix(c, w, x, 0);
        assert whole[|Flatten(out)|..] == data[p.start + |Flatten(out)|..];
      }
      if out + rest == Cuts(c, whole) {
        CancelPrefix(out, rest, Cuts(c, data[p.start + |Flatten(out)|..]));
      }
    } else {
      EmitExact(c, w, 0);
      if out + rest == Cuts(c, whole) {
        SplitIsBoundary(c, whole, out, rest);
      }
    }
  }

  lemma NoCuts(c: Cdc)
    requires ValidCdc(c)
    ensures Cuts(c, []) == []
  {
  }

  /**
   * For every schedule of short reads: the streaming chunker emits exactly the whole-buffer
   * chunks if and only if every pass is faithful.
   */
  lemma {:induction false} StreamingIsBatch(c: Cdc, data: Bytes, plan: nat -> nat, start: nat, pos: nat, eof: bool,
                                            calls: nat)
    requires ValidCdc(c) && InputAt(data, start, pos, eof)
    ensures InRange(data, Passes(c, data, plan, start, pos, eof, calls))
    ensures Streamed(c, data, plan, start, pos, eof, calls) == Cuts(c, data[start..])
       <==> AllFaithful(c, data, Passes(c, data, plan, start, pos, eof, calls))
    decreases |data| - start, |data| - pos, if eof then 0 else 1
  {
    hide Emit, AfterRead, PiecesOf, Streamed, Cuts, Faithful;
    PassesInRange(c, data, plan, start, pos, eof, calls);
    if eof && start == pos {
      StreamedEnd(c, data, plan, start, calls);
      assert data[start..] == [];
      NoCuts(c);
    } else {
      AfterReadAt(c, data, plan, start, pos, eof, calls);
      StreamedStep(c, data, plan, start, pos, eof, calls);
      var (p, e, k) := AfterRead(c, data, plan, start, pos, eof, calls);
      if !e && p - start < c.max {
        StreamingIsBatch(c, data, plan, start, p, e, k);
      } else if start == p {
        assert data[start..] == [];
        NoCuts(c);
      } else {
        var pass := Pass(start, p, e);
        var n := |Flatten(Emit(c, data[start..p], 0, e))|;
        var rest := Passes(c, data, plan, start + n, p, e, k);
        PassDecides(c, data, pass, Streamed(c, data, plan, start + n, p, e, k));
        StreamingIsBatch(c, data, plan, start + n, p, e, k);
        FaithfulCons(c, data, pass, rest);
      }
    }
  }

  lemma FaithfulCons(c: Cdc, data: Bytes, p: Pass, rest: seq<Pass>)
    requires ValidCdc(c) && p.start <= p.end <= |data| && InRange(data, rest)
    ensures InRange(data, [p] + rest)
    ensures AllFaithful(c, data, [p] + rest) <==> Faithful(c, data, p) && AllFaithful(c, data, rest)
  {
    hide Faithful;
    var all := [p] + rest;
    assert all[0] == p;
    assert forall i :: 0 <= i < |rest| ==> all[i + 1] == rest[i];
    assert forall i :: 1 <= i < |all| ==> all[i] == rest[i - 1];
  }

  // ----- the two ways to meet the condition, and one way to miss it ---------------

  /** Every read fills its request or reaches the end of input. */
  ghost predicate FillsRequests(c: Cdc, plan: nat -> nat) {
    forall k: nat :: plan(k) >= 2 * c.max
  }

  lemma {:induction false} WholeIsBoundary(c: Cdc, w: Bytes)
    requires ValidCdc(c)
    ensures Boundary(c, w, |w|)
    decreases |w|
  {
    hide Cut;
    if w != [] {
      CutBounds(c, w);
      WholeIsBoundary(c, w[Cut(c, w)..]);
    }
  }

  lemma FullReadPass(c: Cdc, data: Bytes, plan: nat -> nat, start: nat, pos: nat, eof: bool, calls: nat)
    requires ValidCdc(c) && InputAt(data, start, pos, eof) && FillsRequests(c, plan)
    requires pos - start <= 2 * c.max
    ensures var (p, e, _) := AfterRead(c, data, plan, start, pos, eof, calls);
      && p - start <= 2 * c.max
      && (!e ==> p == |data| || p - start == 2 * c.max)
      && InputAt(data, start, p, e)
      && Faithful(c, data, Pass(start, p, e))
  {
    AfterReadAt(c, data, plan, start, pos, eof, calls);
    var (p, e, _) := AfterRead(c, data, plan, start, pos, eof, calls);
    assert plan(calls) >= 2 * c.max;
    if p == |data| && p - start == c.max {
      WholeIsBoundary(c, data[start..]);
    }
  }

  lemma {:induction false} FullReadsAreFaithful(c: Cdc, data: Bytes, plan: nat -> nat, start: nat, pos: nat,
                                                eof: bool, calls: nat)
    requires ValidCdc(c) && InputAt(data, start, pos, eof) && FillsRequests(c, plan)
    requires pos - start <= 2 * c.max
    ensures InRange(data, Passes(c, data, plan, start, pos, eof, calls))
    ensures AllFaithful(c, data, Passes(c, data, plan, start, pos, eof, calls))
    decreases |data| - start, |data| - pos, if eof then 0 else 1
  {
    hide Emit, AfterRead, Faithful, Flatten, FillsRequests;
    PassesInRange(c, data, plan, start, pos, eof, calls);
    if !(eof && start == pos) {
      AfterReadAt(c, data, plan, start, pos, eof, calls);
      FullReadPass(c, data, plan, start, pos, eof, calls);
      var (p, e, k) := AfterRead(c, data, plan, start, pos, eof, calls);
      if !e && p - start < c.max {
        FullReadsAreFaithful(c, data, plan, start, p, e, k);
      } else if start < p {
        var n := |Flatten(Emit(c, data[start..p], 0, e))|;
        EmitTakes(c, data[start..p], 0, e);
        FullReadsAreFaithful(c, data, plan, start + n, p, e, k);
        FaithfulCons(c, data, Pass(start, p, e), Passes(c, data, plan, start + n, p, e, k));
      }
    }
  }

  /** The pieces streamed from the beginning of `data`. */
  ghost function Stream(c: Cdc, data: Bytes, plan: nat -> nat): seq<Bytes>
    requires ValidCdc(c)
  {
    Streamed(c, data, plan, 0, 0, false, 0)
  }

  /** With full reads the rolling buffer gives exactly the whole-buffer chunks. */
  lemma FullReadsStreamIsBatch(c: Cdc, data: Bytes, plan: nat -> nat)
    requires ValidCdc(c) && FillsRequests(c, plan)
    ensures Stream(c, data, plan) == Cuts(c, data)
  {
    hide Streamed, Cuts, Passes;
    assert data[0..] == data;
    FullReadsAreFaithful(c, data, plan, 0, 0, false, 0);
    StreamingIsBatch(c, data, plan, 0, 0, false, 0);
  }

  /** The passes over an input of at most `max` bytes are all faithful, under every schedule. */
  lemma {:induction false} SmallPasses(c: Cdc, data: Bytes, plan: nat -> nat, start: nat, pos: nat, eof: bool,
                                       calls: nat)
    requires ValidCdc(c) && InputAt(data, start, pos, eof) && |data| <= c.max
    ensures InRange(data, Passes(c, data, plan, start, pos, eof, calls))
    ensures AllFaithful(c, data, Passes(c, data, plan, start, pos, eof, calls))
    decreases |data| - start, |data| - pos, if eof then 0 else 1
  {
    hide Emit, AfterRead, Boundary, Flatten;
    PassesInRange(c, data, plan, start, pos, eof, calls);
    if !(eof && start == pos) {
      AfterReadAt(c, data, plan, start, pos, eof, calls);
      var (p, e, k) := AfterRead(c, data, plan, start, pos, eof, calls);
      if !e && p - start < c.max {
        SmallPasses(c, data, plan, start, p, e, k);
      } else if start < p {
        var n := |Flatten(Emit(c, data[start..p], 0, e))|;
        EmitTakes(c, data[start..p], 0, e);
        SmallPasses(c, data, plan, start + n, p, e, k);
        WholeIsBoundary(c, data[start..]);
        FaithfulCons(c, data, Pass(start, p, e), Passes(c, data, plan, start + n, p, e, k));
      }
    }
  }

  /** An input of at most `max` bytes is chunked the same under every schedule. */
  lemma SmallIsFaithful(c: Cdc, data: Bytes, plan: nat -> nat)
    requires ValidCdc(c) && |data| <= c.max
    ensures Stream(c, data, plan) == Cuts(c, data)
  {
    hide Streamed, Cuts, Passes;
    assert data[0..] == data;
    SmallPasses(c, data, plan, 0, 0, false, 0);
    StreamingIsBatch(c, data, plan, 0, 0, false, 0);
  }

  /**
   * The failing family, for every cutter: a first read of exactly `max` bytes of a longer input
   * that whole-buffer chunking does not cut there. Streaming cuts there.
   */
  lemma ShortReadDiffers(c: Cdc, data: Bytes, plan: nat -> nat)
    requires ValidCdc(c) && |data| > c.max && plan(0) == c.max && !Boundary(c, data, c.max)
    ensures Stream(c, data, plan) != Cuts(c, data)
  {
    hide Streamed, Cuts, Boundary;
    var passes := Passes(c, data, plan, 0, 0, false, 0);
    PassesInRange(c, data, plan, 0, 0, false, 0);
    FirstPass(c, data, plan);
    assert data[0..] == data;
    assert !Faithful(c, data, passes[0]);
    StreamingIsBatch(c, data, plan, 0, 0, false, 0);
  }

  /** A cutter of any sizes that stops after `n` bytes of a chunk, whatever the bytes are. */
  function StopsAfter(min: nat, avg: nat, max: nat, n: nat): Cdc {
    Cdc(min, avg, max, p => |p| == n + 1, p => |p| == n + 1)
  }

  lemma {:induction false} ScanStops(min: nat, avg: nat, max: nat, n: nat, w: Bytes, k: nat, limit: nat)
    requires k <= limit <= |w| && k <= n
    ensures Scan(StopsAfter(min, avg, max, n), w, k, limit) == if n < limit then n else limit
    decreases limit - k
  {
    if k < limit && k < n {
      ScanStops(min, avg, max, n, w, k + 1, limit);
    }
  }

  lemma CutStops(min: nat, avg: nat, max: nat, n: nat, w: Bytes)
    requires 0 < min <= avg <= max && min <= n <= max && w != []
    ensures Cut(StopsAfter(min, avg, max, n), w) == if n < |w| then n else |w|
  {
    if |w| > min {
      ScanStops(min, avg, max, n, w, min, Min(|w|, max));
    }
  }

  /**
   * No choice of sizes rules it out: for all sizes there are decisions under which every input
   * longer than `max` is chunked differently when its first read is exactly `max` bytes.
   */
  lemma AnySizesCanDiffer(min: nat, avg: nat, max: nat, n: nat, data: Bytes, plan: nat -> nat)
    requires 0 < min <= avg <= max && min <= n < max < 2 * n && |data| > max && plan(0) == max
    ensures var c := StopsAfter(min, avg, max, n);
      ValidCdc(c) && Stream(c, data, plan) != Cuts(c, data)
  {
    hide Stream, Cuts, Scan, Cut;
    var c := StopsAfter(min, avg, max, n);
    CutStops(min, avg, max, n, data);
    CutStops(min, avg, max, n, data[n..]);
    assert !Boundary(c, data, max);
    ShortReadDiffers(c, data, plan);
  }

  const KIB := 1024

  /** In particular at the repository's own sizes, with a cut three mebibytes into each chunk. */
  lemma RepositorySizesCanDiffer(data: Bytes, plan: nat -> nat)
    requires |data| > 4096 * KIB && plan(0) == 4096 * KIB
    ensures var c := StopsAfter(512 * KIB, 1024 * KIB, 4096 * KIB, 3072 * KIB);
      ValidCdc(c) && Stream(c, data, plan) != Cuts(c, data)
  {
    AnySizesCanDiffer(512 * KIB, 1024 * KIB, 4096 * KIB, 3072 * KIB, data, plan);
  }

  /** An illustration small enough to follow by hand: sizes 1, 4, 4, six bytes, a first read of four. */
  lemma SixBytesDiffer()
    ensures var c := StopsAfter(1, 4, 4, 3);
      && ValidCdc(c)
      && Cuts(c, Zeros(6)) == [Zeros(3), Zeros(3)]
      && Stream(c, Zeros(6), _ => 4) != Cuts(c, Zeros(6))
  {
    hide Scan, Cut, Stream;
    var c := StopsAfter(1, 4, 4, 3);
    CutStops(1, 4, 4, 3, Zeros(6));
    assert Zeros(6)[3..] == Zeros(3) && Zeros(6)[..3] == Zeros(3);
    CutStops(1, 4, 4, 3, Zeros(3));
    assert Zeros(3)[3..] == [] && Zeros(3)[..3] == Zeros(3);
    AnySizesCanDiffer(1, 4, 4, 3, Zeros(6), _ => 4);
  }

  lemma FirstPass(c: Cdc, data: Bytes, plan: nat -> nat)
    requires ValidCdc(c) && |data| > 0 && c.max <= plan(0) <= |data| && plan(0) <= 2 * c.max
    ensures var ps := Passes(c, data, plan, 0, 0, false, 0);
      ps != [] && ps[0] == Pass(0, plan(0), false)
  {
  }

  // ----- the loops themselves ------------------------------------------------------

  /** The inner loop: the pieces one pass emits from `window`, and how many bytes they take. */
  method CutWindow(lib: Lib, c: Cdc, window: Bytes, eof: bool)
    returns (chunks: seq<Chunk>, pieces: seq<Bytes>, consumed: nat)
    requires ValidCdc(c)
    ensures pieces == Emit(c, window, 0, eof)
    ensures chunks == Describe(lib, pieces, 0)
    ensures consumed == |Flatten(pieces)| <= |window|
  {
    hide Cut, Describe, Flatten;
    chunks, pieces, consumed := [], [], 0;
    NothingYet(lib, c, window);
    assert window[0..] == window;
    while consumed < |window|
      invariant 0 <= consumed <= |window|
      invariant Emit(c, window, 0, eof) == pieces + Emit(c, window[consumed..], consumed, eof)
      invariant consumed == |Flatten(pieces)|
      invariant chunks == Describe(lib, pieces, 0)
    {
      var rest := window[consumed..];
      CutBounds(c, rest);
      var len := Cut(c, rest);
      if !eof && consumed + len > c.max {
        assert pieces + [] == pieces;
        break;
      }
      var slice := window[consumed..consumed + len];
      EmitUnfold(c, rest, consumed, eof);
      assert rest[..len] == slice && rest[len..] == window[consumed + len..];
      AppendRest(pieces, [slice], Emit(c, window[consumed + len..], consumed + len, eof));
      DescribeAppend(lib, pieces, slice, 0);
      FlattenLast(pieces, slice);
      chunks := chunks + [Chunk(consumed, len, lib.hash(slice))];
      pieces := pieces + [slice];
      consumed := consumed + len;
    }
    assert consumed == |window| ==> window[consumed..] == [];
    assert pieces + [] == pieces;
  }

  /** The top of the loop: one read into the free part of the buffer. */
  method TopUp(c: Cdc, r: Reader, buf: Bytes, eof: bool, ghost start: nat) returns (full: Bytes, end: bool)
    requires InputAt(r.data, start, r.pos, eof) && buf == r.data[start..r.pos]
    modifies r
    ensures (r.pos, end, r.calls) == AfterRead(c, r.data, r.plan, start, old(r.pos), eof, old(r.calls))
    ensures start <= r.pos <= |r.data| && full == r.data[start..r.pos]
  {
    full, end := buf, eof;
    if !eof && |buf| < c.max * 2 {
      var read := r.Read(c.max * 2 - |buf|);
      full := buf + read;
      end := |read| == 0;
    }
  }

  lemma AppendRest<T>(a: seq<T>, b: seq<T>, rest: seq<T>)
    ensures a + (b + rest) == a + b + rest
  {
  }

  lemma Advance(data: Bytes, first: nat, start: nat, pos: nat, n: nat)
    requires first <= start <= start + n <= pos <= |data|
    ensures data[first..start] + data[start..pos][..n] == data[first..start + n]
    ensures data[start..pos][n..] == data[start + n..pos]
  {
  }

  /** Each descriptor has its piece's length and digest; its offset is within one window. */
  ghost predicate Matches(lib: Lib, chunks: seq<Chunk>, pieces: seq<Bytes>) {
    && |chunks| == |pieces|
    && forall i :: 0 <= i < |pieces| ==> chunks[i].len == |pieces[i]| && chunks[i].hash == lib.hash(pieces[i])
  }

  /** A read that leaves too little to cut changes nothing that is still to come. */
  lemma ReadOn(c: Cdc, data: Bytes, plan: nat -> nat, start: nat, pos: nat, eof: bool, calls: nat)
    requires ValidCdc(c) && InputAt(data, start, pos, eof) && !(eof && start == pos)
    ensures var (p, e, k) := AfterRead(c, data, plan, start, pos, eof, calls);
      && InputAt(data, start, p, e)
      && (!e && p - start < c.max ==>
            pos < p && Streamed(c, data, plan, start, pos, eof, calls) == Streamed(c, data, plan, start, p, e, k))
  {
    hide Emit, Streamed, Flatten, AfterRead;
    StreamedStep(c, data, plan, start, pos, eof, calls);
    AfterReadAt(c, data, plan, start, pos, eof, calls);
  }

  /** What a pass takes from the window joins what the passes before it took. */
  lemma PassTaken(lib: Lib, c: Cdc, data: Bytes, plan: nat -> nat, first: nat, start: nat, pos: nat, eof: bool,
                  calls: nat, chunks: seq<Chunk>, pieces: seq<Bytes>, cs: seq<Chunk>, ps: seq<Bytes>, consumed: nat)
    requires ValidCdc(c) && InputAt(data, start, pos, eof) && !(eof && start == pos) && first <= start
    requires var (p, e, k) := AfterRead(c, data, plan, start, pos, eof, calls);
      start <= p <= |data| && (e || p - start >= c.max) && ps == Emit(c, data[start..p], 0, e)
    requires consumed == |Flatten(ps)| && cs == Describe(lib, ps, 0) && Matches(lib, chunks, pieces)
    ensures var (p, e, k) := AfterRead(c, data, plan, start, pos, eof, calls);
      var all := pieces + Streamed(c, data, plan, start, pos, eof, calls);
      && (consumed == 0 ==> e && start == p && all == pieces)
      && (consumed > 0 ==>
            && InputAt(data, start + consumed, p, e)
            && all == pieces + ps + Streamed(c, data, plan, start + consumed, p, e, k)
            && Matches(lib, chunks + cs, pieces + ps)
            && data[first..start] + data[start..p][..consumed] == data[first..start + consumed]
            && data[start..p][consumed..] == data[start + consumed..p])
  {
    hide Describe, Matches, Emit, Streamed, Flatten, AfterRead;
    var (p, e, k) := AfterRead(c, data, plan, start, pos, eof, calls);
    StreamedStep(c, data, plan, start, pos, eof, calls);
    EmitTakes(c, data[start..p], 0, e);
    if consumed == 0 {
      assert pieces + [] == pieces;
    } else {
      DescribeMatches(lib, ps, 0);
      MatchesAppend(lib, chunks, pieces, cs, ps);
      AppendRest(pieces, ps, Streamed(c, data, plan, start + consumed, p, e, k));
      Advance(data, first, start, p, consumed);
    }
  }

  /**
   * The streaming chunker over any schedule of short reads. It terminates, hands out the
   * pieces the specification lists, and returns the digest of everything it read.
   */
  method ChunkReader(lib: Lib, c: Cdc, r: Reader)
    returns (chunks: seq<Chunk>, pieces: seq<Bytes>, digest: Hash)
    requires ValidCdc(c) && r.pos <= |r.data|
    modifies r
    ensures pieces == Streamed(c, r.data, r.plan, old(r.pos), old(r.pos), false, old(r.calls))
    ensures Matches(lib, chunks, pieces)
    ensures digest == lib.hash(r.data[old(r.pos)..])
    ensures r.pos == |r.data|
  {
    hide Emit, Streamed, Describe, Flatten, AfterRead, Matches;
    var buf: Bytes := [];
    var hashed: Bytes := [];
    var eof := false;
    chunks, pieces := [], [];
    ghost var start := r.pos;
    ghost var first := r.pos;
    ghost var all := Streamed(c, r.data, r.plan, first, first, false, r.calls);
    assert [] + all == all;
    MatchesNone(lib);
    while !eof || buf != []
      invariant first <= start && InputAt(r.data, start, r.pos, eof)
      invariant buf == r.data[start..r.pos]
      invariant hashed == r.data[first..start]
      invariant all == pieces + Streamed(c, r.data, r.plan, start, r.pos, eof, r.calls)
      invariant Matches(lib, chunks, pieces)
      decreases |r.data| - start, |r.data| - r.pos, if eof then 0 else 1
    {
      ghost var pos, end, calls := r.pos, eof, r.calls;
      ReadOn(c, r.data, r.plan, start, pos, end, calls);
      buf, eof := TopUp(c, r, buf, eof, start);
      if !eof && |buf| < c.max { continue; }
      var cs, ps, consumed := CutWindow(lib, c, buf, eof);
      PassTaken(lib, c, r.data, r.plan, first, start, pos, end, calls, chunks, pieces, cs, ps, consumed);
      if consumed == 0 {
        // Only an empty buffer at the end of input yields nothing, so there is no tail to force.
        break;
      }
      hashed := hashed + buf[..consumed];
      chunks := chunks + cs;
      pieces := pieces + ps;
      buf := buf[consumed..];
      start := start + consumed;
    }
    StreamedEnd(c, r.data, r.plan, start, r.calls);
    assert pieces + [] == pieces;
    assert r.data[first..start] == r.data[first..];
    digest := lib.hash(hashed);
  }

  lemma {:induction false} DescribeMatches(lib: Lib, pieces: seq<Bytes>, base: nat)
    ensures Matches(lib, Describe(lib, pieces, base), pieces)
  {
    if pieces != [] {
      DescribeMatches(lib, pieces[1..], base + |pieces[0]|);
    }
  }

  lemma MatchesNone(lib: Lib)
    ensures Matches(lib, [], [])
  {
  }

  lemma MatchesAppend(lib: Lib, cs: seq<Chunk>, ps: seq<Bytes>, ds: seq<Chunk>, qs: seq<Bytes>)
    requires Matches(lib, cs, ps) && Matches(lib, ds, qs)
    ensures Matches(lib, cs + ds, ps + qs)
  {
  }
}
