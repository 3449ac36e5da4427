/** What the audit chain detects: any change to a record that a later record vouches for. */
module AuditTamper {
  import opened Base
  import opened AuditText
  import opened AuditFormat
  import opened AuditChain

  /** A record whose embedded digest occurs nowhere after its slot. */
  ghost predicate Clean(f: Format, line: string) {
    var hex := ExtractPrevHash(f, line);
    hex.Some? && RFind(line, hex.value) == SlotOf(f, line)
  }

  // ----- the extension starts at a place the prefix decides ------------------------

  function Pipes(f: Format): nat {
    if f.Cef? then 7 else 5
  }

  /** How much of a record its header takes. */
  function HeaderLength(f: Format, body: string): nat
    requires AfterPipe(body, Pipes(f)).Some?
  {
    AfterPipeSuffix(body, Pipes(f));
    |body| - |AfterPipe(body, Pipes(f)).value|
  }

  /** One step of the pipe scan: how far it moves and how many pipes are then left. */
  lemma ScanStep(line: string, n: nat)
    requires n > 0 && line != []
    ensures line[0] == '\\' && |line| > 1 ==> AfterPipe(line, n) == AfterPipe(line[2..], n)
    ensures line[0] != '\\' ==> AfterPipe(line, n) == AfterPipe(line[1..], if line[0] == '|' then n - 1 else n)
    ensures line[0] == '\\' && |line| == 1 ==> AfterPipe(line, n).None?
  {
  }

  lemma Tails(a: string, b: string, s: nat, k: nat)
    requires k <= s <= |a| && s <= |b| && a[..s] == b[..s]
    ensures a[k..][..s - k] == b[k..][..s - k] && b[k..][s - k..] == b[s..]
  {
    assert a[k..][..s - k] == a[..s][k..] && b[k..][..s - k] == b[..s][k..];
  }

  /** The scan looks at nothing past the pipe it stops at. */
  lemma {:induction false} SamePrefixSamePipe(a: string, b: string, n: nat, s: nat)
    requires AfterPipe(a, n).Some? && s == |a| - |AfterPipe(a, n).value| && s <= |b|
    requires a[..s] == b[..s]
    ensures AfterPipe(b, n) == Some(b[s..])
    decreases |a|
  {
    hide AfterPipe;
    NoScan(a, n);
    NoScan(b, n);
    if n > 0 {
      ScanStep(a, n);
      var k := if a[0] == '\\' then 2 else 1;
      var m := if a[0] == '|' then n - 1 else n;
      AfterPipeSuffix(a[k..], m);
      assert a[0] == a[..s][0] && b[0] == b[..s][0];
      ScanStep(b, n);
      Tails(a, b, s, k);
      SamePrefixSamePipe(a[k..], b[k..], m, s - k);
    }
  }

  lemma NoScan(line: string, n: nat)
    ensures n == 0 ==> AfterPipe(line, n) == Some(line) && line[0..] == line
    ensures n > 0 && line == [] ==> AfterPipe(line, n).None?
  {
  }

  /** The extension of a record that has one. */
  function Extension(f: Format, line: string): (ext: string)
    requires AfterPipe(TrimEnd(line), Pipes(f)).Some?
    ensures var s := HeaderLength(f, TrimEnd(line)); s <= |TrimEnd(line)| && ext == TrimEnd(line)[s..]
  {
    AfterPipeSuffix(TrimEnd(line), Pipes(f));
    AfterPipe(TrimEnd(line), Pipes(f)).value
  }

  lemma SlotIs(f: Format, line: string)
    requires AfterPipe(TrimEnd(line), Pipes(f)).Some?
    ensures var at := if f.Cef? then CefSlotAt(Extension(f, line)) else LeefSlotAt(Extension(f, line));
      && (SlotOf(f, line).Some? <==> at.Some?)
      && (at.Some? ==> SlotOf(f, line).value == HeaderLength(f, TrimEnd(line)) + at.value)
  {
    hide AfterPipe, TrimEnd, CefSlotAt, LeefSlotAt;
  }

  lemma SameStart(x: string, y: string, n: nat, p: nat)
    requires AfterPipe(x, n).Some? && |x| - |AfterPipe(x, n).value| <= p <= |x|
    requires p <= |y| && x[..p] == y[..p]
    ensures AfterPipe(y, n).Some? && |y| - |AfterPipe(y, n).value| == |x| - |AfterPipe(x, n).value|
  {
    hide AfterPipe;
    AfterPipeSuffix(x, n);
    var s := |x| - |AfterPipe(x, n).value|;
    assert x[..s] == x[..p][..s] && y[..s] == y[..p][..s];
    SamePrefixSamePipe(x, y, n, s);
  }

  lemma PrefixTrimmed(s: string, p: nat)
    requires p <= |TrimEnd(s)|
    ensures p <= |s| && TrimEnd(s)[..p] == s[..p]
  {
    hide TrimEnd;
  }

  /** Two records that agree up to a place past the header have headers of the same length. */
  lemma SameHeader(f: Format, a: string, b: string, p: nat)
    requires AfterPipe(TrimEnd(a), Pipes(f)).Some? && HeaderLength(f, TrimEnd(a)) <= p
    requires p <= |TrimEnd(a)| && p <= |TrimEnd(b)| && a[..p] == b[..p]
    ensures AfterPipe(TrimEnd(b), Pipes(f)).Some?
    ensures HeaderLength(f, TrimEnd(b)) == HeaderLength(f, TrimEnd(a))
  {
    hide AfterPipe, TrimEnd, Pipes;
    PrefixTrimmed(a, p);
    PrefixTrimmed(b, p);
    SameStart(TrimEnd(a), TrimEnd(b), Pipes(f), p);
  }

  // ----- the slots of two records that redact alike ---------------------------------

  /** Equal outside the two windows, zero where only one of them is. */
  ghost predicate Windows(a: string, b: string, p: nat, q: nat) {
    && |a| == |b| && p + HEX_LEN <= |a| && q + HEX_LEN <= |a|
    && (forall x :: 0 <= x < |a| && !(p <= x < p + HEX_LEN) && !(q <= x < q + HEX_LEN) ==> a[x] == b[x])
    && (forall x :: p <= x < p + HEX_LEN && !(q <= x < q + HEX_LEN) ==> b[x] == '0')
    && (forall x :: q <= x < q + HEX_LEN && !(p <= x < p + HEX_LEN) ==> a[x] == '0')
  }

  lemma WindowsOf(a: string, b: string, hex: string, p: nat, q: nat)
    requires |hex| == HEX_LEN && At(a, hex, p) && At(b, hex, q)
    requires a[..p] + ZeroHex() + a[p + HEX_LEN..] == b[..q] + ZeroHex() + b[q + HEX_LEN..]
    ensures Windows(a, b, p, q)
    ensures p == q ==> a == b
  {
    var r := a[..p] + ZeroHex() + a[p + HEX_LEN..];
    var t := b[..q] + ZeroHex() + b[q + HEX_LEN..];
    assert |a| == |r| == |t| == |b|;
    forall x | 0 <= x < |a| ensures r[x] == if p <= x < p + HEX_LEN then '0' else a[x] {
    }
    forall x | 0 <= x < |b| ensures t[x] == if q <= x < q + HEX_LEN then '0' else b[x] {
    }
    if p == q {
      forall x | 0 <= x < |a| ensures a[x] == b[x] {
        if p <= x < p + HEX_LEN {
          assert a[x] == a[p..p + |hex|][x - p] && b[x] == b[q..q + |hex|][x - q];
        }
      }
    }
  }

  lemma FindSamePrefix(a: string, b: string, p: string, i: nat)
    requires Find(a, p) == Some(i) && i + |p| <= |b|
    requires forall x :: 0 <= x < i + |p| ==> a[x] == b[x]
    ensures Find(b, p) == Some(i)
  {
    hide Find;
    forall k | 0 <= k <= i ensures At(a, p, k) <==> At(b, p, k) {
      assert a[k..k + |p|] == b[k..k + |p|];
    }
    FindIs(b, p, i);
  }

  /** `ext` is the part of `line` from `s` on, less any line ends. */
  ghost predicate Within(line: string, s: nat, ext: string) {
    s + |ext| <= |line| && forall k :: 0 <= k < |ext| ==> ext[k] == line[s + k]
  }

  lemma ExtensionWithin(f: Format, line: string)
    requires AfterPipe(TrimEnd(line), Pipes(f)).Some?
    ensures Within(line, HeaderLength(f, TrimEnd(line)), Extension(f, line))
    ensures |Extension(f, line)| == |TrimEnd(line)| - HeaderLength(f, TrimEnd(line))
  {
    hide AfterPipe, TrimEnd, HeaderLength;
  }

  lemma WithinAgree(a: string, b: string, x: string, y: string, s: nat, p: nat)
    requires Within(a, s, x) && Within(b, s, y) && s <= p && p - s <= |x| && p - s <= |y|
    requires forall k :: 0 <= k < p ==> a[k] == b[k]
    ensures forall k :: 0 <= k < p - s ==> x[k] == y[k]
  {
  }

  /** The CEF slot is fixed by what precedes it. */
  lemma CefSlotFixed(a: string, b: string, p: nat)
    requires AfterPipe(TrimEnd(a), 7).Some? && SlotOf(Cef, a) == Some(p)
    requires p <= |TrimEnd(a)| && p <= |TrimEnd(b)| && forall x :: 0 <= x < p ==> a[x] == b[x]
    ensures SlotOf(Cef, b) == Some(p)
  {
    hide AfterPipe, Find, SlotOf, TrimEnd, HeaderLength, Extension, Within;
    SlotIs(Cef, a);
    var x := Extension(Cef, a);
    assert a[..p] == b[..p];
    SameHeader(Cef, a, b, p);
    var y := Extension(Cef, b);
    ExtensionWithin(Cef, a);
    ExtensionWithin(Cef, b);
    WithinAgree(a, b, x, y, HeaderLength(Cef, TrimEnd(a)), p);
    FindSamePrefix(x, y, "cs1=", Find(x, "cs1=").value);
    SlotIs(Cef, b);
  }

  lemma TrimmedTail(s: string)
    ensures |TrimEnd(s)| <= |s| && forall x :: |TrimEnd(s)| <= x < |s| ==> s[x] == '\n' || s[x] == '\r'
  {
    if s != [] && (s[|s| - 1] == '\n' || s[|s| - 1] == '\r') {
      TrimmedTail(s[..|s| - 1]);
    }
  }

  lemma TrimToHex(s: string)
    requires |s| >= HEX_LEN && (forall x :: 0 <= x < HEX_LEN ==> IsHex(s[x]))
    requires forall x :: HEX_LEN <= x < |s| ==> s[x] == '\n' || s[x] == '\r'
    ensures Sized(TrimEnd(s)).Some?
    decreases |s|
  {
    if |s| == HEX_LEN {
      assert IsHex(s[HEX_LEN - 1]);
      assert TrimEnd(s) == s;
      assert Ascii(s);
      AsciiLength(s);
    } else {
      TrimToHex(s[..|s| - 1]);
    }
  }

  /** A key and the tab before it cannot lie in a window of zeros. */
  lemma KeyClear(b: string, p: nat, q: nat)
    requires p < q && q <= |b| && q >= 10
    requires forall x :: p <= x < p + HEX_LEN && x < q ==> b[x] == '0'
    requires At(b, LeefKey(), q - 9) && b[q - 10] == '\t'
    ensures p + HEX_LEN <= q - 10
  {
    hide LeefKey;
    KeyChars();
    var at := b[if p < q - 10 then q - 10 else p];
    var key := b[q - 9..q];
    forall y | q - 10 <= y < q ensures b[y] != '0' {
      if y >= q - 9 {
        assert b[y] == key[y - (q - 9)];
      }
    }
  }

  /** A LEEF record's parts, in terms of its line. */
  ghost predicate Opened(line: string, s: nat, p: nat, hex: string) {
    && AfterPipe(TrimEnd(line), 5).Some? && s == HeaderLength(Leef, TrimEnd(line))
    && SlotOf(Leef, line) == Some(p)
    && s + 9 <= p <= |TrimEnd(line)|
    && LeefSlotAt(Extension(Leef, line)) == Some(p - s)
    && LeefSlotted(Extension(Leef, line), p - s, hex)
  }

  lemma OpenLeef(line: string)
    requires ExtractPrevHash(Leef, line).Some?
    ensures AfterPipe(TrimEnd(line), 5).Some? && SlotOf(Leef, line).Some?
    ensures Opened(line, HeaderLength(Leef, TrimEnd(line)), SlotOf(Leef, line).value, ExtractPrevHash(Leef, line).value)
  {
    hide AfterPipe, TrimEnd, LeefSlotted, SlotOf, HeaderLength, LeefSlotAt, LeefValue;
    SlotIs(Leef, line);
    LeefSlotValue(Extension(Leef, line));
    LeefSlotBounds(Extension(Leef, line));
  }

  lemma SlottedPiece(ext: string, r: nat, hex: string)
    requires LeefSlotted(ext, r, hex)
    ensures var n := IndexOf(ext[r..], '\t'); r + n <= |ext| && hex == TrimEnd(ext[r..r + n])
  {
    hide TrimEnd, LeefKey, IndexOf, At;
  }

  /** Past the digest a piece holds only line ends. */
  lemma PieceChars(ext: string, r: nat, hex: string, n: nat)
    requires LeefSlotted(ext, r, hex) && |hex| == HEX_LEN && n == IndexOf(ext[r..], '\t')
    ensures HEX_LEN <= n && r + n <= |ext|
    ensures forall x :: r + HEX_LEN <= x < r + n ==> ext[x] == '\n' || ext[x] == '\r'
  {
    hide TrimEnd, LeefKey, IndexOf, At, LeefSlotted;
    SlottedPiece(ext, r, hex);
    var piece := ext[r..r + n];
    TrimmedTail(piece);
    forall x | r + HEX_LEN <= x < r + n ensures ext[x] == '\n' || ext[x] == '\r' {
      assert ext[x] == piece[x - r];
    }
  }

  /** The end of the piece that holds the slot, when a tab is known to follow. */
  lemma PieceEnd(line: string, s: nat, p: nat, hex: string, z: nat) returns (t: nat)
    requires Opened(line, s, p, hex) && |hex| == HEX_LEN
    requires p <= z < |line| && line[z] == '\t'
    ensures p + HEX_LEN <= t <= z && line[t] == '\t'
    ensures forall x :: p + HEX_LEN <= x < t ==> line[x] == '\n' || line[x] == '\r'
  {
    hide AfterPipe, TrimEnd, LeefKey, HeaderLength, Extension, SlotOf, LeefSlotAt, IndexOf, LeefSlotted;
    var ext := Extension(Leef, line);
    TrimmedTail(line);
    ExtensionWithin(Leef, line);
    assert ext[z - s] == '\t';
    var rest := ext[p - s..];
    var n := IndexOf(rest, '\t');
    IndexOfIs(rest, '\t');
    PieceChars(ext, p - s, hex, n);
    assert rest[z - p] == '\t' && (n < |rest| ==> rest[n] == ext[p - s + n]);
    t := p + n;
    forall x | p + HEX_LEN <= x < t ensures line[x] == '\n' || line[x] == '\r' {
      assert line[x] == ext[x - s];
    }
  }

  lemma KeyBefore(line: string, s: nat, q: nat, hex: string)
    requires Opened(line, s, q, hex)
    ensures At(line, LeefKey(), q - 9) && q <= |line| && (q > s + 9 ==> line[q - 10] == '\t')
  {
    hide AfterPipe, TrimEnd, LeefKey, HeaderLength, SlotOf, LeefSlotAt, IndexOf;
    var ext := Extension(Leef, line);
    assert ext[q - s - 9..q - s] == line[q - 9..q];
  }

  /** Hexadecimal digits for a digest, then only line ends, up to a tab. */
  ghost predicate HexTo(y: string, r: nat, n: nat) {
    && r + HEX_LEN <= n < |y| && y[n] == '\t'
    && (forall x :: r <= x < r + HEX_LEN ==> IsHex(y[x]))
    && (forall x :: r + HEX_LEN <= x < n ==> y[x] == '\n' || y[x] == '\r')
  }

  lemma WithinHex(b: string, y: string, s: nat, p: nat, t: nat)
    requires Within(b, s, y) && HexTo(b, p, t) && s <= p && t - s < |y|
    ensures HexTo(y, p - s, t - s)
  {
    hide IsHex;
  }

  lemma HexPiece(y: string, r: nat, n: nat)
    requires HexTo(y, r, n)
    ensures y[n] == '\t' && forall x :: r <= x < n ==> y[x] != '\t'
    ensures Sized(TrimEnd(y[r..n])).Some?
  {
    TrimToHex(y[r..n]);
  }

  /** A line that agrees with a LEEF record up to its slot, and closes a value there, has the same slot. */
  lemma LeefSlotFixed(a: string, b: string, s: nat, p: nat, hex: string, t: nat)
    requires Opened(a, s, p, hex) && HexTo(b, p, t)
    requires forall x :: 0 <= x < p ==> x < |a| && a[x] == b[x]
    ensures SlotOf(Leef, b) == Some(p)
  {
    hide AfterPipe, TrimEnd, LeefKey, SlotOf, LeefSlotAt, IndexOf, Sized, HeaderLength, Extension, LeefSlotted, HexTo,
         Within;
    TabInside(b, p, t);
    assert a[..p] == b[..p];
    SameHeader(Leef, a, b, p);
    var x, y := Extension(Leef, a), Extension(Leef, b);
    ExtensionWithin(Leef, a);
    ExtensionWithin(Leef, b);
    WithinAgree(a, b, x, y, s, p);
    WithinHex(b, y, s, p, t);
    HexPiece(y, p - s, t - s);
    LeefSlotStable(x, y, p - s, t - s);
    SlotIs(Leef, b);
  }

  lemma TabInside(b: string, p: nat, t: nat)
    requires HexTo(b, p, t)
    ensures p + HEX_LEN <= t < |TrimEnd(b)| <= |b|
  {
    hide TrimEnd;
    TrimmedTail(b);
  }

  lemma ExtensionOf(f: Format, line: string)
    requires ExtractPrevHash(f, line).Some?
    ensures AfterPipe(TrimEnd(line), Pipes(f)).Some?
    ensures ExtractPrevHash(f, line) == if f.Cef? then CefValue(Extension(f, line)) else LeefValue(Extension(f, line))
  {
    hide AfterPipe, TrimEnd, CefValue, LeefValue, HeaderLength;
  }

  /** A value that stands at its slot in the extension stands at its slot in the line. */
  lemma SlotInLine(f: Format, line: string, hex: string, k: nat)
    requires AfterPipe(TrimEnd(line), Pipes(f)).Some? && k <= |Extension(f, line)| && At(Extension(f, line), hex, k)
    requires (if f.Cef? then CefSlotAt(Extension(f, line)) else LeefSlotAt(Extension(f, line))) == Some(k)
    ensures SlotOf(f, line).Some? && At(line, hex, SlotOf(f, line).value)
    ensures HeaderLength(f, TrimEnd(line)) <= SlotOf(f, line).value <= |TrimEnd(line)| <= |line|
  {
    hide AfterPipe, TrimEnd, CefSlotAt, LeefSlotAt, HeaderLength, Extension, SlotOf, At;
    SlotIs(f, line);
    ExtensionWithin(f, line);
    WithinAt(line, HeaderLength(f, TrimEnd(line)), Extension(f, line), hex, k);
  }

  lemma LeefValueAt(ext: string)
    requires LeefValue(ext).Some?
    ensures LeefSlotAt(ext).Some? && LeefSlotAt(ext).value <= |ext|
      && At(ext, LeefValue(ext).value, LeefSlotAt(ext).value)
  {
    hide LeefValue, LeefSlotAt, LeefSlotted, At;
    LeefSlotValue(ext);
    LeefSlotBounds(ext);
    SlottedPiece(ext, LeefSlotAt(ext).value, LeefValue(ext).value);
    LeefAt(ext, LeefSlotAt(ext).value, LeefValue(ext).value);
  }

  /** Whatever was extracted stands at the slot. */
  lemma AtSlot(f: Format, line: string)
    requires ExtractPrevHash(f, line).Some?
    ensures AfterPipe(TrimEnd(line), Pipes(f)).Some? && SlotOf(f, line).Some?
    ensures HeaderLength(f, TrimEnd(line)) <= SlotOf(f, line).value <= |TrimEnd(line)| <= |line|
    ensures At(line, ExtractPrevHash(f, line).value, SlotOf(f, line).value)
  {
    hide AfterPipe, TrimEnd, LeefSlotAt, CefSlotAt, LeefValue, CefValue, HeaderLength, Extension, SlotOf,
         ExtractPrevHash, At;
    ExtensionOf(f, line);
    var ext := Extension(f, line);
    if f.Cef? {
      CefAt(ext);
      SlotInLine(f, line, CefValue(ext).value, CefSlotAt(ext).value);
    } else {
      LeefValueAt(ext);
      SlotInLine(f, line, LeefValue(ext).value, LeefSlotAt(ext).value);
    }
  }

  lemma WithinAt(line: string, s: nat, ext: string, p: string, i: nat)
    requires Within(line, s, ext) && At(ext, p, i)
    ensures At(line, p, s + i)
  {
    assert line[s + i..s + i + |p|] == ext[i..i + |p|];
  }

  lemma CefAt(ext: string)
    requires CefValue(ext).Some?
    ensures CefSlotAt(ext).Some? && CefSlotAt(ext).value <= |ext| && At(ext, CefValue(ext).value, CefSlotAt(ext).value)
    ensures At(ext, "cs1=", CefSlotAt(ext).value - 4)
  {
    hide TrimEnd, IndexOf, Find;
    var i := Find(ext, "cs1=").value;
    var rest := ext[i + 4..];
    var v := TrimEnd(rest[..IndexOf(rest, ' ')]);
    assert v == rest[..|v|];
    assert ext[i + 4..i + 4 + |v|] == rest[..|v|];
  }

  lemma LeefAt(ext: string, r: nat, hex: string)
    requires r <= |ext| && var n := IndexOf(ext[r..], '\t'); r + n <= |ext| && hex == TrimEnd(ext[r..r + n])
    ensures At(ext, hex, r)
  {
    hide TrimEnd, IndexOf;
    var piece := ext[r..r + IndexOf(ext[r..], '\t')];
    assert hex == piece[..|hex|];
    assert ext[r..r + |hex|] == piece[..|hex|];
  }

  lemma HexAt(line: string, hex: string, p: nat)
    requires At(line, hex, p) && AllHex(hex)
    ensures p + |hex| <= |line| && forall x :: p <= x < p + |hex| ==> IsHex(line[x])
  {
    hide IsHex;
    forall x | p <= x < p + |hex| ensures IsHex(line[x]) {
      assert line[x] == line[p..p + |hex|][x - p];
    }
  }

  // ----- two records that redact alike ------------------------------------------------

  /** The last character of a CEF key stands before the slot. */
  lemma CefKeyBefore(line: string)
    requires ExtractPrevHash(Cef, line).Some?
    ensures SlotOf(Cef, line).Some? && 0 < SlotOf(Cef, line).value <= |line|
    ensures line[SlotOf(Cef, line).value - 1] == '='
  {
    hide AfterPipe, TrimEnd, Find, HeaderLength, CefValue, CefSlotAt;
    SlotIs(Cef, line);
    ExtensionWithin(Cef, line);
    var ext := Extension(Cef, line);
    CefAt(ext);
    NeedleEquals(ext, CefSlotAt(ext).value - 4);
  }

  lemma EqualsInside(line: string, p: nat)
    requires 0 < p <= |line| && line[p - 1] == '='
    ensures p <= |TrimEnd(line)|
  {
    hide TrimEnd;
    TrimmedTail(line);
  }

  /** A CEF slot reappears in every record that agrees up to it. */
  lemma CefSlotCopied(a: string, b: string, p: nat)
    requires ExtractPrevHash(Cef, a).Some? && SlotOf(Cef, a) == Some(p) && p <= |b|
    requires forall x :: 0 <= x < p ==> a[x] == b[x]
    ensures SlotOf(Cef, b) == Some(p)
  {
    hide ExtractPrevHash, AfterPipe, TrimEnd, SlotOf;
    AtSlot(Cef, a);
    CefKeyBefore(a);
    EqualsInside(b, p);
    CefSlotFixed(a, b, p);
  }

  /** A later occurrence of a LEEF record's digest lies past the end of the piece that holds the slot. */
  lemma LaterOccurrence(line: string, s: nat, q: nat, hex: string, r: nat) returns (t: nat)
    requires Opened(line, s, q, hex) && |hex| == HEX_LEN && AllHex(hex)
    requires At(line, hex, q) && At(line, hex, r) && q < r
    ensures t < r && HexTo(line, q, t)
  {
    hide AfterPipe, TrimEnd, LeefKey, HeaderLength, Extension, SlotOf, LeefSlotAt, IndexOf, LeefSlotted, At, AllHex;
    var ext := Extension(Leef, line);
    TrimmedTail(line);
    ExtensionWithin(Leef, line);
    var rest := ext[q - s..];
    var n := IndexOf(rest, '\t');
    IndexOfIs(rest, '\t');
    PieceChars(ext, q - s, hex, n);
    HexAt(line, hex, q);
    HexAt(line, hex, r);
    t := q + n;
    JunkTo(line, ext, s, q, n);
    assert n < |rest| ==> rest[n] == line[t];
    ClearOf(line, q, r, if n < |rest| then t else |line|);
  }

  lemma JunkTo(line: string, ext: string, s: nat, q: nat, n: nat)
    requires Within(line, s, ext) && s <= q && q - s + n <= |ext|
    requires forall x :: q - s + HEX_LEN <= x < q - s + n ==> ext[x] == '\n' || ext[x] == '\r'
    ensures forall x :: q + HEX_LEN <= x < q + n ==> line[x] == '\n' || line[x] == '\r'
  {
    forall x | q + HEX_LEN <= x < q + n ensures line[x] == '\n' || line[x] == '\r' {
      assert line[x] == ext[x - s];
    }
  }

  /** A run of digits that starts after another but not inside it starts past what ends the other. */
  lemma ClearOf(line: string, q: nat, r: nat, t: nat)
    requires q < r && r + HEX_LEN <= |line| && q + HEX_LEN <= t <= |line|
    requires forall x :: r <= x < r + HEX_LEN ==> IsHex(line[x])
    requires forall x :: q + HEX_LEN <= x < t ==> !IsHex(line[x])
    requires t < |line| ==> !IsHex(line[t])
    ensures t < r
  {
    hide IsHex;
    var x := if r < q + HEX_LEN then q + HEX_LEN else r;
    assert t == |line| || !IsHex(line[t]);
    var c := line[x];
  }

  lemma HexToCopied(a: string, b: string, q: nat, t: nat)
    requires HexTo(a, q, t) && t < |b| && forall x :: 0 <= x <= t ==> a[x] == b[x]
    ensures HexTo(b, q, t)
  {
    hide IsHex;
  }

  /** Of two LEEF records that agree up to one's slot, the other's slot is no earlier. */
  lemma LeefNoEarlier(a: string, b: string, p: nat, q: nat, hex: string)
    requires ExtractPrevHash(Leef, a) == Some(hex) && ExtractPrevHash(Leef, b) == Some(hex)
    requires |hex| == HEX_LEN && AllHex(hex)
    requires SlotOf(Leef, a) == Some(p) && SlotOf(Leef, b) == Some(q)
    requires p <= |b| && forall x :: 0 <= x < p ==> x < |a| && a[x] == b[x]
    ensures p <= q
  {
    hide AfterPipe, TrimEnd, LeefKey, SlotOf, LeefSlotAt, HeaderLength, ExtractPrevHash, Extension, LeefSlotted, At,
         AllHex, HexTo;
    OpenLeef(a);
    OpenLeef(b);
    AtSlot(Leef, b);
    if q < p {
      var s := HeaderLength(Leef, TrimEnd(a));
      assert a[..p] == b[..p];
      KeyBefore(a, s, p, hex);
      KeyEnds(a, p);
      EqualsInside(b, p);
      SameHeader(Leef, a, b, p);
      HexAt(b, hex, q);
      assert !IsHex(b[p - 1]) && !IsHex(b[p - 10]);
      var t := PieceEnd(b, s, q, hex, p - 10);
      assert HexTo(b, q, t) by { ShowHexTo(b, q, t); }
      HexToCopied(b, a, q, t);
      LeefSlotFixed(b, a, s, q, hex, t);
    }
  }

  lemma ShowHexTo(b: string, q: nat, t: nat)
    requires q + HEX_LEN <= t < |b| && b[t] == '\t'
    requires forall x :: q <= x < q + HEX_LEN ==> IsHex(b[x])
    requires forall x :: q + HEX_LEN <= x < t ==> b[x] == '\n' || b[x] == '\r'
    ensures HexTo(b, q, t)
  {
  }

  lemma KeyEnds(a: string, p: nat)
    requires p <= |a| && At(a, LeefKey(), p - 9)
    ensures a[p - 1] == '='
  {
    assert a[p - 1] == a[p - 9..p][8];
  }

  /** A LEEF slot that follows a window of zeros makes that window a slot too. */
  lemma LeefNoLater(a: string, b: string, p: nat, q: nat, r: nat, hex: string)
    requires ExtractPrevHash(Leef, a) == Some(hex) && ExtractPrevHash(Leef, b) == Some(hex) && |hex| == HEX_LEN
    requires SlotOf(Leef, a) == Some(p) && SlotOf(Leef, b) == Some(q) && q <= r && Windows(a, b, p, r)
    ensures q <= p
  {
    hide AfterPipe, TrimEnd, LeefKey, SlotOf, LeefSlotAt, HeaderLength, ExtractPrevHash, Extension, LeefSlotted, At,
         HexTo;
    OpenLeef(a);
    OpenLeef(b);
    if p < q {
      var s := HeaderLength(Leef, TrimEnd(a));
      assert forall x :: 0 <= x < p ==> a[x] == b[x];
      assert a[..p] == b[..p];
      assert p <= |TrimEnd(a)| && q <= |TrimEnd(b)|;
      SameHeader(Leef, a, b, p);
      KeyBefore(b, s, q, hex);
      KeyClear(b, p, q);
      assert a[q - 10] == b[q - 10];
      var t := PieceEnd(a, s, p, hex, q - 10);
      assert a[t] == b[t];
      ShowHexTo(b, p, t);
      LeefSlotFixed(a, b, s, p, hex, t);
    }
  }

  /** `r` is an occurrence of `b`'s digest at or after its slot. */
  ghost predicate FromSlot(f: Format, b: string, hex: string, r: nat) {
    && ExtractPrevHash(f, b) == Some(hex) && At(b, hex, r)
    && SlotOf(f, b).Some? && SlotOf(f, b).value <= r
  }

  /** An occurrence from the slot on cannot be before the other record's slot. */
  lemma WindowNotBefore(f: Format, a: string, b: string, p: nat, r: nat, hex: string)
    requires ExtractPrevHash(f, a) == Some(hex) && SlotOf(f, a) == Some(p)
    requires |hex| == HEX_LEN && AllHex(hex)
    requires FromSlot(f, b, hex, r) && Windows(a, b, p, r)
    ensures p <= r
  {
    hide AfterPipe, TrimEnd, SlotOf, HeaderLength, ExtractPrevHash, Windows, At, AllHex, HexTo, Opened;
    var q := SlotOf(f, b).value;
    AtSlot(f, b);
    if r < p {
      WindowsBelow(a, b, p, r);
      if f.Cef? {
        CefSlotCopied(b, a, q);
      } else if q == r {
        WindowsSwap(a, b, p, r);
        LeefNoLater(b, a, q, p, p, hex);
      } else {
        OpenLeef(b);
        var t := LaterOccurrence(b, HeaderLength(Leef, TrimEnd(b)), q, hex, r);
        HexToCopied(b, a, q, t);
        LeefSlotFixed(b, a, HeaderLength(Leef, TrimEnd(b)), q, hex, t);
      }
    }
  }

  lemma WindowsBelow(a: string, b: string, p: nat, q: nat)
    requires Windows(a, b, p, q)
    ensures |a| == |b| && p <= |a| && q <= |a|
    ensures forall x :: 0 <= x < p && x < q ==> a[x] == b[x]
  {
  }

  /** If it is after the other record's slot, the slots coincide. */
  lemma WindowAfter(f: Format, a: string, b: string, p: nat, r: nat, hex: string)
    requires ExtractPrevHash(f, a) == Some(hex) && SlotOf(f, a) == Some(p)
    requires |hex| == HEX_LEN && AllHex(hex)
    requires FromSlot(f, b, hex, r) && Windows(a, b, p, r) && p < r
    ensures SlotOf(f, b) == Some(p)
  {
    hide AfterPipe, TrimEnd, SlotOf, HeaderLength, ExtractPrevHash, Windows, At, AllHex;
    WindowsBelow(a, b, p, r);
    if f.Cef? {
      CefSlotCopied(a, b, p);
    } else {
      LeefNoEarlier(a, b, p, SlotOf(f, b).value, hex);
      LeefNoLater(a, b, p, SlotOf(f, b).value, r, hex);
    }
  }

  /** A digest that stands in a window of zeros is the zero digest, even if it overlaps the other window. */
  lemma {:induction false} ZeroDigest(b: string, hex: string, p: nat, r: nat, i: nat)
    requires At(b, hex, p) && At(b, hex, r) && p < r && |hex| == HEX_LEN && i < HEX_LEN
    requires forall x :: p <= x < p + HEX_LEN && x < r ==> b[x] == '0'
    ensures hex[i] == '0'
  {
    assert b[p + i] == b[p..p + HEX_LEN][i];
    if p + i >= r {
      assert b[p + i] == b[r..r + HEX_LEN][p + i - r];
      ZeroDigest(b, hex, p, r, p + i - r);
    }
  }

  lemma ZeroRedaction(line: string, hex: string)
    requires hex == ZeroHex()
    ensures Redact(line, hex) == line
  {
    hide ZeroHex, RFind;
    if RFind(line, hex).Some? {
      var i := RFind(line, hex).value;
      assert line == line[..i] + line[i..i + |hex|] + line[i + |hex|..];
    }
  }

  /**
   * Redaction loses nothing but the digest itself: a record whose digest does not occur again
   * after its slot redacts like no other record that embeds the same digest.
   */
  lemma RedactionFaithful(f: Format, a: string, b: string, chain: Hash)
    requires Clean(f, a)
    requires ExtractPrevHash(f, a) == Some(Hex(chain)) && ExtractPrevHash(f, b) == Some(Hex(chain))
    requires Redact(a, Hex(chain)) == Redact(b, Hex(chain))
    ensures a == b
  {
    hide ExtractPrevHash, SlotOf, RFind, Windows, At, Hex, AllHex, ZeroHex;
    var hex := Hex(chain);
    HexShape(chain);
    AtSlot(f, a);
    AtSlot(f, b);
    LastFromSlot(f, b, hex);
    var p, r := SlotOf(f, a).value, RFind(b, hex).value;
    WindowsOf(a, b, hex, p, r);
    WindowNotBefore(f, a, b, p, r, hex);
    if p < r {
      WindowAfter(f, a, b, p, r, hex);
      assert hex == ZeroHex() by { WindowZero(a, b, hex, p, r); }
      ZeroRedaction(a, hex);
      ZeroRedaction(b, hex);
    }
  }

  lemma WindowZero(a: string, b: string, hex: string, p: nat, r: nat)
    requires At(b, hex, p) && At(b, hex, r) && p < r && |hex| == HEX_LEN && Windows(a, b, p, r)
    ensures hex == ZeroHex()
  {
    hide At;
    forall i | 0 <= i < HEX_LEN ensures hex[i] == '0' {
      ZeroDigest(b, hex, p, r, i);
    }
  }

  /** The last occurrence of an extracted digest is at its slot or after it. */
  lemma LastFromSlot(f: Format, b: string, hex: string)
    requires ExtractPrevHash(f, b) == Some(hex)
    ensures RFind(b, hex).Some? && FromSlot(f, b, hex, RFind(b, hex).value)
  {
    hide ExtractPrevHash, SlotOf, At;
    AtSlot(f, b);
  }

  /**
   * Two records that both hold their common digest again after its slot, the last occurrence of
   * each standing where the other has zeros, and that are otherwise equal.
   */
  ghost predicate Twins(f: Format, a: string, b: string, hex: string) {
    && ExtractPrevHash(f, a) == Some(hex) && ExtractPrevHash(f, b) == Some(hex)
    && Echoes(f, a, hex) && Echoes(f, b, hex)
    && RFind(a, hex) != RFind(b, hex)
    && Windows(a, b, RFind(a, hex).value, RFind(b, hex).value)
  }

  /** The digest occurs again after its slot. */
  ghost predicate Echoes(f: Format, line: string, hex: string) {
    RFind(line, hex).Some? && SlotOf(f, line).Some? && SlotOf(f, line).value < RFind(line, hex).value
  }

  /** Exactly when two different records that embed one digest redact alike. */
  lemma RedactAlikeExactly(f: Format, a: string, b: string, chain: Hash)
    requires ExtractPrevHash(f, a) == Some(Hex(chain)) && ExtractPrevHash(f, b) == Some(Hex(chain))
    ensures a != b && Redact(a, Hex(chain)) == Redact(b, Hex(chain)) <==> Twins(f, a, b, Hex(chain))
  {
    hide ExtractPrevHash, SlotOf, RFind, Windows, At, Hex, AllHex, ZeroHex;
    var hex := Hex(chain);
    HexShape(chain);
    LastFromSlot(f, a, hex);
    LastFromSlot(f, b, hex);
    var p, r := RFind(a, hex).value, RFind(b, hex).value;
    if a != b && Redact(a, hex) == Redact(b, hex) {
      WindowsOf(a, b, hex, p, r);
      if SlotOf(f, a).value == p {
        RedactionFaithful(f, a, b, chain);
      }
      if SlotOf(f, b).value == r {
        RedactionFaithful(f, b, a, chain);
      }
    }
    if Twins(f, a, b, hex) {
      WindowsRedact(a, b, hex, p, r);
    }
  }

  lemma WindowsRedact(a: string, b: string, hex: string, p: nat, r: nat)
    requires |hex| == HEX_LEN && Windows(a, b, p, r)
    ensures a[..p] + ZeroHex() + a[p + HEX_LEN..] == b[..r] + ZeroHex() + b[r + HEX_LEN..]
  {
    var x, y := a[..p] + ZeroHex() + a[p + HEX_LEN..], b[..r] + ZeroHex() + b[r + HEX_LEN..];
    assert |x| == |y|;
    forall k | 0 <= k < |x| ensures x[k] == y[k] {
    }
  }

  lemma WindowsSwap(a: string, b: string, p: nat, q: nat)
    requires Windows(a, b, p, q)
    ensures Windows(b, a, q, p)
  {
  }

  lemma NotBlank(f: Format, line: string)
    requires ExtractPrevHash(f, line).Some?
    ensures !Blank(line)
  {
    hide CefValue, LeefValue;
    if Blank(line) {
      assert Blank(TrimEnd(line));
      NoPipes(TrimEnd(line), Pipes(f));
    }
  }

  lemma {:induction false} NoPipes(s: string, n: nat)
    requires Blank(s) && n > 0
    ensures AfterPipe(s, n).None?
    decreases |s|
  {
    if s != [] {
      assert IsWhite(s[0]);
      NoPipes(s[1..], n);
    }
  }
}
