/** Concrete records the audit chain cannot tell apart. */
module AuditEchoes {
  import opened Base
  import opened AuditText
  import opened AuditFormat
  import opened AuditChain
  import opened AuditTamper
  import opened AuditHistory

  // ----- a record's last two fields -------------------------------------------------

  /** A job-start event with everything but its two paths blank. */
  function Started(src: string, dst: string): Event {
    JobStarted("", "", "", src, dst, "", "")
  }

  /** What stands between the two paths of a job-start record. */
  function Between(f: Format): string {
    if f.Cef? then " filePath=" else "\tdst="
  }

  function PathsAfter(f: Format, prev: string): string {
    match f
    case Cef =>
      CefHeader(Started("", "")) + Join(FrontCef(prev), ' ') + " fname="
    case Leef =>
      LeefHeader(Started("", "")) + Join(FrontLeef(prev), '\t') + "\tsrc="
  }

  function StartedCef(): seq<Part> {
    [("cs2Label", "jobId"), ("cs2", ""), ("cs3Label", "kind"), ("cs3", "")]
  }

  function StartedLeef(): seq<Part> {
    [("signature", "JobStarted"), ("jobId", ""), ("cat", "")]
  }

  lemma JoinTwo(p: Part, q: Part, sep: char)
    ensures Join([p, q], sep) == Pair(p) + [sep] + Pair(q)
  {
    assert [p, q][1..] == [q];
  }

  lemma JoinPaths(front: seq<Part>, p: Part, q: Part, sep: char)
    requires front != []
    ensures Join(front + [p, q], sep) == Join(front, sep) + [sep] + Pair(p) + [sep] + Pair(q)
  {
    hide Join, Pair;
    JoinAppend(front, [p, q], sep);
    JoinTwo(p, q, sep);
  }

  function FrontCef(prev: string): seq<Part> {
    CefBefore(Started("", "")) + [("cs1", prev)] + StartedCef()
  }

  function FrontLeef(prev: string): seq<Part> {
    LeefBefore(Started("", "")) + [("prevHash", prev)] + StartedLeef()
  }

  lemma StartedCefParts(src: string, dst: string, prev: string)
    ensures CefParts(Started(src, dst), prev) == FrontCef(prev) + [("fname", src), ("filePath", dst)]
  {
  }

  lemma StartedLeefParts(src: string, dst: string, prev: string)
    ensures LeefParts(Started(src, dst), prev) == FrontLeef(prev) + [("src", src), ("dst", dst)]
  {
    hide Decimal;
  }

  lemma KeyTexts()
    ensures [' '] + "fname" + "=" == " fname=" && [' '] + "filePath" + "=" == " filePath="
    ensures ['\t'] + "src" + "=" == "\tsrc=" && ['\t'] + "dst" + "=" == "\tdst="
  {
  }

  lemma StartedCefLine(src: string, dst: string, prev: string)
    ensures FormatRecord(Cef, Started(src, dst), prev)
      == PathsAfter(Cef, prev) + Escape(src) + Between(Cef) + Escape(dst) + "\n"
  {
    hide Join, Escape, CefHeader, LeefHeader, Decimal, FrontCef, CefParts;
    StartedCefParts(src, dst, prev);
    assert FrontCef(prev) != [] by { FrontsNotEmpty(prev); }
    JoinPaths(FrontCef(prev), ("fname", src), ("filePath", dst), ' ');
    SameCefHeader(src, dst);
    Glue(CefHeader(Started("", "")), Join(FrontCef(prev), ' '), ' ', "fname", Escape(src), "filePath", Escape(dst));
    KeyTexts();
  }

  lemma FrontsNotEmpty(prev: string)
    ensures FrontCef(prev) != [] && FrontLeef(prev) != []
  {
  }

  lemma StartedLeefLine(src: string, dst: string, prev: string)
    ensures FormatRecord(Leef, Started(src, dst), prev)
      == PathsAfter(Leef, prev) + Escape(src) + Between(Leef) + Escape(dst) + "\n"
  {
    hide Join, Escape, CefHeader, LeefHeader, Decimal, FrontLeef, LeefParts;
    StartedLeefParts(src, dst, prev);
    assert FrontLeef(prev) != [] by { FrontsNotEmpty(prev); }
    JoinPaths(FrontLeef(prev), ("src", src), ("dst", dst), '\t');
    SameLeefHeader(src, dst);
    Glue(LeefHeader(Started("", "")), Join(FrontLeef(prev), '\t'), '\t', "src", Escape(src), "dst", Escape(dst));
    KeyTexts();
  }

  /** The two paths are the last things a job-start record holds. */
  lemma StartedLine(f: Format, src: string, dst: string, prev: string)
    ensures FormatRecord(f, Started(src, dst), prev)
      == PathsAfter(f, prev) + Escape(src) + Between(f) + Escape(dst) + "\n"
  {
    hide FormatRecord, PathsAfter, Escape, Between;
    StartedCefLine(src, dst, prev);
    StartedLeefLine(src, dst, prev);
  }

  lemma SameCefHeader(src: string, dst: string)
    ensures CefHeader(Started(src, dst)) == CefHeader(Started("", ""))
  {
    hide Fields, EscapeHeader, Decimal;
  }

  lemma SameLeefHeader(src: string, dst: string)
    ensures LeefHeader(Started(src, dst)) == LeefHeader(Started("", ""))
  {
    hide Fields, EscapeHeader;
  }

  lemma Glue(h: string, j: string, sep: char, k: string, x: string, l: string, y: string)
    ensures h + (j + [sep] + (k + "=" + x) + [sep] + (l + "=" + y)) + "\n"
      == h + j + ([sep] + k + "=") + x + ([sep] + l + "=") + y + "\n"
  {
  }

  // ----- swapping two runs of digits --------------------------------------------------

  lemma RFindIs(s: string, p: string, i: nat)
    requires At(s, p, i) && forall k :: i < k ==> !At(s, p, k)
    ensures RFind(s, p) == Some(i)
  {
    hide At;
  }

  /** No 64 digits start after `i` in a text whose digits after `i + 64` are one run of 64 at `z`. */
  lemma NoLater(s: string, hex: string, i: nat, z: nat, k: int)
    requires |hex| == HEX_LEN && AllHex(hex) && |s| == z + HEX_LEN + 1 && i + HEX_LEN < z <= i + 2 * HEX_LEN
    requires s[i + HEX_LEN] == ' ' || s[i + HEX_LEN] == '\t'
    requires s[z - 1] == '=' && s[z + HEX_LEN] == '\n'
    requires i < k && At(s, hex, k)
    ensures k == z
  {
    hide At, AllHex;
    AtBounds(s, hex, k);
    HexAt(s, hex, k);
    assert !IsHex(s[i + HEX_LEN]) && !IsHex(s[z - 1]) && !IsHex(s[z + HEX_LEN]);
  }

  lemma AtBounds(s: string, p: string, k: int)
    requires At(s, p, k)
    ensures 0 <= k && k + |p| <= |s|
  {
  }

  /** `before`, a run of 64, `mid`, another run of 64, a newline. */
  function Runs(before: string, x: string, mid: string, y: string): string {
    before + x + mid + y + "\n"
  }

  ghost predicate Gap(mid: string) {
    0 < |mid| <= HEX_LEN && (mid[0] == ' ' || mid[0] == '\t') && mid[|mid| - 1] == '='
  }

  ghost predicate Shaped(s: string, i: nat, z: nat, x: string, y: string) {
    && |s| == z + HEX_LEN + 1 && i + HEX_LEN < z <= i + 2 * HEX_LEN
    && At(s, x, i) && At(s, y, z)
    && (s[i + HEX_LEN] == ' ' || s[i + HEX_LEN] == '\t') && s[z - 1] == '=' && s[z + HEX_LEN] == '\n'
  }

  lemma RunsShape(before: string, x: string, mid: string, y: string)
    requires |x| == HEX_LEN && |y| == HEX_LEN && Gap(mid)
    ensures var s, i := Runs(before, x, mid, y), |before|;
      var z := i + HEX_LEN + |mid|;
      Shaped(s, i, z, x, y)
  {
    var s, i := Runs(before, x, mid, y), |before|;
    var z := i + HEX_LEN + |mid|;
    assert s[i..i + HEX_LEN] == x && s[z..z + HEX_LEN] == y;
  }

  lemma RunsParts(before: string, x: string, mid: string, y: string)
    requires |x| == HEX_LEN && |y| == HEX_LEN
    ensures var s, i := Runs(before, x, mid, y), |before|;
      var z := i + HEX_LEN + |mid|;
      && |s| == z + HEX_LEN + 1
      && s[..i] == before && s[i + HEX_LEN..] == mid + y + "\n"
      && s[..z] == before + x + mid && s[z + HEX_LEN..] == "\n"
  {
  }

  /** In such a text nothing equal to the digest starts after the first run but the second. */
  lemma OnlySecond(s: string, i: nat, z: nat, x: string, y: string, hex: string, k: int)
    requires Shaped(s, i, z, x, y) && |hex| == HEX_LEN && AllHex(hex) && i < k && At(s, hex, k)
    requires |y| == HEX_LEN
    ensures k == z && y == hex
  {
    hide AllHex;
    NoLater(s, hex, i, z, k);
  }

  /** The digest in the first run is found there, if the second run is another. */
  lemma LastInFirst(before: string, hex: string, mid: string, y: string)
    requires |hex| == HEX_LEN && AllHex(hex) && |y| == HEX_LEN && y != hex && Gap(mid)
    ensures RFind(Runs(before, hex, mid, y), hex) == Some(|before|)
    ensures Redact(Runs(before, hex, mid, y), hex) == Runs(before, ZeroHex(), mid, y)
  {
    hide RFind, AllHex, ZeroHex, Runs, At, Gap;
    RunsShape(before, hex, mid, y);
    RunsParts(before, hex, mid, y);
    var s, i := Runs(before, hex, mid, y), |before|;
    var z := i + HEX_LEN + |mid|;
    forall k | i < k ensures !At(s, hex, k) {
      if At(s, hex, k) {
        OnlySecond(s, i, z, hex, y, hex, k);
      }
    }
    RFindIs(s, hex, i);
    Reassembled(before, ZeroHex(), mid, y);
  }

  lemma LastInSecond(before: string, x: string, mid: string, hex: string)
    requires |hex| == HEX_LEN && AllHex(hex) && |x| == HEX_LEN && Gap(mid)
    ensures RFind(Runs(before, x, mid, hex), hex) == Some(|before| + HEX_LEN + |mid|)
    ensures Redact(Runs(before, x, mid, hex), hex) == Runs(before, x, mid, ZeroHex())
  {
    hide RFind, AllHex, ZeroHex, Runs, At, Gap;
    RunsShape(before, x, mid, hex);
    RunsParts(before, x, mid, hex);
    var s, i := Runs(before, x, mid, hex), |before|;
    var z := i + HEX_LEN + |mid|;
    forall k | z < k ensures !At(s, hex, k) {
      if At(s, hex, k) {
        OnlySecond(s, i, z, x, hex, hex, k);
      }
    }
    RFindIs(s, hex, z);
    Reassembled(before, x, mid, ZeroHex());
  }

  lemma Reassembled(before: string, x: string, mid: string, y: string)
    ensures before + x + (mid + y + "\n") == Runs(before, x, mid, y)
    ensures (before + x + mid) + y + "\n" == Runs(before, x, mid, y)
  {
  }

  lemma ZerosAreHex()
    ensures AllHex(ZeroHex()) && |ZeroHex()| == HEX_LEN
  {
  }

  lemma {:induction false} HexZeros(n: nat)
    ensures forall i :: 0 <= i < |Hex(Zeros(n))| ==> Hex(Zeros(n))[i] == '0'
  {
    if n > 0 {
      assert Zeros(n)[1..] == Zeros(n - 1);
      HexZeros(n - 1);
    }
  }

  lemma ZeroChain(chain: Hash)
    ensures Hex(chain) == ZeroHex() <==> chain == Zeros(32)
  {
    HexShape(Zeros(32));
    HexZeros(32);
    assert Hex(Zeros(32)) == ZeroHex();
    if Hex(chain) == ZeroHex() {
      HexInjective(chain, Zeros(32));
    }
  }

  // ----- two records nothing tells apart ------------------------------------------------

  /**
   * The failing input of tamper evidence, printed by the writer itself in either format: a
   * job-start record whose source path is the digest it embeds and whose destination is 64
   * zeros, and the same record with the two paths swapped. They differ and redact alike.
   */
  lemma SwappedPathsAreTwins(f: Format, chain: Hash)
    requires chain != Zeros(32)
    ensures var hex := Hex(chain);
      var a, b := FormatRecord(f, Started(hex, ZeroHex()), hex), FormatRecord(f, Started(ZeroHex(), hex), hex);
      && a != b && OneLine(a) && OneLine(b)
      && Redact(a, hex) == Redact(b, hex) && Twins(f, a, b, hex)
  {
    hide RFind, ZeroHex, Hex, FormatRecord, PathsAfter, AllHex, Escape, OneLine, ExtractPrevHash, Twins, Redact;
    var hex := Hex(chain);
    var mid, before := Between(f), PathsAfter(f, hex);
    HexShape(chain);
    ZerosAreHex();
    ZeroChain(chain);
    EscapeHex(hex);
    EscapeHex(ZeroHex());
    StartedLine(f, hex, ZeroHex(), hex);
    StartedLine(f, ZeroHex(), hex, hex);
    var a, b := FormatRecord(f, Started(hex, ZeroHex()), hex), FormatRecord(f, Started(ZeroHex(), hex), hex);
    LastInFirst(before, hex, mid, ZeroHex());
    LastInSecond(before, ZeroHex(), mid, hex);
    ChainIsHex(chain);
    RecordIsOneLine(f, Started(hex, ZeroHex()), hex);
    RecordIsOneLine(f, Started(ZeroHex(), hex), hex);
    ExtractUndoesFormat(f, Started(hex, ZeroHex()), hex);
    ExtractUndoesFormat(f, Started(ZeroHex(), hex), hex);
    RedactAlikeExactly(f, a, b, chain);
  }

  /**
   * So after any accepted file that has moved off the starting digest, one of the two can be
   * exchanged for the other: digest and report are the same over the whole file, whatever
   * follows and whatever the hash function.
   */
  lemma SwappedPathsUndetected(hash: Bytes -> Hash, f: Format, before: string, after: string)
    requires Terminated(before) && Verified(hash, f, Lines(before)).chain != Zeros(32)
    ensures var hex := Hex(Verified(hash, f, Lines(before)).chain);
      var a, b := FormatRecord(f, Started(hex, ZeroHex()), hex), FormatRecord(f, Started(ZeroHex(), hex), hex);
      && a != b
      && Verified(hash, f, Lines(before + a + after)) == Verified(hash, f, Lines(before + b + after))
  {
    hide Verified, Lines, Hex, ZeroHex, FormatRecord, Twins, OneLine, Redact;
    var chain := Verified(hash, f, Lines(before)).chain;
    var hex := Hex(chain);
    SwappedPathsAreTwins(f, chain);
    TwinsUndetected(hash, f, before, FormatRecord(f, Started(hex, ZeroHex()), hex),
                    FormatRecord(f, Started(ZeroHex(), hex), hex), after);
  }

  /**
   * Spelled out: three records in a log, the middle one exchanged for its twin, and both logs
   * accepted, for every hash function that does not take the first record to the zero digest.
   */
  lemma SwappedLogs(hash: Bytes -> Hash, f: Format) returns (first: string, a: string, b: string, last: string)
    requires hash(Hashed(Zeros(32), FormatRecord(f, Started("", ""), Hex(Zeros(32))))) != Zeros(32)
    ensures a != b && OneLine(a) && OneLine(b) && HasRecord(Lines(last))
    ensures Accepted(hash, f, first + a + last) && Accepted(hash, f, first + b + last)
  {
    hide FormatRecord, Hex, Redact, Verified, Lines, Tail, ExtractPrevHash, Twins, OneLine, Blank, ZeroHex;
    first := FormatRecord(f, Started("", ""), Hex(Zeros(32)));
    FirstRecordAccepted(hash, f, Started("", ""));
    var chain := Verified(hash, f, Lines(first)).chain;
    AcceptedTail(hash, f, Lines(first));
    var hex := Hex(chain);
    a, b := FormatRecord(f, Started(hex, ZeroHex()), hex), FormatRecord(f, Started(ZeroHex(), hex), hex);
    RecordAccepted(hash, f, first, Started(hex, ZeroHex()));
    var prev := Hex(Tail(hash, Lines(first + a)));
    last := FormatRecord(f, Started("", ""), prev);
    RecordAccepted(hash, f, first + a, Started("", ""));
    SwappedPathsAreTwins(f, chain);
    SwappedPathsUndetected(hash, f, first, last);
    RecordIsOneLine(f, Started("", ""), prev);
    LinesOfOne(last);
    assert Lines(last)[0] == last;
  }

  /** Two different one-record logs, both accepted: nothing vouches for a last record. */
  lemma LastRecordsDiffer(hash: Bytes -> Hash, f: Format)
    ensures var hex := Hex(Zeros(32));
      var a, b := FormatRecord(f, Started("", ""), hex), FormatRecord(f, Started("", "x"), hex);
      a != b && Accepted(hash, f, a) && Accepted(hash, f, b)
  {
    hide FormatRecord, Hex, PathsAfter, Verified, Lines, Tail, Redact, NextChainHash;
    var hex := Hex(Zeros(32));
    StartedLine(f, "", "", hex);
    StartedLine(f, "", "x", hex);
    assert |Escape("")| == 0 && |Escape("x")| == 1;
    FirstRecordAccepted(hash, f, Started("", ""));
    FirstRecordAccepted(hash, f, Started("", "x"));
  }

  lemma FirstRecordAccepted(hash: Bytes -> Hash, f: Format, e: Event)
    ensures var line := FormatRecord(f, e, Hex(Zeros(32)));
      && Accepted(hash, f, line) && Terminated(line)
      && Verified(hash, f, Lines(line)).chain == hash(Hashed(Zeros(32), line))
  {
    hide FormatRecord, Hex, Redact, ExtractPrevHash;
    NoLines();
    assert Tail(hash, []) == Zeros(32);
    RecordAccepted(hash, f, "", e);
    assert "" + FormatRecord(f, e, Hex(Zeros(32))) == FormatRecord(f, e, Hex(Zeros(32)));
    AcceptedTail(hash, f, Lines(FormatRecord(f, e, Hex(Zeros(32)))));
  }
}
