/** The hash chain over audit records: resuming it, verifying it, and what verification can detect. */
module AuditChain {
  import opened Base
  import opened AuditText
  import opened AuditFormat

  // ----- one step -----------------------------------------------------------------

  /** BLAKE3 over the previous digest and the record's bytes. */
  function NextChainHash(hash: Bytes -> Hash, prev: Hash, record: string): Hash {
    hash(prev + Utf8(record))
  }

  /** The record with the last occurrence of `hex` zeroed out. */
  function Redact(line: string, hex: string): string {
    match RFind(line, hex)
    case None => line
    case Some(i) => line[..i] + ZeroHex() + line[i + |hex|..]
  }

  /** The chain after a file's lines, each redacted of the digest it should embed. */
  function Tail(hash: Bytes -> Hash, lines: seq<string>): Hash {
    if lines == [] then Zeros(32)
    else
      var chain := Tail(hash, lines[..|lines| - 1]);
      var line := lines[|lines| - 1];
      if Blank(line) then chain else NextChainHash(hash, chain, Redact(line, Hex(chain)))
  }

  /** `read_tail_state`: the chain to resume from and the file's length in bytes. */
  method ReadTailState(hash: Bytes -> Hash, text: string) returns (chain: Hash, size: nat)
    ensures chain == Tail(hash, Lines(text)) && size == |Utf8(text)|
  {
    hide Lines, Redact, NextChainHash, Hex, Blank, Utf8;
    var lines := Lines(text);
    chain := Zeros(32);
    assert lines[..0] == [];
    for i := 0 to |lines|
      invariant chain == Tail(hash, lines[..i])
    {
      hide Tail;
      assert lines[..i + 1] == lines[..i] + [lines[i]];
      TailSnoc(hash, lines[..i], lines[i]);
      if !Blank(lines[i]) {
        chain := NextChainHash(hash, chain, Redact(lines[i], Hex(chain)));
      }
    }
    assert lines[..|lines|] == lines;
    size := |Utf8(text)|;
  }

  lemma TailSnoc(hash: Bytes -> Hash, lines: seq<string>, line: string)
    ensures Tail(hash, lines + [line])
      == if Blank(line) then Tail(hash, lines)
         else NextChainHash(hash, Tail(hash, lines), Redact(line, Hex(Tail(hash, lines))))
  {
    assert (lines + [line])[..|lines|] == lines;
  }

  // ----- verification -----------------------------------------------------------------

  datatype VerifyReport = VerifyReport(total: nat, matches: nat, mismatches: nat, missing: nat, failed: seq<nat>)

  predicate IsOk(r: VerifyReport) {
    r.mismatches == 0 && r.missing == 0
  }

  datatype Checked = Checked(chain: Hash, report: VerifyReport)

  /** One line, the `number`-th of the file. */
  function CheckLine(hash: Bytes -> Hash, f: Format, c: Checked, line: string, number: nat): Checked {
    if Blank(line) then c
    else
      var r := c.report.(total := c.report.total + 1);
      match ExtractPrevHash(f, line)
      case None =>
        Checked(NextChainHash(hash, c.chain, line), r.(missing := r.missing + 1, failed := r.failed + [number]))
      case Some(hex) =>
        Checked(NextChainHash(hash, c.chain, Redact(line, hex)),
                if hex == Hex(c.chain) then r.(matches := r.matches + 1)
                else r.(mismatches := r.mismatches + 1, failed := r.failed + [number]))
  }

  function Verified(hash: Bytes -> Hash, f: Format, lines: seq<string>): Checked {
    if lines == [] then Checked(Zeros(32), VerifyReport(0, 0, 0, 0, []))
    else CheckLine(hash, f, Verified(hash, f, lines[..|lines| - 1]), lines[|lines| - 1], |lines|)
  }

  predicate Accepted(hash: Bytes -> Hash, f: Format, text: string) {
    IsOk(Verified(hash, f, Lines(text)).report)
  }

  method VerifyChain(hash: Bytes -> Hash, f: Format, text: string) returns (report: VerifyReport)
    ensures report == Verified(hash, f, Lines(text)).report
    ensures IsOk(report) <==> Accepted(hash, f, text)
    ensures report.total == report.matches + report.mismatches + report.missing
    ensures |report.failed| == report.mismatches + report.missing
  {
    hide ExtractPrevHash, Redact, NextChainHash, Lines, Hex, Blank;
    var lines := Lines(text);
    var chain: Hash := Zeros(32);
    report := VerifyReport(0, 0, 0, 0, []);
    assert lines[..0] == [];
    for i := 0 to |lines|
      invariant Checked(chain, report) == Verified(hash, f, lines[..i])
      invariant report.total == report.matches + report.mismatches + report.missing
      invariant |report.failed| == report.mismatches + report.missing
    {
      hide Verified;
      var line := lines[i];
      assert lines[..i + 1] == lines[..i] + [line];
      VerifiedSnoc(hash, f, lines[..i], line);
      if Blank(line) { continue; }
      report := report.(total := report.total + 1);
      var hex := ExtractPrevHash(f, line);
      if hex.None? {
        report := report.(missing := report.missing + 1, failed := report.failed + [i + 1]);
        chain := NextChainHash(hash, chain, line);
        continue;
      }
      if hex.value == Hex(chain) {
        report := report.(matches := report.matches + 1);
      } else {
        report := report.(mismatches := report.mismatches + 1, failed := report.failed + [i + 1]);
      }
      chain := NextChainHash(hash, chain, Redact(line, hex.value));
    }
    assert lines[..|lines|] == lines;
  }

  lemma VerifiedSnoc(hash: Bytes -> Hash, f: Format, lines: seq<string>, line: string)
    ensures Verified(hash, f, lines + [line]) == CheckLine(hash, f, Verified(hash, f, lines), line, |lines| + 1)
  {
    assert (lines + [line])[..|lines|] == lines;
  }

  // ----- what the report counts -------------------------------------------------------

  datatype Verdict = Skipped | Matched | Mismatched | Missing

  /** The verdict on a line: by whether it is blank, and by the digest it embeds and the one reached before it. */
  function VerdictOn(hash: Bytes -> Hash, f: Format, lines: seq<string>, i: nat): Verdict
    requires i < |lines|
  {
    if Blank(lines[i]) then Skipped
    else if ExtractPrevHash(f, lines[i]).None? then Missing
    else if ExtractPrevHash(f, lines[i]) == Some(Hex(Verified(hash, f, lines[..i]).chain)) then Matched
    else Mismatched
  }

  ghost function With(hash: Bytes -> Hash, f: Format, lines: seq<string>, v: Verdict): set<nat> {
    set i: nat | i < |lines| && VerdictOn(hash, f, lines, i) == v
  }

  lemma VerdictBefore(hash: Bytes -> Hash, f: Format, lines: seq<string>, i: nat)
    requires i + 1 < |lines|
    ensures VerdictOn(hash, f, lines[..|lines| - 1], i) == VerdictOn(hash, f, lines, i)
  {
    hide Blank, ExtractPrevHash, Hex, Verified;
    assert lines[..|lines| - 1][..i] == lines[..i];
  }

  lemma WithSnoc(hash: Bytes -> Hash, f: Format, lines: seq<string>, v: Verdict)
    requires lines != []
    ensures |With(hash, f, lines, v)|
      == |With(hash, f, lines[..|lines| - 1], v)| + if VerdictOn(hash, f, lines, |lines| - 1) == v then 1 else 0
  {
    hide VerdictOn;
    var n: nat := |lines| - 1;
    var front := With(hash, f, lines[..n], v);
    forall i: nat | i < n ensures VerdictOn(hash, f, lines[..n], i) == VerdictOn(hash, f, lines, i) {
      VerdictBefore(hash, f, lines, i);
    }
    if VerdictOn(hash, f, lines, n) == v {
      assert With(hash, f, lines, v) == front + {n} && n !in front;
    } else {
      assert With(hash, f, lines, v) == front;
    }
  }

  /** The effect of the last line on the report, by the verdict on it. */
  lemma LastVerdict(hash: Bytes -> Hash, f: Format, lines: seq<string>)
    requires lines != []
    ensures var n: nat := |lines| - 1;
      var r, v := Verified(hash, f, lines[..n]).report, VerdictOn(hash, f, lines, n);
      Verified(hash, f, lines).report == match v
        case Skipped => r
        case Matched => r.(total := r.total + 1, matches := r.matches + 1)
        case Mismatched => r.(total := r.total + 1, mismatches := r.mismatches + 1, failed := r.failed + [n + 1])
        case Missing => r.(total := r.total + 1, missing := r.missing + 1, failed := r.failed + [n + 1])
  {
    hide Blank, ExtractPrevHash, Hex, Redact, NextChainHash;
  }

  /** Each counter is the number of lines with its verdict. */
  lemma {:induction false} ReportCounts(hash: Bytes -> Hash, f: Format, lines: seq<string>)
    ensures var r := Verified(hash, f, lines).report;
      && r.matches == |With(hash, f, lines, Matched)| && r.mismatches == |With(hash, f, lines, Mismatched)|
      && r.missing == |With(hash, f, lines, Missing)| && r.total == r.matches + r.mismatches + r.missing
  {
    hide VerdictOn, With;
    if lines == [] {
      NoneWith(hash, f);
    } else {
      hide Verified;
      ReportCounts(hash, f, lines[..|lines| - 1]);
      WithSnoc(hash, f, lines, Matched);
      WithSnoc(hash, f, lines, Mismatched);
      WithSnoc(hash, f, lines, Missing);
      LastVerdict(hash, f, lines);
    }
  }

  lemma NoneWith(hash: Bytes -> Hash, f: Format)
    ensures forall v :: With(hash, f, [], v) == {}
  {
  }

  lemma {:induction false} FailedInOrder(hash: Bytes -> Hash, f: Format, lines: seq<string>)
    ensures var failed := Verified(hash, f, lines).report.failed;
      && (forall k :: 0 <= k < |failed| ==> 1 <= failed[k] <= |lines|)
      && (forall i, j :: 0 <= i < j < |failed| ==> failed[i] < failed[j])
  {
    hide VerdictOn;
    if lines != [] {
      hide Verified;
      FailedInOrder(hash, f, lines[..|lines| - 1]);
      LastVerdict(hash, f, lines);
    }
  }

  ghost predicate Fails(hash: Bytes -> Hash, f: Format, lines: seq<string>, i: nat)
    requires i < |lines|
  {
    VerdictOn(hash, f, lines, i).Mismatched? || VerdictOn(hash, f, lines, i).Missing?
  }

  /** The failed lines are listed in order, counted from 1, and are those with a wrong digest or with none. */
  lemma {:induction false} FailedLines(hash: Bytes -> Hash, f: Format, lines: seq<string>)
    ensures var failed := Verified(hash, f, lines).report.failed;
      && (forall i, j :: 0 <= i < j < |failed| ==> failed[i] < failed[j])
      && (forall k :: k in failed ==> 1 <= k <= |lines| && Fails(hash, f, lines, k - 1))
      && (forall i: nat :: i < |lines| && Fails(hash, f, lines, i) ==> i + 1 in failed)
  {
    hide VerdictOn, Fails, Verified;
    FailedInOrder(hash, f, lines);
    if lines == [] {
      NoneFailed(hash, f);
    } else {
      var n: nat := |lines| - 1;
      FailedLines(hash, f, lines[..n]);
      FailedLast(hash, f, lines);
      forall i: nat | i < n ensures Fails(hash, f, lines[..n], i) == Fails(hash, f, lines, i) {
        FailsBefore(hash, f, lines, i);
      }
    }
  }

  lemma NoneFailed(hash: Bytes -> Hash, f: Format)
    ensures Verified(hash, f, []).report.failed == []
  {
  }

  lemma FailedLast(hash: Bytes -> Hash, f: Format, lines: seq<string>)
    requires lines != []
    ensures Verified(hash, f, lines).report.failed
      == Verified(hash, f, lines[..|lines| - 1]).report.failed
         + if Fails(hash, f, lines, |lines| - 1) then [|lines|] else []
  {
    hide VerdictOn, Verified;
    LastVerdict(hash, f, lines);
  }

  lemma FailsBefore(hash: Bytes -> Hash, f: Format, lines: seq<string>, i: nat)
    requires i + 1 < |lines|
    ensures Fails(hash, f, lines[..|lines| - 1], i) == Fails(hash, f, lines, i)
  {
    hide VerdictOn;
    VerdictBefore(hash, f, lines, i);
  }

  /** Failures are never forgotten. */
  lemma {:induction false} OkPrefix(hash: Bytes -> Hash, f: Format, a: seq<string>, b: seq<string>)
    requires IsOk(Verified(hash, f, a + b).report)
    ensures IsOk(Verified(hash, f, a).report)
    decreases |b|
  {
    hide Blank, ExtractPrevHash, Redact, NextChainHash, Verified;
    if b == [] {
      assert a + b == a;
    } else {
      assert a + b == (a + b[..|b| - 1]) + [b[|b| - 1]];
      VerifiedSnoc(hash, f, a + b[..|b| - 1], b[|b| - 1]);
      OkPrefix(hash, f, a, b[..|b| - 1]);
    }
  }

  lemma LastAccepted(hash: Bytes -> Hash, f: Format, lines: seq<string>)
    requires lines != [] && IsOk(Verified(hash, f, lines).report)
    ensures var front, last := lines[..|lines| - 1], lines[|lines| - 1];
      var c := Verified(hash, f, front).chain;
      && IsOk(Verified(hash, f, front).report)
      && Verified(hash, f, lines).chain == if Blank(last) then c else NextChainHash(hash, c, Redact(last, Hex(c)))
  {
    hide Blank, ExtractPrevHash, Redact, NextChainHash, Hex;
  }

  /** Resuming an accepted file continues from the very digest the verifier ends on. */
  lemma {:induction false} AcceptedTail(hash: Bytes -> Hash, f: Format, lines: seq<string>)
    requires IsOk(Verified(hash, f, lines).report)
    ensures Tail(hash, lines) == Verified(hash, f, lines).chain
  {
    hide Blank, ExtractPrevHash, Redact, NextChainHash, Hex;
    if lines != [] {
      hide Verified, IsOk;
      LastAccepted(hash, f, lines);
      AcceptedTail(hash, f, lines[..|lines| - 1]);
    }
  }

  lemma ChainIsHex(chain: Hash)
    ensures ChainHex(Hex(chain))
  {
    HexShape(chain);
  }

  /** What a record appended to an accepted, terminated file embeds is what verification expects there. */
  lemma RecordAccepted(hash: Bytes -> Hash, f: Format, text: string, e: Event)
    requires Terminated(text) && Accepted(hash, f, text)
    ensures var chain := Tail(hash, Lines(text));
      var line := FormatRecord(f, e, Hex(chain));
      var before, after := Verified(hash, f, Lines(text)), Verified(hash, f, Lines(text + line));
      && Terminated(text + line)
      && Tail(hash, Lines(text + line)) == NextChainHash(hash, chain, Redact(line, Hex(chain)))
      && after.report == before.report.(total := before.report.total + 1, matches := before.report.matches + 1)
  {
    hide Lines, Verified, Tail, FormatRecord, ExtractPrevHash, Redact, NextChainHash, Blank, Hex, OneLine;
    var chain := Tail(hash, Lines(text));
    var line := FormatRecord(f, e, Hex(chain));
    AcceptedTail(hash, f, Lines(text));
    ChainIsHex(chain);
    RecordIsOneLine(f, e, Hex(chain));
    ExtractUndoesFormat(f, e, Hex(chain));
    LinesAppend(text, line);
    VerifiedSnoc(hash, f, Lines(text), line);
    TailSnoc(hash, Lines(text), line);
  }

  // ----- where the hash sits ------------------------------------------------------------

  /** The position of the value `LeefValue` returns. */
  function LeefSlotAt(ext: string): Option<nat>
    decreases |ext|
  {
    var i := IndexOf(ext, '\t');
    if Hit(ext[..i]) then Some(9)
    else if i == |ext| then None
    else
      match LeefSlotAt(ext[i + 1..])
      case None => None
      case Some(p) => Some(i + 1 + p)
  }

  function CefSlotAt(ext: string): Option<nat> {
    match Find(ext, "cs1=")
    case None => None
    case Some(i) => Some(i + 4)
  }

  /** The position in a record of the value `ExtractPrevHash` returns. */
  function SlotOf(f: Format, line: string): Option<nat> {
    var body := TrimEnd(line);
    match AfterPipe(body, if f.Cef? then 7 else 5)
    case None => None
    case Some(ext) =>
      AfterPipeSuffix(body, if f.Cef? then 7 else 5);
      match if f.Cef? then CefSlotAt(ext) else LeefSlotAt(ext)
      case None => None
      case Some(p) => Some(|body| - |ext| + p)
  }

  /** A LEEF value follows its key at the start of a piece and runs to the next tab, less any line ends. */
  ghost predicate LeefSlotted(ext: string, p: nat, hex: string) {
    && At(ext, LeefKey(), p - 9) && (p > 9 ==> ext[p - 10] == '\t')
    && p <= |ext| && hex == TrimEnd(ext[p..p + IndexOf(ext[p..], '\t')])
  }

  lemma HitShape(ext: string)
    requires Hit(ext[..IndexOf(ext, '\t')])
    ensures LeefSlotted(ext, 9, TrimEnd(ext[9..IndexOf(ext, '\t')])) && 9 <= IndexOf(ext, '\t')
  {
    hide Sized, TrimEnd, LeefKey;
    var i := IndexOf(ext, '\t');
    assert LeefKey() <= ext[..i];
    assert ext[0..9] == ext[..i][..9] == LeefKey();
    IndexInTail(ext, '\t', 9);
    assert ext[9..][..i - 9] == ext[9..i];
  }

  lemma {:induction false} LeefSlotValue(ext: string)
    ensures LeefValue(ext).Some? <==> LeefSlotAt(ext).Some?
    ensures LeefValue(ext).Some? ==> LeefSlotted(ext, LeefSlotAt(ext).value, LeefValue(ext).value)
    decreases |ext|
  {
    hide Sized, TrimEnd, Hit, LeefSlotted;
    var i := IndexOf(ext, '\t');
    if Hit(ext[..i]) {
      HitShape(ext);
    } else if i < |ext| {
      IndexOfIs(ext, '\t');
      var rest := ext[i + 1..];
      LeefSlotValue(rest);
      if LeefSlotAt(rest).Some? {
        LeefSlottedShift(ext, i, LeefSlotAt(rest).value, LeefValue(rest).value);
      }
    }
  }

  lemma IndexInTail(s: string, c: char, p: nat)
    requires p <= IndexOf(s, c)
    ensures IndexOf(s[p..], c) == IndexOf(s, c) - p
  {
    if p > 0 {
      IndexInTail(s[1..], c, p - 1);
      assert s[1..][p - 1..] == s[p..];
    } else {
      assert s[0..] == s;
    }
  }

  lemma AtShift(s: string, p: string, k: nat, i: int)
    requires k <= |s| && At(s[k..], p, i)
    ensures At(s, p, k + i)
  {
    SliceOfTail(s, k, i, i + |p|);
  }

  lemma PieceShift(s: string, k: nat, p: nat)
    requires k <= |s| && p <= |s[k..]|
    ensures s[k..][p..] == s[k + p..]
    ensures var n := IndexOf(s[k + p..], '\t'); s[k..][p..p + n] == s[k + p..k + p + n]
  {
    hide IndexOf;
    assert s[k..][p..] == s[k + p..];
    SliceOfTail(s, k, p, p + IndexOf(s[k + p..], '\t'));
  }

  lemma LeefSlottedShift(ext: string, i: nat, p: nat, hex: string)
    requires i < |ext| && ext[i] == '\t' && LeefSlotted(ext[i + 1..], p, hex)
    ensures LeefSlotted(ext, i + 1 + p, hex)
  {
    hide TrimEnd, LeefKey, IndexOf;
    AtShift(ext, LeefKey(), i + 1, p - 9);
    PieceShift(ext, i + 1, p);
  }

  lemma LeefSlotBounds(ext: string)
    ensures LeefSlotAt(ext).Some? ==> 9 <= LeefSlotAt(ext).value <= |ext|
    decreases |ext|
  {
    hide Sized, TrimEnd, LeefKey;
    var i := IndexOf(ext, '\t');
    if i < |ext| {
      LeefSlotBounds(ext[i + 1..]);
    }
  }

  /** A piece that starts with the key and holds a value of hash length. */
  lemma StableHit(a: string, b: string, t: nat)
    requires |a| >= 9 && 9 <= t <= |b|
    requires LeefKey() <= a && (forall x :: 0 <= x < 9 ==> a[x] == b[x])
    requires Sized(TrimEnd(b[9..t])).Some?
    ensures Hit(b[..t])
  {
    hide Sized, TrimEnd, LeefKey;
    assert b[..t][9..] == b[9..t];
    assert b[..9] == a[..9] == LeefKey();
    assert b[..t][..9] == b[..9];
  }

  lemma KeyChars()
    ensures forall x :: 0 <= x < 9 ==> LeefKey()[x] != '\t' && LeefKey()[x] != '0'
  {
  }

  lemma StableHere(a: string, b: string, t: nat)
    requires Hit(a[..IndexOf(a, '\t')]) && 9 <= t < |b|
    requires forall x :: 0 <= x < 9 ==> x < |a| && a[x] == b[x]
    requires b[t] == '\t' && (forall x :: 9 <= x < t ==> b[x] != '\t')
    requires Sized(TrimEnd(b[9..t])).Some?
    ensures LeefSlotAt(b) == Some(9)
  {
    hide Sized, TrimEnd, LeefKey, Hit;
    HitStarts(a, IndexOf(a, '\t'));
    KeyChars();
    forall x | 0 <= x < t ensures b[x] != '\t' {
      if x < 9 { assert b[x] == LeefKey()[x]; }
    }
    FirstUnique(b, '\t', t);
    StableHit(a, b, t);
  }

  lemma NextPiece(b: string, i: nat, p: nat)
    requires i == IndexOf(b, '\t') < |b| && !Hit(b[..i])
    requires LeefSlotAt(b[i + 1..]) == Some(p)
    ensures LeefSlotAt(b) == Some(i + 1 + p)
  {
    hide Hit, IndexOf;
  }

  lemma SlotInRest(a: string, p: nat, i: nat)
    requires LeefSlotAt(a) == Some(p) && i == IndexOf(a, '\t') && !Hit(a[..i])
    ensures i < |a| && i + 10 <= p <= |a| && LeefSlotAt(a[i + 1..]) == Some(p - i - 1)
  {
    hide Hit, IndexOf;
    if i < |a| {
      LeefSlotBounds(a[i + 1..]);
    }
  }

  /** The slot depends on nothing after the piece it is in. */
  lemma {:induction false} LeefSlotStable(a: string, b: string, p: nat, t: nat)
    requires LeefSlotAt(a) == Some(p) && p <= |a| && p <= t < |b|
    requires forall x :: 0 <= x < p ==> a[x] == b[x]
    requires b[t] == '\t' && (forall x :: p <= x < t ==> b[x] != '\t')
    requires Sized(TrimEnd(b[p..t])).Some?
    ensures LeefSlotAt(b) == Some(p)
    decreases |a|
  {
    hide Sized, TrimEnd, LeefKey, Hit, LeefSlotAt;
    var i := IndexOf(a, '\t');
    IndexOfIs(a, '\t');
    if Hit(a[..i]) {
      assert p == 9 by { FirstSlot(a); }
      StableHere(a, b, t);
    } else {
      SlotInRest(a, p, i);
      FirstUnique(b, '\t', i);
      assert b[..i] == a[..i];
      assert b[i + 1..][p - i - 1..t - i - 1] == b[p..t];
      LeefSlotStable(a[i + 1..], b[i + 1..], p - i - 1, t - i - 1);
      NextPiece(b, i, p - i - 1);
    }
  }

  lemma FirstSlot(a: string)
    requires Hit(a[..IndexOf(a, '\t')])
    ensures LeefSlotAt(a) == Some(9)
  {
    hide Hit;
  }

  lemma HitStarts(a: string, i: nat)
    requires i <= |a| && Hit(a[..i])
    ensures LeefKey() <= a && i >= 9 && forall x :: 0 <= x < 9 ==> a[x] == LeefKey()[x]
  {
    hide Sized, TrimEnd, LeefKey;
  }
}
