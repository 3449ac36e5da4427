/**
 * A writer that dies in the middle of a record leaves an unterminated line, and the next record is
 * glued to it: what verification makes of the tail alone, of the glued line, and of what follows.
 */
module AuditTorn {
  import opened Base
  import opened AuditText
  import opened AuditFormat
  import opened AuditChain
  import opened AuditTamper
  import opened AuditHistory
  import opened AuditSinks
  import opened AuditPairs

  // ----- the parts of a record ------------------------------------------------------

  function Header(f: Format, e: Event): string {
    if f.Cef? then CefHeader(e) else LeefHeader(e)
  }

  /** The pairs before the embedded digest, with the separator after them. */
  function Lead(f: Format, e: Event): string {
    if f.Cef? then Join(CefBefore(e), ' ') + " " else Join(LeefBefore(e), '\t') + "\t"
  }

  function Key(f: Format): string {
    if f.Cef? then "cs1" else "prevHash"
  }

  function Stop(f: Format): string {
    if f.Cef? then " " else "\t"
  }

  /** What comes after the separator that ends the embedded digest. */
  function Rest(f: Format, e: Event): string {
    if f.Cef? then Join(CefDetail(e), ' ') else Join(LeefAfter(e), '\t')
  }

  /** From the embedded digest's key on. */
  function Slot(f: Format, prev: string, rest: string): string {
    Key(f) + "=" + prev + Stop(f) + rest
  }

  /** A record without its newline. */
  function Body(f: Format, e: Event, prev: string): string {
    Header(f, e) + (Lead(f, e) + Slot(f, prev, Rest(f, e)))
  }

  /** The position of the digest in the record of `e`. */
  function HashAt(f: Format, e: Event): nat {
    |Header(f, e)| + |Lead(f, e)| + |Key(f)| + 1
  }

  function Value(f: Format, ext: string): Option<string> {
    if f.Cef? then CefValue(ext) else LeefValue(ext)
  }

  function Guard(f: Format): char {
    if f.Cef? then '1' else 'h'
  }

  lemma RecordParts(f: Format, e: Event, prev: string)
    requires ChainHex(prev)
    ensures FormatRecord(f, e, prev) == Body(f, e, prev) + "\n" && Flat(Body(f, e, prev))
  {
    hide CefHeader, LeefHeader, CefBefore, LeefBefore, CefDetail, LeefAfter, CefParts, LeefParts, Join, Flat;
    RecordIsOneLine(f, e, prev);
    var r := FormatRecord(f, e, prev);
    if f.Cef? {
      CefJoined(e, prev);
      SameExtension(Lead(f, e), "cs1", "cs1=", prev, " ", Rest(f, e));
    } else {
      LeefJoined(e, prev);
      SameExtension(Lead(f, e), "prevHash", "prevHash=", prev, "\t", Rest(f, e));
    }
    assert r[..|r| - 1] == Body(f, e, prev);
  }

  lemma SameExtension(l: string, key: string, keyed: string, prev: string, stop: string, rest: string)
    requires keyed == key + "="
    ensures l + keyed + (prev + stop + rest) == l + (key + "=" + prev + stop + rest)
    ensures l + (keyed + prev + stop + rest) == l + (key + "=" + prev + stop + rest)
  {
  }

  /** The digest stands in its record where `HashAt` says. */
  lemma HashStands(f: Format, e: Event, prev: string)
    requires ChainHex(prev)
    ensures HashAt(f, e) + HEX_LEN < |Body(f, e, prev)| < |FormatRecord(f, e, prev)|
    ensures FormatRecord(f, e, prev)[HashAt(f, e)..HashAt(f, e) + HEX_LEN] == prev
  {
    hide Header, Lead, Key, Stop, Rest, FormatRecord, Flat;
    RecordParts(f, e, prev);
    StopIsOne(f);
    Middle(Header(f, e), Lead(f, e), Key(f) + "=", prev, Stop(f), Rest(f, e));
    SliceOfFront(FormatRecord(f, e, prev), |Body(f, e, prev)|, HashAt(f, e), HashAt(f, e) + HEX_LEN);
    assert FormatRecord(f, e, prev)[..|Body(f, e, prev)|] == Body(f, e, prev);
  }

  lemma Middle(h: string, l: string, key: string, prev: string, stop: string, rest: string)
    ensures var body, n := h + (l + (key + prev + stop + rest)), |h| + |l| + |key|;
      |body| == n + |prev| + |stop| + |rest| && body[n..n + |prev|] == prev
  {
    var body, before := h + (l + (key + prev + stop + rest)), h + l + key;
    assert body == before + (prev + (stop + rest));
  }

  lemma StopIsOne(f: Format)
    ensures |Stop(f)| == 1
  {
  }

  /** The pairs before the digest hide no key of it, and end with a separator. */
  lemma LeadGuarded(f: Format, e: Event)
    ensures Guarded(Lead(f, e), Guard(f)) && Guarded(Lead(f, e) + Key(f), Guard(f))
    ensures Lead(f, e) != [] && Lead(f, e)[0] != '=' && Lead(f, e)[|Lead(f, e)| - 1] == Stop(f)[0]
  {
    hide CefBefore, LeefBefore, Join;
    CefKeysGuard(e);
    LeefKeysGuard(e);
    NoPairs(e);
    var pairs := if f.Cef? then Join(CefBefore(e), ' ') else Join(LeefBefore(e), '\t');
    if f.Cef? {
      JoinGuarded(CefBefore(e), ' ', '1');
    } else {
      JoinGuarded(LeefBefore(e), '\t', 'h');
    }
    GuardedJoin(pairs, Stop(f), Guard(f));
    GuardedJoin(Lead(f, e), Key(f), Guard(f));
  }

  lemma NoPairs(e: Event)
    ensures CefBefore(e) != [] && LeefBefore(e) != []
  {
    hide Decimal, Host, User, SeverityOf, CefSeverity;
  }

  // ----- the header -------------------------------------------------------------------

  lemma {:induction false} PlainFields(fields: seq<string>)
    requires forall i :: 0 <= i < |fields| ==> Plain(fields[i])
    ensures '=' !in Fields(fields) && '\\' !in Fields(fields)
  {
    if fields != [] {
      PlainFields(fields[1..]);
      assert Plain(fields[0]);
    }
  }

  lemma HeaderPassed(f: Format, e: Event, ext: string)
    ensures AfterPipe(Header(f, e) + ext, Pipes(f)) == Some(ext) && Flat(Header(f, e))
    ensures '=' !in Header(f, e) && '\\' !in Header(f, e)
    ensures Header(f, e) != [] && (Header(f, e)[0] == 'C' || Header(f, e)[0] == 'L')
  {
    hide AfterPipe, Flat;
    CefHeaderPassed(e, ext);
    LeefHeaderPassed(e, ext);
    HeaderStarts(e);
    HeaderPlain(e);
  }

  lemma HeaderPlain(e: Event)
    ensures '=' !in CefHeader(e) && '\\' !in CefHeader(e) && '=' !in LeefHeader(e) && '\\' !in LeefHeader(e)
  {
    hide Plain, Fields, EscapeHeader, Signature, Title, Decimal, SeverityOf, CefSeverity;
    PlainLiterals();
    PlainEvent(e);
    PlainFields(["CEF:0", "Freally", "Freally", VERSION, EscapeHeader(Signature(e)), EscapeHeader(Title(e)),
                 Decimal(CefSeverity(SeverityOf(e)))]);
    PlainFields(["LEEF:2.0", "Freally", "Freally", VERSION, EscapeHeader(Signature(e))]);
  }

  /** What the scan has found stays found when text follows. */
  lemma {:induction false} AfterPipeAppend(s: string, x: string, n: nat)
    requires AfterPipe(s, n).Some?
    ensures AfterPipe(s + x, n) == Some(AfterPipe(s, n).value + x)
    decreases |s|
  {
    if n > 0 {
      var k, m := if s[0] == '\\' then 2 else 1, if s[0] == '|' then n - 1 else n;
      assert (s + x)[k..] == s[k..] + x;
      AfterPipeAppend(s[k..], x, m);
    }
  }

  lemma {:induction false} FewerPipes(s: string, n: nat)
    requires n > 0 && AfterPipe(s, n).Some?
    ensures AfterPipe(s, n - 1).Some?
    decreases |s|
  {
    if n > 1 {
      var k, m := if s[0] == '\\' then 2 else 1, if s[0] == '|' then n - 1 else n;
      FewerPipes(s[k..], m);
    }
  }

  /** Text before the pipes can only let the scan end earlier. */
  lemma {:induction false} PipesAfter(t: string, s: string, n: nat)
    requires '\\' !in t && AfterPipe(s, n).Some?
    ensures AfterPipe(t + s, n).Some?
  {
    if t == [] {
      assert t + s == s;
    } else if n > 0 {
      assert (t + s)[1..] == t[1..] + s;
      if t[0] == '|' {
        FewerPipes(s, n);
        PipesAfter(t[1..], s, n - 1);
      } else {
        PipesAfter(t[1..], s, n);
      }
    }
  }

  /** A header cut short has no extension. */
  lemma ShortHeader(f: Format, e: Event, n: nat)
    requires n < |Header(f, e)|
    ensures AfterPipe(Header(f, e)[..n], Pipes(f)).None?
  {
    hide AfterPipe, Header, Pipes;
    var h := Header(f, e);
    assert h + [] == h && h[..n] + h[n..] == h;
    HeaderPassed(f, e, []);
    if AfterPipe(h[..n], Pipes(f)).Some? {
      AfterPipeAppend(h[..n], h[n..], Pipes(f));
    }
  }

  /** A header cut short and glued to a whole one: the extension starts somewhere in the second. */
  lemma TwoHeaders(f: Format, e: Event, e2: Event, n: nat, ext: string) returns (w: string)
    requires n <= |Header(f, e)|
    ensures AfterPipe(Header(f, e)[..n] + Header(f, e2) + ext, Pipes(f)) == Some(w + ext)
    ensures '=' !in w
  {
    hide AfterPipe, Header, Pipes;
    var t, h := Header(f, e)[..n], Header(f, e2);
    HeaderPassed(f, e, []);
    HeaderPassed(f, e2, []);
    assert h + [] == h;
    PipesAfter(t, h, Pipes(f));
    w := AfterPipe(t + h, Pipes(f)).value;
    AfterPipeSuffix(t + h, Pipes(f));
    AfterPipeAppend(t + h, ext, Pipes(f));
  }

  // ----- the digest in an extension -------------------------------------------------------

  /** After guarded text the digest is found. */
  lemma SlotAfter(f: Format, before: string, prev: string, rest: string)
    requires Guarded(before, Guard(f)) && ChainHex(prev)
    requires before == [] || before[|before| - 1] == Stop(f)[0]
    ensures Value(f, before + Slot(f, prev, rest)) == Some(prev)
  {
    hide CefValue, LeefValue, Guarded;
    if f.Cef? {
      CefSlot(before, prev, rest);
      SameExtension(before, "cs1", "cs1=", prev, " ", rest);
    } else {
      LeefSlot(before, prev, rest);
      SameExtension(before, "prevHash", "prevHash=", prev, "\t", rest);
    }
  }

  /** In guarded text there is none. */
  lemma {:induction false} NoSlot(f: Format, u: string)
    requires Guarded(u, Guard(f))
    ensures Value(f, u) == None
    decreases |u|
  {
    hide Sized;
    if f.Cef? {
      if Find(u, "cs1=").Some? {
        NeedleEquals(u, Find(u, "cs1=").value);
      }
    } else {
      var i := IndexOf(u, '\t');
      PrefixEquals(u[..i]);
      if i < |u| {
        NoSlot(f, u[i + 1..]);
      }
    }
  }

  lemma GuardedPart(s: string, k: nat, c: char)
    requires k <= |s| && Guarded(s, c)
    ensures Guarded(s[..k], c) && Guarded(s[k..], c)
  {
  }

  lemma NoEquals(s: string, c: char)
    requires '=' !in s
    ensures Guarded(s, c)
  {
  }

  /** A value that runs into a header is not a digest. */
  lemma NotADigest(rest: string, sep: char, m: nat, prev: string)
    requires ChainHex(prev) && m <= HEX_LEN && m < |rest| && (rest[m] == 'C' || rest[m] == 'L')
    requires sep == ' ' || sep == '\t'
    ensures Flat(rest[..IndexOf(rest, sep)]) ==> TrimEnd(rest[..IndexOf(rest, sep)]) != prev
  {
    var i := IndexOf(rest, sep);
    IndexOfIs(rest, sep);
    var x := rest[..i];
    assert !IsHex(rest[m]) && (m < i ==> x[m] == rest[m]);
    if Flat(x) {
      FlatTrim(x);
    }
  }

  lemma FlatTrim(x: string)
    requires Flat(x)
    ensures TrimEnd(x) == x
  {
  }

  lemma CefGlued(before: string, prev: string, more: string, m: nat)
    requires ChainHex(prev) && Guarded(before, '1') && Flat(more)
    requires m <= HEX_LEN && m < |more| && (more[m] == 'C' || more[m] == 'L')
    ensures CefValue(before + ("cs1=" + more)) != Some(prev)
  {
    hide Find, Utf8, TrimEnd, IndexOf, Guarded, Flat;
    SlotFound(before, more);
    FlatPart(more, IndexOf(more, ' '));
    var ext := before + ("cs1=" + more);
    assert ext == before + "cs1=" + more && ext[|before| + 4..] == more;
    NotADigest(more, ' ', m, prev);
  }

  /** The first tab of text glued between a key and what follows. */
  lemma FirstTab(key: string, u: string, tail: string)
    requires '\t' !in key && IndexOf(u, '\t') < |u|
    ensures IndexOf(key + (u + tail), '\t') == |key| + IndexOf(u, '\t')
  {
    hide IndexOf;
    var all, j := key + (u + tail), IndexOf(u, '\t');
    IndexOfIs(u, '\t');
    assert forall k :: |key| <= k <= |key| + j ==> all[k] == u[k - |key|];
    FirstUnique(all, '\t', |key| + j);
  }

  lemma Pieces(key: string, u: string, tail: string, j: nat)
    requires j < |u|
    ensures var all := key + (u + tail);
      && all[|key|..|key| + j] == u[..j] && all[|key| + j + 1..] == u[j + 1..] + tail
  {
  }

  lemma LeefGlued(before: string, prev: string, u: string, next: string, rest: string, m: nat)
    requires ChainHex(prev) && ChainHex(next) && Guarded(u, 'h') && Flat(u)
    requires Guarded(before, 'h') && (before == [] || before[|before| - 1] == '\t')
    requires m <= HEX_LEN && m < |u| && (u[m] == 'C' || u[m] == 'L') && u[|u| - 1] == '\t'
    ensures LeefValue(before + ("prevHash=" + (u + Slot(Leef, next, rest)))) == Some(prev) ==> prev == next
  {
    hide Sized, TrimEnd, LeefKey, IndexOf, Guarded, Flat, Slot, LeefValue;
    var slot := Slot(Leef, next, rest);
    var x, j := "prevHash=" + (u + slot), IndexOf(u, '\t');
    PiecesSkipped(before, x);
    IndexOfIs(u, '\t');
    FirstTab("prevHash=", u, slot);
    Pieces("prevHash=", u, slot, j);
    FlatPart(u, j);
    GuardedPart(u, j + 1, 'h');
    NotADigest(u, '\t', m, prev);
    FirstPiece(x, 9 + j);
    SlotAfter(Leef, u[j + 1..], next, rest);
  }

  lemma FirstPiece(x: string, i: nat)
    requires 9 <= i == IndexOf(x, '\t') < |x|
    ensures LeefValue(x) == Some(TrimEnd(x[9..i])) || LeefValue(x) == LeefValue(x[i + 1..])
  {
    hide Sized, TrimEnd, LeefKey, IndexOf;
  }

  lemma FlatPart(s: string, k: nat)
    requires k <= |s| && Flat(s)
    ensures Flat(s[..k]) && Flat(s[k..])
  {
  }

  /** From a cut digest to the end of the pairs before the next one. */
  lemma GluedPairs(e: Event, prev: string, next: string, m: nat) returns (u: string)
    requires ChainHex(prev) && ChainHex(next) && m <= HEX_LEN
    ensures prev[..m] + Body(Leef, e, next) == u + Slot(Leef, next, Rest(Leef, e))
    ensures Guarded(u, 'h') && Flat(u) && m < |u| && (u[m] == 'C' || u[m] == 'L') && u[|u| - 1] == '\t'
  {
    hide Header, Lead, Guarded, Flat, Rest, Slot;
    LeadGuarded(Leef, e);
    RecordParts(Leef, e, next);
    HeaderPassed(Leef, e, []);
    HexPlain(prev);
    FlatPart(prev, m);
    var h, l, slot := Header(Leef, e), Lead(Leef, e), Slot(Leef, next, Rest(Leef, e));
    u := prev[..m] + h + l;
    SameBody(prev[..m], h, l, slot);
    FlatJoin(prev[..m], Body(Leef, e, next));
    FlatPart(u + slot, |u|);
    assert u[m] == h[0];
    NoEquals(prev[..m] + h, 'h');
    GuardedJoin(prev[..m] + h, l, 'h');
  }

  lemma LeefDigest(e: Event, e2: Event, prev: string, next: string, m: nat)
    requires ChainHex(prev) && ChainHex(next) && m <= HEX_LEN
    ensures LeefValue(Lead(Leef, e) + ("prevHash=" + (prev[..m] + Body(Leef, e2, next)))) == Some(prev) ==> prev == next
  {
    hide Header, Lead, LeefValue, Guarded, Flat, Rest, Slot, Body;
    LeadGuarded(Leef, e);
    var u := GluedPairs(e2, prev, next, m);
    LeefGlued(Lead(Leef, e), prev, u, next, Rest(Leef, e2), m);
  }

  lemma SameBody(cut: string, h: string, l: string, slot: string)
    ensures cut + (h + (l + slot)) == cut + h + l + slot
    ensures (cut + h + l + slot)[..|cut + h + l|] == cut + h + l
  {
  }

  /** A digest cut short, or not followed by its separator, then another record. */
  lemma GluedDigest(f: Format, e: Event, e2: Event, prev: string, next: string, m: nat)
    requires ChainHex(prev) && ChainHex(next) && m <= HEX_LEN
    ensures Value(f, Lead(f, e) + (Key(f) + "=" + (prev[..m] + Body(f, e2, next)))) == Some(prev) ==> prev == next
  {
    hide Header, Lead, CefValue, LeefValue, Guarded, Flat, Rest, Slot;
    if f.Cef? {
      LeadGuarded(f, e);
      RecordParts(f, e2, next);
      HeaderPassed(f, e2, []);
      HexPlain(prev);
      FlatPart(prev, m);
      var more := prev[..m] + Body(f, e2, next);
      assert more[m] == Header(f, e2)[0];
      FlatJoin(prev[..m], Body(f, e2, next));
      CefGlued(Lead(f, e), prev, more, m);
      assert "cs1" + "=" == "cs1=";
    } else {
      LeefDigest(e, e2, prev, next, m);
      assert "prevHash" + "=" == "prevHash=";
    }
  }

  lemma HexPlain(prev: string)
    requires AllHex(prev)
    ensures Flat(prev) && '=' !in prev
  {
    assert forall i :: 0 <= i < |prev| ==> IsHex(prev[i]);
  }

  // ----- reading a torn record, and one glued to it ------------------------------------------

  lemma ExtractIs(f: Format, body: string, ext: string)
    requires Flat(body) && AfterPipe(body, Pipes(f)) == Some(ext)
    ensures ExtractPrevHash(f, body + "\n") == ExtractPrevHash(f, body) == Value(f, ext)
  {
    hide AfterPipe, CefValue, LeefValue, TrimEnd;
    TrimLine(body);
    FlatTrim(body);
  }

  lemma ExtractNothing(f: Format, body: string)
    requires Flat(body) && AfterPipe(body, Pipes(f)).None?
    ensures ExtractPrevHash(f, body) == None
  {
    hide AfterPipe, CefValue, LeefValue, TrimEnd;
    FlatTrim(body);
  }

  /** Torn in its header. */
  lemma TornHeader(f: Format, e: Event, prev: string, n: nat)
    requires ChainHex(prev) && n < |Header(f, e)|
    ensures ExtractPrevHash(f, Body(f, e, prev)[..n]) == None
  {
    hide Header, Lead, Slot, Pipes, AfterPipe, Flat, ExtractPrevHash;
    RecordParts(f, e, prev);
    var torn := Body(f, e, prev)[..n];
    assert torn == Header(f, e)[..n];
    FlatPart(Body(f, e, prev), n);
    ShortHeader(f, e, n);
    ExtractNothing(f, torn);
  }

  /** Torn after its header: the extension is what is left of the record's own. */
  lemma TornExtension(f: Format, e: Event, prev: string, k: nat) returns (ext: string)
    requires ChainHex(prev) && |Header(f, e)| + k <= |Body(f, e, prev)|
    ensures ext == (Lead(f, e) + Slot(f, prev, Rest(f, e)))[..k]
    ensures ExtractPrevHash(f, Body(f, e, prev)[..|Header(f, e)| + k]) == Value(f, ext)
    ensures Body(f, e, prev)[..|Header(f, e)| + k] == Header(f, e) + ext
  {
    hide Header, Lead, Slot, Pipes, AfterPipe, Flat, ExtractPrevHash, Value, Rest;
    RecordParts(f, e, prev);
    ext := (Lead(f, e) + Slot(f, prev, Rest(f, e)))[..k];
    assert Body(f, e, prev)[..|Header(f, e)| + k] == Header(f, e) + ext;
    FlatPart(Body(f, e, prev), |Header(f, e)| + k);
    HeaderPassed(f, e, ext);
    ExtractIs(f, Header(f, e) + ext, ext);
  }

  /** How much of the extension is there, by where the record was torn. */
  lemma ExtensionCut(f: Format, lead: string, prev: string, rest: string, k: nat)
    requires k <= |lead + Slot(f, prev, rest)| && |prev| == HEX_LEN
    ensures var ext := (lead + Slot(f, prev, rest))[..k];
      var m := k - |lead| - |Key(f)| - 1;
      && (m < 0 ==> ext == (lead + Key(f))[..k])
      && (0 <= m <= HEX_LEN ==> ext == lead + (Key(f) + "=" + prev[..m]))
      && (m > HEX_LEN ==> m - HEX_LEN - 1 <= |rest| && ext == lead + Slot(f, prev, rest[..m - HEX_LEN - 1]))
  {
    hide Key;
    StopIsOne(f);
  }

  lemma CefCut(lead: string, prev: string, m: nat)
    requires Guarded(lead, '1') && ChainHex(prev) && m <= HEX_LEN
    ensures CefValue(lead + "cs1=" + prev[..m]) == if m == HEX_LEN then Some(prev) else None
  {
    hide Find, IndexOf, Utf8, Guarded, TrimEnd;
    SlotFound(lead, prev[..m]);
    CutSized(prev, m, ' ');
    assert (lead + "cs1=" + prev[..m])[|lead| + 4..] == prev[..m];
  }

  /** Part of a digest has no end in it, and has hash length only when it is whole. */
  lemma CutSized(prev: string, m: nat, sep: char)
    requires ChainHex(prev) && m <= HEX_LEN && (sep == ' ' || sep == '\t')
    ensures IndexOf(prev[..m], sep) == m && prev[..m][..m] == prev[..m] && TrimEnd(prev[..m]) == prev[..m]
    ensures Sized(prev[..m]) == if m == HEX_LEN then Some(prev) else None
  {
    hide TrimEnd, Utf8, IndexOf;
    HexPlain(prev);
    FlatPart(prev, m);
    FlatTrim(prev[..m]);
    assert forall i :: 0 <= i < m ==> IsHex(prev[i]);
    assert Ascii(prev[..m]);
    AsciiLength(prev[..m]);
    IndexOfIs(prev[..m], sep);
    assert prev[..HEX_LEN] == prev;
  }

  lemma LeefCut(lead: string, prev: string, m: nat)
    requires Guarded(lead, 'h') && (lead == [] || lead[|lead| - 1] == '\t') && ChainHex(prev) && m <= HEX_LEN
    ensures LeefValue(lead + ("prevHash=" + prev[..m])) == if m == HEX_LEN then Some(prev) else None
  {
    hide Sized, IndexOf, Guarded, TrimEnd;
    var x := "prevHash=" + prev[..m];
    PiecesSkipped(lead, x);
    CutSized(prev, m, '\t');
    NoTab("prevHash=", prev[..m]);
    OnePiece(prev[..m]);
    assert prev[..HEX_LEN] == prev;
  }

  lemma NoTab(key: string, rest: string)
    requires '\t' !in key && IndexOf(rest, '\t') == |rest|
    ensures IndexOf(key + rest, '\t') == |key| + |rest|
  {
    IndexOfIs(rest, '\t');
    IndexOfIs(key + rest, '\t');
  }

  lemma OnePiece(rest: string)
    requires IndexOf("prevHash=" + rest, '\t') == 9 + |rest|
    ensures LeefValue("prevHash=" + rest) == if Sized(TrimEnd(rest)).Some? then Some(TrimEnd(rest)) else None
  {
    hide Sized, IndexOf, TrimEnd;
    var x := "prevHash=" + rest;
    assert x[..|x|] == x && x[9..|x|] == rest && LeefKey() <= x;
  }

  lemma CutDigest(f: Format, e: Event, prev: string, m: nat)
    requires ChainHex(prev) && m <= HEX_LEN
    ensures Value(f, Lead(f, e) + (Key(f) + "=" + prev[..m])) == if m == HEX_LEN then Some(prev) else None
  {
    hide Lead, CefValue, LeefValue, Guarded;
    LeadGuarded(f, e);
    if f.Cef? {
      CefCut(Lead(f, e), prev, m);
      assert Lead(f, e) + ("cs1" + "=" + prev[..m]) == Lead(f, e) + "cs1=" + prev[..m];
    } else {
      LeefCut(Lead(f, e), prev, m);
      assert "prevHash" + "=" == "prevHash=";
    }
  }

  /** A torn record read alone: its digest is read back exactly when it is whole. */
  lemma TornValue(f: Format, e: Event, prev: string, n: nat)
    requires ChainHex(prev) && n <= |Body(f, e, prev)|
    ensures ExtractPrevHash(f, Body(f, e, prev)[..n]) == if n >= HashAt(f, e) + HEX_LEN then Some(prev) else None
  {
    hide Header, Lead, Slot, Rest, Value, Guarded, ExtractPrevHash;
    if n < |Header(f, e)| {
      TornHeader(f, e, prev, n);
    } else {
      var k := n - |Header(f, e)|;
      var ext := TornExtension(f, e, prev, k);
      LeadGuarded(f, e);
      ExtensionCut(f, Lead(f, e), prev, Rest(f, e), k);
      var m := n - HashAt(f, e);
      if m < 0 {
        GuardedPart(Lead(f, e) + Key(f), k, Guard(f));
        NoSlot(f, ext);
      } else if m <= HEX_LEN {
        CutDigest(f, e, prev, m);
      } else {
        SlotAfter(f, Lead(f, e), prev, Rest(f, e)[..m - HEX_LEN - 1]);
      }
    }
  }

  /** What follows a torn record joins its extension. */
  lemma ReadAfter(f: Format, e: Event, torn: string, ext: string, more: string)
    requires torn == Header(f, e) + ext && Flat(torn) && Flat(more)
    ensures ExtractPrevHash(f, torn + more + "\n") == Value(f, ext + more)
  {
    hide Header, Value, ExtractPrevHash, AfterPipe, Pipes, Flat;
    FlatJoin(torn, more);
    HeaderPassed(f, e, ext + more);
    assert torn + more == Header(f, e) + (ext + more);
    ExtractIs(f, torn + more, ext + more);
  }

  /** Glued to an extension that hides no key, a record gives its own digest. */
  lemma ValueAfter(f: Format, ext: string, e: Event, prev: string)
    requires Guarded(ext, Guard(f)) && ChainHex(prev)
    ensures Value(f, ext + Body(f, e, prev)) == Some(prev)
  {
    hide Header, Lead, Slot, Rest, Value, Guarded;
    var h, l := Header(f, e), Lead(f, e);
    LeadGuarded(f, e);
    HeaderPassed(f, e, []);
    NoEquals(h, Guard(f));
    GuardedJoin(ext, h, Guard(f));
    GuardedJoin(ext + h, l, Guard(f));
    SlotAfter(f, ext + h + l, prev, Rest(f, e));
    SameBody(ext, h, l, Slot(f, prev, Rest(f, e)));
  }

  /** Torn in its header: the extension starts in or after the second header. */
  lemma GluedHeader(f: Format, e: Event, e2: Event, next: string, n: nat)
    requires ChainHex(next) && n < |Header(f, e)|
    ensures ExtractPrevHash(f, Header(f, e)[..n] + Body(f, e2, next) + "\n") == Some(next)
  {
    hide Header, Lead, Slot, Rest, Value, Guarded, ExtractPrevHash, AfterPipe, Pipes, Flat;
    var torn, h, l, slot := Header(f, e)[..n], Header(f, e2), Lead(f, e2), Slot(f, next, Rest(f, e2));
    HeaderPassed(f, e, []);
    FlatPart(Header(f, e), n);
    RecordParts(f, e2, next);
    FlatJoin(torn, Body(f, e2, next));
    LeadGuarded(f, e2);
    var w := TwoHeaders(f, e, e2, n, l + slot);
    NoEquals(w, Guard(f));
    GuardedJoin(w, l, Guard(f));
    SlotAfter(f, w + l, next, Rest(f, e2));
    SameJoin(w, l, slot);
    SameJoin(torn, h, l + slot);
    ExtractIs(f, torn + Body(f, e2, next), w + (l + slot));
  }

  lemma SameJoin(a: string, b: string, c: string)
    ensures a + b + c == a + (b + c)
  {
  }

  /** After a whole digest and its separator anything may follow. */
  lemma ValueKept(f: Format, e: Event, prev: string, rest: string, more: string)
    requires ChainHex(prev)
    ensures Value(f, Lead(f, e) + Slot(f, prev, rest) + more) == Some(prev)
  {
    hide Lead, Value, Guarded;
    LeadGuarded(f, e);
    SlotAfter(f, Lead(f, e), prev, rest + more);
    SlotMore(f, Lead(f, e), prev, rest, more);
  }

  lemma SlotMore(f: Format, lead: string, prev: string, rest: string, more: string)
    ensures lead + Slot(f, prev, rest) + more == lead + Slot(f, prev, rest + more)
  {
    hide Key, Stop;
  }

  lemma SameCut(lead: string, key: string, cut: string, more: string)
    ensures lead + (key + cut) + more == lead + (key + (cut + more))
  {
  }

  /** What an extension cut off after `k` characters and a record glued to it give. */
  lemma GluedExtension(f: Format, e: Event, e2: Event, prev: string, next: string, k: nat)
    requires ChainHex(prev) && ChainHex(next) && k <= |Lead(f, e) + Slot(f, prev, Rest(f, e))|
    ensures var r := Value(f, (Lead(f, e) + Slot(f, prev, Rest(f, e)))[..k] + Body(f, e2, next));
      var m := k - |Lead(f, e)| - |Key(f)| - 1;
      && (m < 0 ==> r == Some(next))
      && (m > HEX_LEN ==> r == Some(prev))
      && (m <= HEX_LEN && r == Some(prev) ==> prev == next)
  {
    hide Header, Lead, Slot, Rest, Key, Value, Guarded, Body;
    ExtensionCut(f, Lead(f, e), prev, Rest(f, e), k);
    var m := k - |Lead(f, e)| - |Key(f)| - 1;
    if m < 0 {
      LeadGuarded(f, e);
      GuardedPart(Lead(f, e) + Key(f), k, Guard(f));
      ValueAfter(f, (Lead(f, e) + Key(f))[..k], e2, next);
    } else if m <= HEX_LEN {
      GluedDigest(f, e, e2, prev, next, m);
      SameCut(Lead(f, e), Key(f) + "=", prev[..m], Body(f, e2, next));
    } else {
      ValueKept(f, e, prev, Rest(f, e)[..m - HEX_LEN - 1], Body(f, e2, next));
    }
  }

  /**
   * A torn record and the record glued to it, read as one line: torn before its digest, the second
   * digest is read; torn after the separator that ends it, the first; in between, never the first.
   */
  lemma GluedValue(f: Format, e: Event, e2: Event, prev: string, next: string, n: nat)
    requires ChainHex(prev) && ChainHex(next) && n <= |Body(f, e, prev)|
    ensures var r := ExtractPrevHash(f, Body(f, e, prev)[..n] + Body(f, e2, next) + "\n");
      && (n == 0 || n < HashAt(f, e) ==> r == Some(next))
      && (n > HashAt(f, e) + HEX_LEN ==> r == Some(prev))
      && (n <= HashAt(f, e) + HEX_LEN && r == Some(prev) ==> prev == next)
  {
    hide Header, Lead, Slot, Rest, Key, Value, ExtractPrevHash, Flat;
    var torn, more := Body(f, e, prev)[..n], Body(f, e2, next);
    if n < |Header(f, e)| {
      assert torn == Header(f, e)[..n];
      GluedHeader(f, e, e2, next, n);
    } else {
      var k := n - |Header(f, e)|;
      var ext := TornExtension(f, e, prev, k);
      RecordParts(f, e, prev);
      RecordParts(f, e2, next);
      FlatPart(Body(f, e, prev), n);
      ReadAfter(f, e, torn, ext, more);
      GluedExtension(f, e, e2, prev, next, k);
    }
  }

  // ----- what verification reports -------------------------------------------------------------

  /** The line is counted, and it matched. */
  function OneMatched(r: VerifyReport): VerifyReport {
    r.(total := r.total + 1, matches := r.matches + 1)
  }

  /** The line is counted and listed as failed. */
  predicate OneFailed(before: VerifyReport, after: VerifyReport, number: nat) {
    && after.total == before.total + 1 && after.matches == before.matches
    && after.failed == before.failed + [number]
    && after.mismatches + after.missing == before.mismatches + before.missing + 1
  }

  /** A record of which only the first `n` characters reached the file. */
  function Torn(hash: Bytes -> Hash, f: Format, text: string, e: Event, n: nat): string
    requires n < |FormatRecord(f, e, Hex(Tail(hash, Lines(text))))|
  {
    FormatRecord(f, e, Hex(Tail(hash, Lines(text))))[..n]
  }

  lemma TornLines(text: string, torn: string)
    requires Terminated(text) && '\n' !in torn
    ensures Lines(text + torn) == if torn == [] then Lines(text) else Lines(text) + [torn]
  {
    hide Lines, Terminated;
    LinesSplit(text, torn);
    LoneTail(torn);
  }

  lemma LoneTail(torn: string)
    requires '\n' !in torn
    ensures Lines(torn) == if torn == [] then [] else [torn]
  {
    IndexOfIs(torn, '\n');
  }

  lemma TornShape(f: Format, e: Event, prev: string, n: nat)
    requires ChainHex(prev) && n < |FormatRecord(f, e, prev)|
    ensures n <= |Body(f, e, prev)| && FormatRecord(f, e, prev)[..n] == Body(f, e, prev)[..n]
    ensures '\n' !in Body(f, e, prev)[..n] && (n > 0 ==> !Blank(Body(f, e, prev)[..n]))
  {
    hide Header, Lead, Slot;
    RecordParts(f, e, prev);
    FlatPart(Body(f, e, prev), n);
    HeaderPassed(f, e, []);
    if n > 0 {
      assert Body(f, e, prev)[..n][0] == Header(f, e)[0];
      assert !IsWhite('C') && !IsWhite('L');
    }
  }

  /**
   * Before anything is appended, a torn record passes verification exactly when its digest is
   * whole, or nothing of it was written; otherwise it is reported as one failed line.
   */
  lemma TornAlone(hash: Bytes -> Hash, f: Format, text: string, e: Event, n: nat)
    requires Terminated(text) && Accepted(hash, f, text)
    requires n < |FormatRecord(f, e, Hex(Tail(hash, Lines(text))))|
    ensures var before := Verified(hash, f, Lines(text)).report;
      var after := Verified(hash, f, Lines(text + Torn(hash, f, text, e, n))).report;
      && (n == 0 ==> after == before)
      && (n >= HashAt(f, e) + HEX_LEN ==> after == OneMatched(before))
      && (0 < n < HashAt(f, e) + HEX_LEN ==> OneFailed(before, after, |Lines(text)| + 1))
  {
    hide Lines, Verified, Tail, FormatRecord, ExtractPrevHash, Redact, NextChainHash, Blank, Hex, HashAt, Body;
    var prev := Hex(Tail(hash, Lines(text)));
    ChainIsHex(Tail(hash, Lines(text)));
    AcceptedTail(hash, f, Lines(text));
    TornShape(f, e, prev, n);
    TornLines(text, Torn(hash, f, text, e, n));
    TornValue(f, e, prev, n);
    VerifiedSnoc(hash, f, Lines(text), Torn(hash, f, text, e, n));
  }

  /** The next record of a sink opened on the torn file. */
  function NextRecord(hash: Bytes -> Hash, f: Format, file: string, e: Event): string {
    FormatRecord(f, e, Hex(Tail(hash, Lines(file))))
  }

  lemma GluedLine(f: Format, text: string, torn: string, e2: Event, next: string)
    requires Terminated(text) && '\n' !in torn && ChainHex(next)
    ensures var line := FormatRecord(f, e2, next);
      && line == Body(f, e2, next) + "\n"
      && Lines(text + torn + line) == Lines(text) + [torn + line]
      && Terminated(text + torn + line) && !Blank(torn + line)
  {
    hide Lines, FormatRecord, Body, Header, Lead, Slot, Flat, Blank;
    var line := FormatRecord(f, e2, next);
    RecordIsOneLine(f, e2, next);
    RecordParts(f, e2, next);
    assert OneLine(torn + line);
    assert text + torn + line == text + (torn + line);
    LinesAppend(text, torn + line);
    BlankEnd(torn, line);
  }

  lemma BlankEnd(a: string, b: string)
    requires !Blank(b)
    ensures !Blank(a + b)
  {
    hide IsWhite;
    var i :| 0 <= i < |b| && !IsWhite(b[i]);
    assert (a + b)[|a| + i] == b[i];
  }

  /** Where a sink opened on the torn file resumes: the torn record counts as a record. */
  lemma ResumesAfterTear(hash: Bytes -> Hash, f: Format, text: string, e: Event, n: nat)
    requires Terminated(text)
    requires n < |FormatRecord(f, e, Hex(Tail(hash, Lines(text))))|
    ensures var c, torn := Tail(hash, Lines(text)), Torn(hash, f, text, e, n);
      && '\n' !in torn
      && Tail(hash, Lines(text + torn)) == if n == 0 then c else hash(Hashed(c, torn))
  {
    hide Lines, Tail, FormatRecord, Redact, Blank, Hex, Body;
    ChainIsHex(Tail(hash, Lines(text)));
    TornShape(f, e, Hex(Tail(hash, Lines(text))), n);
    TornLines(text, Torn(hash, f, text, e, n));
    TailSnoc(hash, Lines(text), Torn(hash, f, text, e, n));
  }

  /**
   * The first record after a torn one. It passes verification exactly when nothing was written of
   * the torn one, or its digest and the separator after it were; otherwise the glued line is
   * reported as failed, unless the torn record's hash is the very digest it starts from.
   */
  lemma RecordAfterTear(hash: Bytes -> Hash, f: Format, text: string, e: Event, n: nat, e2: Event)
    requires Terminated(text) && Accepted(hash, f, text)
    requires n < |FormatRecord(f, e, Hex(Tail(hash, Lines(text))))|
    ensures var file := text + Torn(hash, f, text, e, n);
      var line := NextRecord(hash, f, file, e2);
      var before, after := Verified(hash, f, Lines(text)).report, Verified(hash, f, Lines(file + line)).report;
      && Terminated(file + line)
      && (n == 0 || n > HashAt(f, e) + HEX_LEN ==> after == OneMatched(before))
      && (0 < n <= HashAt(f, e) + HEX_LEN && Tail(hash, Lines(file)) != Tail(hash, Lines(text)) ==>
            OneFailed(before, after, |Lines(text)| + 1))
  {
    hide Lines, Verified, Tail, FormatRecord, ExtractPrevHash, Redact, NextChainHash, Blank, Hex, HashAt, Body, Hashed;
    var c, torn := Tail(hash, Lines(text)), Torn(hash, f, text, e, n);
    var d := Tail(hash, Lines(text + torn));
    ChainIsHex(c);
    ChainIsHex(d);
    AcceptedTail(hash, f, Lines(text));
    ResumesAfterTear(hash, f, text, e, n);
    TornShape(f, e, Hex(c), n);
    GluedLine(f, text, torn, e2, Hex(d));
    GluedValue(f, e, e2, Hex(c), Hex(d), n);
    var line := FormatRecord(f, e2, Hex(d));
    assert torn + line == torn + Body(f, e2, Hex(d)) + "\n";
    VerifiedSnoc(hash, f, Lines(text), torn + line);
    if Hex(c) == Hex(d) {
      HexInjective(c, d);
    }
  }

  /** The same for a sink opened on the torn file, without rotation. */
  method RecordOnTorn(hash: Bytes -> Hash, f: Format, text: string, e: Event, n: nat, e2: Event)
    returns (file: string, report: VerifyReport)
    requires Terminated(text) && Accepted(hash, f, text)
    requires n < |FormatRecord(f, e, Hex(Tail(hash, Lines(text))))|
    ensures var torn := text + Torn(hash, f, text, e, n);
      var before := Verified(hash, f, Lines(text)).report;
      && file == torn + NextRecord(hash, f, torn, e2)
      && (n == 0 || n > HashAt(f, e) + HEX_LEN ==> report == OneMatched(before))
      && (0 < n <= HashAt(f, e) + HEX_LEN && Tail(hash, Lines(torn)) != Tail(hash, Lines(text)) ==>
            OneFailed(before, report, |Lines(text)| + 1))
  {
    hide Lines, Verified, Tail, FormatRecord, Redact, NextChainHash, Hex, HashAt;
    var sink := new AuditSink(hash, f, 0, text + Torn(hash, f, text, e, n));
    sink.Record(e2);
    file := sink.text;
    report := VerifyChain(hash, f, file);
    RecordAfterTear(hash, f, text, e, n, e2);
  }

  /** Appended to a terminated file, a record passes exactly if it embeds the digest the file leads to. */
  lemma AppendedAccepted(hash: Bytes -> Hash, f: Format, text: string, e: Event, chain: Hash)
    requires Terminated(text)
    ensures Accepted(hash, f, text + FormatRecord(f, e, Hex(chain)))
      <==> Accepted(hash, f, text) && chain == Tail(hash, Lines(text))
  {
    hide Lines, Verified, Tail, FormatRecord, ExtractPrevHash, Redact, NextChainHash, Blank, Hex, OneLine;
    var line := FormatRecord(f, e, Hex(chain));
    ChainIsHex(chain);
    RecordIsOneLine(f, e, Hex(chain));
    ExtractUndoesFormat(f, e, Hex(chain));
    LinesAppend(text, line);
    VerifiedSnoc(hash, f, Lines(text), line);
    if Accepted(hash, f, text) {
      AcceptedTail(hash, f, Lines(text));
      if Hex(chain) == Hex(Tail(hash, Lines(text))) {
        HexInjective(chain, Tail(hash, Lines(text)));
      }
    }
  }

  /**
   * What follows. Opened anew on an accepted glued file, a sink goes on as on any accepted file;
   * but a second record of the sink that wrote the glued one is accepted only if two different
   * byte strings share a hash: its chain and the verifier's took the glued line differently.
   */
  lemma SecondAfterTear(hash: Bytes -> Hash, f: Format, text: string, e: Event, n: nat, e2: Event, e3: Event)
    requires Terminated(text) && Accepted(hash, f, text)
    requires 0 < n < |FormatRecord(f, e, Hex(Tail(hash, Lines(text))))|
    requires Tail(hash, Lines(text + Torn(hash, f, text, e, n))) != Tail(hash, Lines(text))
    ensures var c, torn := Tail(hash, Lines(text)), Torn(hash, f, text, e, n);
      var file := text + torn;
      var d, line := Tail(hash, Lines(file)), NextRecord(hash, f, file, e2);
      var same := FormatRecord(f, e3, Hex(NextChainHash(hash, d, Redact(line, Hex(d)))));
      && Hashed(d, line) != Hashed(c, torn + line)
      && (Accepted(hash, f, file + line + same) <==>
            n > HashAt(f, e) + HEX_LEN && hash(Hashed(d, line)) == hash(Hashed(c, torn + line)))
      && (Accepted(hash, f, file + line + NextRecord(hash, f, file + line, e3)) <==> n > HashAt(f, e) + HEX_LEN)
  {
    hide Lines, Verified, Tail, FormatRecord, ExtractPrevHash, Redact, Blank, Hex, HashAt, Body, Hashed, IsOk;
    var c, torn := Tail(hash, Lines(text)), Torn(hash, f, text, e, n);
    var file := text + torn;
    var d, line := Tail(hash, Lines(file)), NextRecord(hash, f, file, e2);
    RecordAfterTear(hash, f, text, e, n, e2);
    assert Accepted(hash, f, file + line) <==> n > HashAt(f, e) + HEX_LEN by { ReportsTell(hash, f, text, e, n, e2); }
    GluedChain(hash, f, text, e, n, e2);
    AppendedAccepted(hash, f, file + line, e3, NextChainHash(hash, d, Redact(line, Hex(d))));
    AppendedAccepted(hash, f, file + line, e3, Tail(hash, Lines(file + line)));
    if Hashed(d, line) == Hashed(c, torn + line) {
      HashedParts(d, line, c, torn + line);
    }
    assert NextChainHash(hash, d, Redact(line, Hex(d))) == hash(Hashed(d, line)) by { NextIsHashed(hash, d, line); }
  }

  lemma NextIsHashed(hash: Bytes -> Hash, chain: Hash, line: string)
    ensures NextChainHash(hash, chain, Redact(line, Hex(chain))) == hash(Hashed(chain, line))
  {
  }

  lemma ReportsTell(hash: Bytes -> Hash, f: Format, text: string, e: Event, n: nat, e2: Event)
    requires Terminated(text) && Accepted(hash, f, text)
    requires 0 < n < |FormatRecord(f, e, Hex(Tail(hash, Lines(text))))|
    requires Tail(hash, Lines(text + Torn(hash, f, text, e, n))) != Tail(hash, Lines(text))
    ensures var file := text + Torn(hash, f, text, e, n);
      Accepted(hash, f, file + NextRecord(hash, f, file, e2)) <==> n > HashAt(f, e) + HEX_LEN
  {
    hide Lines, Verified, Tail, FormatRecord, Hex, HashAt, Torn, NextRecord;
    RecordAfterTear(hash, f, text, e, n, e2);
  }

  /** The chain takes the glued line as one record. */
  lemma GluedChain(hash: Bytes -> Hash, f: Format, text: string, e: Event, n: nat, e2: Event)
    requires Terminated(text)
    requires n < |FormatRecord(f, e, Hex(Tail(hash, Lines(text))))|
    ensures var c, torn := Tail(hash, Lines(text)), Torn(hash, f, text, e, n);
      var line := NextRecord(hash, f, text + torn, e2);
      Tail(hash, Lines(text + torn + line)) == hash(Hashed(c, torn + line))
  {
    hide Lines, Tail, FormatRecord, Redact, Blank, Hex, Body;
    var c, torn := Tail(hash, Lines(text)), Torn(hash, f, text, e, n);
    var d := Tail(hash, Lines(text + torn));
    ChainIsHex(c);
    ChainIsHex(d);
    TornShape(f, e, Hex(c), n);
    GluedLine(f, text, torn, e2, Hex(d));
    TailSnoc(hash, Lines(text), torn + FormatRecord(f, e2, Hex(d)));
  }
}
