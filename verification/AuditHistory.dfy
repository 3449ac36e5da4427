/** Tamper evidence: what two accepted logs must have in common. */
module AuditHistory {
  import opened Base
  import opened AuditText
  import opened AuditFormat
  import opened AuditChain
  import opened AuditTamper

  lemma LinesJoin(before: string, line: string, after: string)
    requires Terminated(before) && OneLine(line)
    ensures Lines(before + line + after) == Lines(before) + [line] + Lines(after)
  {
    hide Lines;
    LinesAppend(before, line);
    LinesSplit(before + line, after);
  }

  /** Some line of the text is a record. */
  predicate HasRecord(lines: seq<string>) {
    exists i :: 0 <= i < |lines| && !Blank(lines[i])
  }

  lemma {:induction false} BlankLines(hash: Bytes -> Hash, f: Format, lines: seq<string>, blanks: seq<string>)
    requires !HasRecord(blanks)
    ensures Verified(hash, f, lines + blanks) == Verified(hash, f, lines)
    decreases |blanks|
  {
    hide Blank, ExtractPrevHash, Redact, NextChainHash, Verified;
    if blanks == [] {
      assert lines + blanks == lines;
    } else {
      var front, last := blanks[..|blanks| - 1], blanks[|blanks| - 1];
      assert !HasRecord(front);
      BlankLines(hash, f, lines, front);
      assert lines + blanks == (lines + front) + [last];
      VerifiedSnoc(hash, f, lines + front, last);
    }
  }

  /** In an accepted file the next record embeds the digest the chain has reached. */
  lemma NextEmbeds(hash: Bytes -> Hash, f: Format, lines: seq<string>, after: seq<string>) returns (i: nat)
    requires HasRecord(after) && IsOk(Verified(hash, f, lines + after).report)
    ensures i < |after| && !Blank(after[i]) && !HasRecord(after[..i])
    ensures ExtractPrevHash(f, after[i]) == Some(Hex(Verified(hash, f, lines).chain))
  {
    hide Blank, ExtractPrevHash, Redact, NextChainHash, Verified;
    var w :| 0 <= w < |after| && !Blank(after[w]);
    i := 0;
    while Blank(after[i])
      invariant 0 <= i <= w && !HasRecord(after[..i])
      decreases w - i
    {
      assert after[..i + 1] == after[..i] + [after[i]];
      i := i + 1;
    }
    BlankLines(hash, f, lines, after[..i]);
    assert lines + after == (lines + after[..i] + [after[i]]) + after[i + 1..];
    OkPrefix(hash, f, lines + after[..i] + [after[i]], after[i + 1..]);
    VerifiedSnoc(hash, f, lines + after[..i], after[i]);
  }

  /** A record in its place: what it embeds and where the chain goes from it. */
  lemma RecordStep(hash: Bytes -> Hash, f: Format, before: seq<string>, line: string, after: seq<string>)
    requires !Blank(line) && IsOk(Verified(hash, f, before + [line] + after).report)
    ensures IsOk(Verified(hash, f, before).report) && IsOk(Verified(hash, f, before + [line]).report)
    ensures var c := Verified(hash, f, before).chain;
      && ExtractPrevHash(f, line) == Some(Hex(c))
      && Verified(hash, f, before + [line]).chain == NextChainHash(hash, c, Redact(line, Hex(c)))
  {
    hide Blank, ExtractPrevHash, Redact, NextChainHash, Verified;
    OkPrefix(hash, f, before + [line], after);
    OkPrefix(hash, f, before, [line]);
    VerifiedSnoc(hash, f, before, line);
  }

  /** The bytes hashed for a record that embeds the digest the chain has reached. */
  function Hashed(chain: Hash, line: string): Bytes {
    chain + Utf8(Redact(line, Hex(chain)))
  }

  lemma HashedParts(c: Hash, x: string, d: Hash, y: string)
    requires Hashed(c, x) == Hashed(d, y)
    ensures c == d && Redact(x, Hex(c)) == Redact(y, Hex(d))
  {
    hide Utf8, Redact, Hex;
    var u, v := Utf8(Redact(x, Hex(c))), Utf8(Redact(y, Hex(d)));
    assert (c + u)[..32] == c && (d + v)[..32] == d && (c + u)[32..] == u && (d + v)[32..] == v;
    Utf8Injective(Redact(x, Hex(c)), Redact(y, Hex(d)));
  }

  // ----- replacing one record -----------------------------------------------------------

  lemma NoneBefore(lines: seq<string>, j: nat)
    requires j <= |lines| && !HasRecord(lines[..j])
    ensures forall k :: 0 <= k < j ==> Blank(lines[k])
  {
    hide Blank;
    forall k | 0 <= k < j ensures Blank(lines[k]) {
      assert lines[k] == lines[..j][k];
    }
  }

  /** One continuation accepted after two files forces the two to the same digest. */
  lemma SameEmbedding(hash: Bytes -> Hash, f: Format, a: seq<string>, b: seq<string>, after: seq<string>)
    requires HasRecord(after)
    requires IsOk(Verified(hash, f, a + after).report) && IsOk(Verified(hash, f, b + after).report)
    ensures Verified(hash, f, a).chain == Verified(hash, f, b).chain
  {
    hide Blank, ExtractPrevHash, Verified, Hex;
    var i := NextEmbeds(hash, f, a, after);
    var j := NextEmbeds(hash, f, b, after);
    NoneBefore(after, i);
    NoneBefore(after, j);
    HexInjective(Verified(hash, f, a).chain, Verified(hash, f, b).chain);
  }

  /** Two records in one place of two accepted files embed one digest and lead to one digest. */
  lemma SamePlace(hash: Bytes -> Hash, f: Format, before: string, a: string, b: string, after: string)
    requires Terminated(before) && OneLine(a) && OneLine(b) && !Blank(a) && !Blank(b) && HasRecord(Lines(after))
    requires Accepted(hash, f, before + a + after) && Accepted(hash, f, before + b + after)
    ensures var c := Verified(hash, f, Lines(before)).chain;
      && ExtractPrevHash(f, a) == Some(Hex(c)) && ExtractPrevHash(f, b) == Some(Hex(c))
      && hash(Hashed(c, a)) == hash(Hashed(c, b))
  {
    hide Blank, ExtractPrevHash, Redact, Verified, Lines, Hex, OneLine, Utf8, HasRecord;
    LinesJoin(before, a, after);
    LinesJoin(before, b, after);
    var head, rest := Lines(before), Lines(after);
    RecordStep(hash, f, head, a, rest);
    RecordStep(hash, f, head, b, rest);
    SameEmbedding(hash, f, head + [a], head + [b], rest);
  }

  /**
   * Tamper evidence: take a record whose digest does not occur again after its slot, with some
   * later record behind it. If any other record in its place is accepted too, two different
   * byte strings with the same digest are at hand.
   */
  lemma ReplacementDetected(hash: Bytes -> Hash, f: Format, before: string, a: string, b: string, after: string)
    requires Terminated(before) && OneLine(a) && OneLine(b) && !Blank(b) && a != b && HasRecord(Lines(after))
    requires Clean(f, a)
    requires Accepted(hash, f, before + a + after) && Accepted(hash, f, before + b + after)
    ensures var c := Verified(hash, f, Lines(before)).chain;
      Hashed(c, a) != Hashed(c, b) && hash(Hashed(c, a)) == hash(Hashed(c, b))
  {
    hide Blank, ExtractPrevHash, Redact, Verified, Lines, Hex, OneLine, HasRecord, Hashed, SlotOf, RFind;
    NotBlank(f, a);
    SamePlace(hash, f, before, a, b, after);
    var c := Verified(hash, f, Lines(before)).chain;
    if Hashed(c, a) == Hashed(c, b) {
      HashedParts(c, a, c, b);
      RedactionFaithful(f, a, b, c);
    }
  }

  lemma {:induction false} SameStateOn(hash: Bytes -> Hash, f: Format, a: seq<string>, b: seq<string>,
                                       more: seq<string>)
    requires Verified(hash, f, a) == Verified(hash, f, b) && |a| == |b|
    ensures Verified(hash, f, a + more) == Verified(hash, f, b + more)
    decreases |more|
  {
    hide CheckLine, Verified;
    if more == [] {
      assert a + more == a && b + more == b;
    } else {
      var front, last := more[..|more| - 1], more[|more| - 1];
      assert a + more == (a + front) + [last] && b + more == (b + front) + [last];
      SameStateOn(hash, f, a, b, front);
      VerifiedSnoc(hash, f, a + front, last);
      VerifiedSnoc(hash, f, b + front, last);
    }
  }

  /** Twins are interchangeable: the verifier's digest and report are the same over the whole file. */
  lemma TwinsUndetected(hash: Bytes -> Hash, f: Format, before: string, a: string, b: string, after: string)
    requires Terminated(before) && OneLine(a) && OneLine(b)
    requires Twins(f, a, b, Hex(Verified(hash, f, Lines(before)).chain))
    ensures Verified(hash, f, Lines(before + a + after)) == Verified(hash, f, Lines(before + b + after))
  {
    hide Blank, ExtractPrevHash, Redact, Verified, Lines, Hex, OneLine, SlotOf, RFind, Windows;
    var head := Lines(before);
    LinesJoin(before, a, after);
    LinesJoin(before, b, after);
    RedactAlikeExactly(f, a, b, Verified(hash, f, head).chain);
    NotBlank(f, a);
    NotBlank(f, b);
    VerifiedSnoc(hash, f, head, a);
    VerifiedSnoc(hash, f, head, b);
    SameStateOn(hash, f, head + [a], head + [b], Lines(after));
  }

  /**
   * Exactly which replacements go undetected, when the two byte strings hashed do not collide:
   * a record followed by another can be exchanged for a different one if and only if the two
   * are twins.
   */
  lemma ReplacementExactly(hash: Bytes -> Hash, f: Format, before: string, a: string, b: string, after: string)
    requires Terminated(before) && OneLine(a) && OneLine(b) && !Blank(a) && !Blank(b) && a != b
      && HasRecord(Lines(after))
    requires Accepted(hash, f, before + a + after)
    requires var c := Verified(hash, f, Lines(before)).chain;
      hash(Hashed(c, a)) == hash(Hashed(c, b)) ==> Hashed(c, a) == Hashed(c, b)
    ensures Accepted(hash, f, before + b + after)
      <==> Twins(f, a, b, Hex(Verified(hash, f, Lines(before)).chain))
  {
    hide Blank, ExtractPrevHash, Redact, Verified, Lines, Hex, OneLine, HasRecord, Hashed, Twins;
    var c := Verified(hash, f, Lines(before)).chain;
    if Accepted(hash, f, before + b + after) {
      SamePlace(hash, f, before, a, b, after);
      HashedParts(c, a, c, b);
      RedactAlikeExactly(f, a, b, c);
    }
    if Twins(f, a, b, Hex(c)) {
      TwinsUndetected(hash, f, before, a, b, after);
    }
  }

  /**
   * The last record is vouched for by nothing: a replacement is accepted exactly when it
   * embeds the same digest or is blank, whatever else it says.
   */
  lemma LastRecordUnprotected(hash: Bytes -> Hash, f: Format, before: string, a: string, b: string)
    requires Terminated(before) && OneLine(a) && OneLine(b) && !Blank(a) && Accepted(hash, f, before + a)
    ensures Accepted(hash, f, before + b) <==> Blank(b) || ExtractPrevHash(f, b) == ExtractPrevHash(f, a)
  {
    hide Blank, ExtractPrevHash, Verified, Hex, Lines, OneLine, Redact, NextChainHash;
    LinesAppend(before, a);
    LinesAppend(before, b);
    var head := Lines(before);
    OkPrefix(hash, f, head, [a]);
    VerifiedSnoc(hash, f, head, a);
    VerifiedSnoc(hash, f, head, b);
  }

  // ----- whole histories ------------------------------------------------------------------

  /** The lines that are records. */
  function Records(lines: seq<string>): seq<string> {
    if lines == [] then []
    else
      var front, last := Records(lines[..|lines| - 1]), lines[|lines| - 1];
      if Blank(last) then front else front + [last]
  }

  /** Everything the verifier hashes on an accepted file. */
  function Inputs(hash: Bytes -> Hash, f: Format, lines: seq<string>): set<Bytes> {
    if lines == [] then {}
    else
      var front, last := lines[..|lines| - 1], lines[|lines| - 1];
      if Blank(last) then Inputs(hash, f, front)
      else Inputs(hash, f, front) + {Hashed(Verified(hash, f, front).chain, last)}
  }

  /** Among these byte strings no two share a digest, and none has the digest a chain starts from. */
  ghost predicate Sound(hash: Bytes -> Hash, inputs: set<Bytes>) {
    && (forall x, y :: x in inputs && y in inputs && hash(x) == hash(y) ==> x == y)
    && (forall x :: x in inputs ==> hash(x) != Zeros(32))
  }

  ghost predicate SameRecord(f: Format, a: string, b: string) {
    a == b || (ExtractPrevHash(f, a).Some? && Twins(f, a, b, ExtractPrevHash(f, a).value))
  }

  /** Record by record the same, up to twins. */
  ghost predicate SameHistory(f: Format, a: seq<string>, b: seq<string>) {
    |a| == |b| && forall i :: 0 <= i < |a| ==> SameRecord(f, a[i], b[i])
  }

  lemma RecordsSnoc(hash: Bytes -> Hash, f: Format, lines: seq<string>)
    requires lines != []
    ensures var front, last := lines[..|lines| - 1], lines[|lines| - 1];
      && lines == front + [last]
      && (Blank(last) ==> Records(lines) == Records(front) && Inputs(hash, f, lines) == Inputs(hash, f, front)
                          && Verified(hash, f, lines) == Verified(hash, f, front))
      && (!Blank(last) ==> Records(lines) == Records(front) + [last]
                           && Inputs(hash, f, lines)
                             == Inputs(hash, f, front) + {Hashed(Verified(hash, f, front).chain, last)})
  {
    hide Blank, Hashed, ExtractPrevHash, Redact, NextChainHash;
  }

  lemma HistorySnoc(f: Format, a: seq<string>, b: seq<string>, x: string, y: string)
    requires SameHistory(f, a, b) && SameRecord(f, x, y)
    ensures SameHistory(f, a + [x], b + [y])
  {
    hide SameRecord;
  }

  lemma FewerInputs(hash: Bytes -> Hash, all: set<Bytes>, some: set<Bytes>)
    requires Sound(hash, all) && some <= all
    ensures Sound(hash, some)
  {
  }

  /** An accepted file that ends in a record: its last step. */
  lemma LastStep(hash: Bytes -> Hash, f: Format, lines: seq<string>)
    requires lines != [] && !Blank(lines[|lines| - 1]) && IsOk(Verified(hash, f, lines).report)
    ensures var front, last := lines[..|lines| - 1], lines[|lines| - 1];
      var c := Verified(hash, f, front).chain;
      && IsOk(Verified(hash, f, front).report) && ExtractPrevHash(f, last) == Some(Hex(c))
      && Verified(hash, f, lines).chain == hash(Hashed(c, last))
  {
    hide Blank, ExtractPrevHash, Redact, Verified;
    var front, last := lines[..|lines| - 1], lines[|lines| - 1];
    assert front + [last] + [] == lines;
    assert front + [last] == lines;
    RecordStep(hash, f, front, last, []);
  }

  /**
   * Two accepted files that reach the same digest hold the same records in the same order, up
   * to twins: nothing was inserted, removed, moved or changed. Blank lines do not matter.
   */
  lemma {:induction false} SameDigestSameHistory(hash: Bytes -> Hash, f: Format, a: seq<string>, b: seq<string>)
    requires IsOk(Verified(hash, f, a).report) && IsOk(Verified(hash, f, b).report)
    requires Verified(hash, f, a).chain == Verified(hash, f, b).chain
    requires Sound(hash, Inputs(hash, f, a) + Inputs(hash, f, b))
    ensures SameHistory(f, Records(a), Records(b))
    decreases |a| + |b|
  {
    hide Blank, ExtractPrevHash, Verified, Hashed, Records, Inputs, Twins, SameHistory, IsOk, Hex, Sound;
    if a != [] && Blank(a[|a| - 1]) {
      RecordsSnoc(hash, f, a);
      SameDigestSameHistory(hash, f, a[..|a| - 1], b);
    } else if b != [] && Blank(b[|b| - 1]) {
      RecordsSnoc(hash, f, b);
      SameDigestSameHistory(hash, f, a, b[..|b| - 1]);
    } else if a == [] || b == [] {
      StartOnly(hash, f, a, b);
    } else {
      var x, y := a[..|a| - 1], b[..|b| - 1];
      var u, v := a[|a| - 1], b[|b| - 1];
      RecordsSnoc(hash, f, a);
      RecordsSnoc(hash, f, b);
      LastStep(hash, f, a);
      LastStep(hash, f, b);
      var c, d := Verified(hash, f, x).chain, Verified(hash, f, y).chain;
      assert Hashed(c, u) == Hashed(d, v) by {
        NoCollision(hash, Inputs(hash, f, a) + Inputs(hash, f, b), Hashed(c, u), Hashed(d, v));
      }
      HashedParts(c, u, d, v);
      RedactAlikeExactly(f, u, v, c);
      FewerInputs(hash, Inputs(hash, f, a) + Inputs(hash, f, b), Inputs(hash, f, x) + Inputs(hash, f, y));
      SameDigestSameHistory(hash, f, x, y);
      HistorySnoc(f, Records(x), Records(y), u, v);
    }
  }

  lemma NoCollision(hash: Bytes -> Hash, inputs: set<Bytes>, x: Bytes, y: Bytes)
    requires Sound(hash, inputs) && x in inputs && y in inputs && hash(x) == hash(y)
    ensures x == y
  {
  }

  /** Only a file without records stays at the digest a chain starts from. */
  lemma StartOnly(hash: Bytes -> Hash, f: Format, a: seq<string>, b: seq<string>)
    requires IsOk(Verified(hash, f, a).report) && IsOk(Verified(hash, f, b).report)
    requires Verified(hash, f, a).chain == Verified(hash, f, b).chain
    requires Sound(hash, Inputs(hash, f, a) + Inputs(hash, f, b))
    requires a == [] || b == []
    requires a != [] ==> !Blank(a[|a| - 1])
    requires b != [] ==> !Blank(b[|b| - 1])
    ensures SameHistory(f, Records(a), Records(b))
  {
    hide Blank, ExtractPrevHash, Hashed, Inputs, Twins, Hex, Verified, IsOk;
    EmptyStart(hash, f);
    if a != [] {
      RecordsSnoc(hash, f, a);
      LastStep(hash, f, a);
    }
    if b != [] {
      RecordsSnoc(hash, f, b);
      LastStep(hash, f, b);
    }
  }

  lemma EmptyStart(hash: Bytes -> Hash, f: Format)
    ensures Verified(hash, f, []).chain == Zeros(32) && Records([]) == [] && Inputs(hash, f, []) == {}
  {
  }

  /**
   * Two accepted logs whose last records embed the same digest agree on every earlier record,
   * up to twins, unless two different byte strings they hash share a digest or one has the
   * digest a chain starts from.
   */
  lemma SameLastSameHistory(hash: Bytes -> Hash, f: Format, a: seq<string>, u: string, b: seq<string>, v: string)
    requires IsOk(Verified(hash, f, a + [u]).report) && IsOk(Verified(hash, f, b + [v]).report)
    requires !Blank(u) && !Blank(v) && ExtractPrevHash(f, u) == ExtractPrevHash(f, v)
    requires Sound(hash, Inputs(hash, f, a) + Inputs(hash, f, b))
    ensures SameHistory(f, Records(a), Records(b))
    ensures (forall i :: 0 <= i < |Records(a)| ==> Clean(f, Records(a)[i])) ==> Records(a) == Records(b)
  {
    hide Blank, ExtractPrevHash, Verified, Redact, Records, Inputs, Hex, IsOk, NextChainHash, SlotOf, RFind, Windows;
    assert a + [u] + [] == a + [u] && b + [v] + [] == b + [v];
    RecordStep(hash, f, a, u, []);
    RecordStep(hash, f, b, v, []);
    HexInjective(Verified(hash, f, a).chain, Verified(hash, f, b).chain);
    SameDigestSameHistory(hash, f, a, b);
  }
}
