/** The append-only audit log writer over one live file. */
module AuditSinks {
  import opened Base
  import opened AuditText
  import opened AuditFormat
  import opened AuditChain
  import opened AuditReadback

  class AuditSink {
    const hash: Bytes -> Hash
    const format: Format
    /** Bytes at which the live file is rotated away; zero turns rotation off. */
    const maxSize: nat
    /** The live file's text. */
    var text: string
    var chain: Hash
    var written: nat

    /** The memory agrees with the file, and the file passes verification. */
    ghost predicate Valid()
      reads this
    {
      && Terminated(text) && Accepted(hash, format, text)
      && chain == Tail(hash, Lines(text)) && written == |Utf8(text)|
    }

    /** Open a file, whatever it holds, resuming its chain. */
    constructor (hash: Bytes -> Hash, format: Format, maxSize: nat, file: string)
      ensures this.hash == hash && this.format == format && this.maxSize == maxSize && text == file
      ensures chain == Tail(hash, Lines(file)) && written == |Utf8(file)|
      ensures Terminated(file) && Accepted(hash, format, file) ==> Valid()
    {
      var resumed, size := ReadTailState(hash, file);
      this.hash, this.format, this.maxSize, text := hash, format, maxSize, file;
      chain, written := resumed, size;
    }

    /** Append one record; the live file starts over when it reaches the threshold. */
    method Record(e: Event)
      modifies this
      ensures var line := FormatRecord(format, e, Hex(old(chain)));
        var size := old(written) + |Utf8(line)|;
        if maxSize > 0 && size >= maxSize then text == "" && chain == Zeros(32) && written == 0
        else text == old(text) + line && written == size
             && chain == NextChainHash(hash, old(chain), Redact(line, Hex(old(chain))))
             && ReadEvent(format, line) == Some(e)
      ensures old(Valid()) ==> Valid()
    {
      hide FormatRecord, Redact, Verified, Tail, Lines, NextChainHash, Hex, Utf8, ReadEvent;
      var prev := Hex(chain);
      EventReadBack(format, e, prev);
      var line := FormatRecord(format, e, prev);
      ghost var before, valid := text, Valid();
      text := text + line;
      chain := NextChainHash(hash, chain, Redact(line, prev));
      written := written + |Utf8(line)|;
      if valid {
        RecordAccepted(hash, format, before, e);
        Utf8Append(before, line);
        assert Valid();
      }
      if maxSize > 0 && written >= maxSize {
        text, chain, written := "", Zeros(32), 0;
        EmptyLog(hash, format);
      }
    }
  }

  lemma EmptyLog(hash: Bytes -> Hash, f: Format)
    ensures Lines("") == [] && Tail(hash, []) == Zeros(32) && Accepted(hash, f, "") && |Utf8("")| == 0
  {
  }

  lemma {:induction false} Utf8Append(a: string, b: string)
    ensures Utf8(a + b) == Utf8(a) + Utf8(b)
  {
    if a == [] {
      assert a + b == b;
    } else {
      assert (a + b)[1..] == a[1..] + b;
      Utf8Append(a[1..], b);
    }
  }

  /** The file after a run of records into an empty log, with any reopens between them. */
  function LogOf(hash: Bytes -> Hash, f: Format, events: seq<Event>): string {
    if events == [] then ""
    else
      var text := LogOf(hash, f, events[..|events| - 1]);
      text + FormatRecord(f, events[|events| - 1], Hex(Tail(hash, Lines(text))))
  }

  /**
   * For every run: each record is one line, the verifier counts exactly the records and
   * matches them all, and the digest to resume from is the one the verifier ends on.
   */
  lemma {:induction false} EveryRunVerifies(hash: Bytes -> Hash, f: Format, events: seq<Event>)
    ensures var text := LogOf(hash, f, events);
      var c := Verified(hash, f, Lines(text));
      && Terminated(text)
      && c.report == VerifyReport(|events|, |events|, 0, 0, [])
      && Tail(hash, Lines(text)) == c.chain
  {
    hide FormatRecord, Redact, Tail, Lines, NextChainHash, Hex, Verified;
    if events == [] {
      EmptyLog(hash, f);
      assert Verified(hash, f, Lines(""))
        == Checked(Zeros(32), VerifyReport(0, 0, 0, 0, [])) by { EmptyChecked(hash, f); }
    } else {
      EveryRunVerifies(hash, f, events[..|events| - 1]);
      RecordAccepted(hash, f, LogOf(hash, f, events[..|events| - 1]), events[|events| - 1]);
      AcceptedTail(hash, f, Lines(LogOf(hash, f, events)));
    }
  }

  /** The log of a run tells its history: one line for each event, in order, and each gives its event back. */
  lemma {:induction false} LogReadsBack(hash: Bytes -> Hash, f: Format, events: seq<Event>)
    ensures var lines := Lines(LogOf(hash, f, events));
      |lines| == |events| && forall i :: 0 <= i < |events| ==> ReadEvent(f, lines[i]) == Some(events[i])
  {
    hide FormatRecord, Tail, Lines, Hex, ReadEvent, OneLine, Verified;
    if events == [] {
      EmptyLog(hash, f);
    } else {
      var front, last := events[..|events| - 1], events[|events| - 1];
      LogReadsBack(hash, f, front);
      EveryRunVerifies(hash, f, front);
      var text := LogOf(hash, f, front);
      var prev := Hex(Tail(hash, Lines(text)));
      RecordIsOneLine(f, last, prev);
      LinesAppend(text, FormatRecord(f, last, prev));
      EventReadBack(f, last, prev);
      assert events == front + [last];
    }
  }

  lemma EmptyChecked(hash: Bytes -> Hash, f: Format)
    ensures Verified(hash, f, Lines("")) == Checked(Zeros(32), VerifyReport(0, 0, 0, 0, []))
  {
  }

  /** A sink fed one event after another, without rotation, reopening wherever `reopen` says. */
  method WriteAll(hash: Bytes -> Hash, format: Format, events: seq<Event>, reopen: nat -> bool)
    returns (text: string, chain: Hash, report: VerifyReport)
    ensures text == LogOf(hash, format, events)
    ensures chain == Tail(hash, Lines(text))
    ensures report == VerifyReport(|events|, |events|, 0, 0, [])
  {
    hide FormatRecord, Redact, Tail, Lines, NextChainHash, Hex, Verified;
    EmptyLog(hash, format);
    var sink := new AuditSink(hash, format, 0, "");
    for i := 0 to |events|
      invariant fresh(sink) && sink.hash == hash && sink.format == format && sink.maxSize == 0
      invariant sink.Valid() && sink.text == LogOf(hash, format, events[..i])
    {
      assert events[..i + 1][..i] == events[..i];
      if reopen(i) {
        sink := new AuditSink(hash, format, 0, sink.text);
      }
      sink.Record(events[i]);
    }
    assert events[..|events|] == events;
    EveryRunVerifies(hash, format, events);
    text, chain := sink.text, sink.chain;
    report := VerifyChain(hash, format, text);
  }
}
