/** Reading a record back: what a log reader finds in it is what the event held. */
module AuditReadback {
  import opened Base
  import opened AuditText
  import opened AuditFormat
  import opened AuditTamper
  import opened AuditPairs

  // ----- the keys -------------------------------------------------------------------------------

  lemma CefNames1()
    ensures Name("rt") && Name("dhost") && Name("duser") && Name("cs1Label")
    ensures Name("cs1") && Name("cs2Label") && Name("cs2")
  {
  }

  lemma CefNames2()
    ensures Name("cs3Label") && Name("cs3") && Name("cs4Label") && Name("cs4")
    ensures Name("cn1Label") && Name("cn1") && Name("cn2Label")
  {
  }

  lemma CefNames3()
    ensures Name("cn2") && Name("cn3Label") && Name("cn3") && Name("cfp1Label")
    ensures Name("cfp1") && Name("fname") && Name("filePath")
  {
  }

  lemma CefNames4()
    ensures Name("fsize") && Name("fileHash") && Name("reason") && Name("outcome")
    ensures Name("act")
  {
  }

  lemma LeefNames1()
    ensures Name("devTime") && Name("dstHost") && Name("usrName") && Name("sev")
    ensures Name("prevHash") && Name("signature") && Name("jobId")
  {
  }

  lemma LeefNames2()
    ensures Name("cat") && Name("src") && Name("dst") && Name("status")
    ensures Name("filesOk") && Name("filesFailed") && Name("bytes")
  {
  }

  lemma LeefNames3()
    ensures Name("durationMs") && Name("size") && Name("hash") && Name("errorCode")
    ensures Name("errorMsg") && Name("action") && Name("field")
  {
  }

  lemma LeefNames4()
    ensures Name("beforeHash") && Name("afterHash") && Name("attemptedAction") && Name("reason")
  {
  }

  lemma CefNamed(e: Event, prev: string)
    ensures Names(CefParts(e, prev))
  {
    hide Name, Decimal, Host, User;
    CefNames1();
    CefNames2();
    CefNames3();
    CefNames4();
    assert Names(CefBefore(e) + [("cs1", prev)]);
    assert Names(CefDetail(e));
  }

  lemma LeefNamed(e: Event, prev: string)
    ensures Names(LeefParts(e, prev))
  {
    hide Name, Decimal, Signature, Host, User, SeverityOf;
    LeefNames1();
    LeefNames2();
    LeefNames3();
    LeefNames4();
    assert Names(LeefBefore(e) + [("prevHash", prev)]);
    assert Names(LeefAfter(e));
  }

  // ----- a whole record -------------------------------------------------------------------------

  function Separator(f: Format): char {
    if f.Cef? then ' ' else '\t'
  }

  /** The pairs of a record, split and unescaped. */
  function Pairs(f: Format, line: string): seq<Part> {
    match AfterPipe(TrimEnd(line), Pipes(f))
    case None => []
    case Some(ext) => ReadPairs(ext, Separator(f))
  }

  /** The fields of a record's header, unescaped. */
  function HeaderOf(f: Format, line: string): seq<string> {
    ReadHeader(TrimEnd(line), Pipes(f))
  }

  lemma CefPairs(e: Event, prev: string)
    ensures Pairs(Cef, FormatRecord(Cef, e, prev)) == CefParts(e, prev)
  {
    hide CefHeader, CefParts, Join, AfterPipe, TrimEnd, ReadPairs, Flat, Names;
    var ext := Join(CefParts(e, prev), ' ');
    RecordIsOneLine(Cef, e, prev);
    var line := FormatRecord(Cef, e, prev);
    assert line[..|line| - 1] == CefHeader(e) + ext;
    TrimLine(CefHeader(e) + ext);
    CefHeaderPassed(e, ext);
    CefNamed(e, prev);
    PairsReadBack(CefParts(e, prev), ' ');
  }

  lemma LeefPairs(e: Event, prev: string)
    ensures Pairs(Leef, FormatRecord(Leef, e, prev)) == LeefParts(e, prev)
  {
    hide LeefHeader, LeefParts, Join, AfterPipe, TrimEnd, ReadPairs, Flat, Names;
    var ext := Join(LeefParts(e, prev), '\t');
    RecordIsOneLine(Leef, e, prev);
    var line := FormatRecord(Leef, e, prev);
    assert line[..|line| - 1] == LeefHeader(e) + ext;
    TrimLine(LeefHeader(e) + ext);
    LeefHeaderPassed(e, ext);
    LeefNamed(e, prev);
    PairsReadBack(LeefParts(e, prev), '\t');
  }

  /** What the header says of each kind of event: its name, its title and its severity. */
  datatype Heading = Heading(signature: string, title: string, severity: string)

  function HeadingOf(e: Event): Heading {
    match e
    case JobStarted(_, _, _, _, _, _, _) => Heading("JobStarted", "Copy job started", "3")
    case JobCompleted(_, _, _, _, _, _, _) => Heading("JobCompleted", "Copy job completed", "3")
    case FileCopied(_, _, _, _, _, _) => Heading("FileCopied", "File copied", "0")
    case FileFailed(_, _, _, _, _) => Heading("FileFailed", "File copy failed", "7")
    case CollisionResolved(_, _, _, _, _) => Heading("CollisionResolved", "Collision resolved", "3")
    case SettingsChanged(_, _, _, _, _, _) => Heading("SettingsChanged", "Settings changed", "5")
    case LoginEvent(_, _, _) => Heading("LoginEvent", "Application login", "3")
    case UnauthorizedAccess(_, _, _, _, _) => Heading("UnauthorizedAccess", "Unauthorized access", "9")
  }

  lemma HeadingIs(e: Event)
    ensures HeadingOf(e) == Heading(Signature(e), Title(e), Decimal(CefSeverity(SeverityOf(e))))
  {
  }

  lemma PlainEscaped(s: string)
    requires Plain(s)
    ensures EscapeHeader(s) == s
  {
    HeaderUnescaped(s);
  }

  lemma LiteralsPlain()
    ensures EscapeHeader("CEF:0") == "CEF:0" && EscapeHeader("LEEF:2.0") == "LEEF:2.0"
    ensures EscapeHeader("Freally") == "Freally" && EscapeHeader(VERSION) == VERSION
  {
    hide Plain, EscapeHeader;
    PlainLiterals();
    PlainEscaped("CEF:0");
    PlainEscaped("LEEF:2.0");
    PlainEscaped("Freally");
    PlainEscaped(VERSION);
  }

  lemma SeverityPlain(e: Event)
    ensures EscapeHeader(HeadingOf(e).severity) == HeadingOf(e).severity == Decimal(CefSeverity(SeverityOf(e)))
  {
    hide EscapeHeader, Plain;
    PlainEvent(e);
    PlainEscaped(Decimal(CefSeverity(SeverityOf(e))));
    HeadingIs(e);
  }

  lemma CefFields(e: Event)
    ensures var h := HeadingOf(e);
      CefHeader(e) == Fields(Escaped(["CEF:0", "Freally", "Freally", VERSION, h.signature, h.title, h.severity]))
  {
    hide EscapeHeader, Signature, Title, Decimal, SeverityOf, CefSeverity, HeadingOf, Fields;
    LiteralsPlain();
    HeadingIs(e);
    SeverityPlain(e);
    var h := HeadingOf(e);
    assert Escaped(["CEF:0", "Freally", "Freally", VERSION, h.signature, h.title, h.severity])
      == ["CEF:0", "Freally", "Freally", VERSION, EscapeHeader(h.signature), EscapeHeader(h.title), h.severity];
  }

  lemma LeefFields(e: Event)
    ensures LeefHeader(e) == Fields(Escaped(["LEEF:2.0", "Freally", "Freally", VERSION, HeadingOf(e).signature]))
  {
    hide EscapeHeader, Signature, Title, Decimal, SeverityOf, CefSeverity, HeadingOf, Fields;
    LiteralsPlain();
    HeadingIs(e);
    assert Escaped(["LEEF:2.0", "Freally", "Freally", VERSION, HeadingOf(e).signature])
      == ["LEEF:2.0", "Freally", "Freally", VERSION, EscapeHeader(HeadingOf(e).signature)];
  }

  /** The header of a record read back. */
  lemma HeaderTells(e: Event, prev: string)
    ensures HeaderOf(Cef, FormatRecord(Cef, e, prev))
      == ["CEF:0", "Freally", "Freally", VERSION, HeadingOf(e).signature, HeadingOf(e).title, HeadingOf(e).severity]
    ensures HeaderOf(Leef, FormatRecord(Leef, e, prev))
      == ["LEEF:2.0", "Freally", "Freally", VERSION, HeadingOf(e).signature]
  {
    hide CefHeader, LeefHeader, CefParts, LeefParts, Join, TrimEnd, ReadHeader, Flat, HeadingOf, Fields, Escaped;
    var h := HeadingOf(e);
    RecordIsOneLine(Cef, e, prev);
    RecordIsOneLine(Leef, e, prev);
    CefFields(e);
    LeefFields(e);
    TrimLine(CefHeader(e) + Join(CefParts(e, prev), ' '));
    TrimLine(LeefHeader(e) + Join(LeefParts(e, prev), '\t'));
    HeaderReadBack(["CEF:0", "Freally", "Freally", VERSION, h.signature, h.title, h.severity],
                   Join(CefParts(e, prev), ' '));
    HeaderReadBack(["LEEF:2.0", "Freally", "Freally", VERSION, h.signature], Join(LeefParts(e, prev), '\t'));
  }

  // ----- the event ------------------------------------------------------------------------------

  /** The value of the first pair with this key. */
  function Lookup(pairs: seq<Part>, key: string): Option<string> {
    if pairs == [] then None
    else if pairs[0].0 == key then Some(pairs[0].1)
    else Lookup(pairs[1..], key)
  }

  lemma {:induction false} LookupAt(pairs: seq<Part>, i: nat)
    requires i < |pairs| && forall j :: 0 <= j < i ==> pairs[j].0 != pairs[i].0
    ensures Lookup(pairs, pairs[i].0) == Some(pairs[i].1)
  {
    if i > 0 {
      LookupAt(pairs[1..], i - 1);
    }
  }

  function Text(pairs: seq<Part>, key: string): string {
    match Lookup(pairs, key)
    case None => ""
    case Some(v) => v
  }

  function Number(s: string): nat {
    if s == [] then 0
    else
      var c := s[|s| - 1];
      10 * Number(s[..|s| - 1]) + if '0' <= c <= '9' then c as int - '0' as int else 0
  }

  function Counter(pairs: seq<Part>, key: string): u64 {
    Number(Text(pairs, key)) % U64_LIMIT
  }

  lemma Digit(n: nat)
    requires n < 10
    ensures var c := "0123456789"[n]; '0' <= c <= '9' && c as int - '0' as int == n
  {
  }

  lemma {:induction false} NumberDecimal(n: nat)
    ensures Number(Decimal(n)) == n
  {
    Digit(n % 10);
    var s := Decimal(n);
    if n >= 10 {
      NumberDecimal(n / 10);
      assert s[..|s| - 1] == Decimal(n / 10);
    } else {
      assert s[..|s| - 1] == [];
    }
  }

  /** What a reader who knows the keys makes of the pairs under a CEF record's signature. */
  function ReadCef(signature: string, p: seq<Part>): Option<Event> {
    if signature == "JobStarted" then
      Some(JobStarted(Text(p, "rt"), Text(p, "cs2"), Text(p, "cs3"), Text(p, "fname"),
                      Text(p, "filePath"), Text(p, "duser"), Text(p, "dhost")))
    else if signature == "JobCompleted" then
      Some(JobCompleted(Text(p, "rt"), Text(p, "cs2"), Text(p, "cs3"), Counter(p, "cn1"),
                        Counter(p, "cn2"), Counter(p, "cn3"), Counter(p, "cfp1")))
    else if signature == "FileCopied" then
      Some(FileCopied(Text(p, "rt"), Text(p, "cs2"), Text(p, "fname"),
                      Text(p, "filePath"), Text(p, "fileHash"), Counter(p, "fsize")))
    else if signature == "FileFailed" then
      Some(FileFailed(Text(p, "rt"), Text(p, "cs2"), Text(p, "fname"), Text(p, "outcome"), Text(p, "reason")))
    else if signature == "CollisionResolved" then
      Some(CollisionResolved(Text(p, "rt"), Text(p, "cs2"), Text(p, "fname"), Text(p, "filePath"), Text(p, "act")))
    else if signature == "SettingsChanged" then
      Some(SettingsChanged(Text(p, "rt"), Text(p, "duser"), Text(p, "dhost"),
                           Text(p, "cs2"), Text(p, "cs3"), Text(p, "cs4")))
    else if signature == "LoginEvent" then
      Some(LoginEvent(Text(p, "rt"), Text(p, "duser"), Text(p, "dhost")))
    else if signature == "UnauthorizedAccess" then
      Some(UnauthorizedAccess(Text(p, "rt"), Text(p, "duser"), Text(p, "dhost"), Text(p, "act"), Text(p, "reason")))
    else None
  }

  /** The same for a LEEF record. */
  function ReadLeef(signature: string, p: seq<Part>): Option<Event> {
    if signature == "JobStarted" then
      Some(JobStarted(Text(p, "devTime"), Text(p, "jobId"), Text(p, "cat"), Text(p, "src"),
                      Text(p, "dst"), Text(p, "usrName"), Text(p, "dstHost")))
    else if signature == "JobCompleted" then
      Some(JobCompleted(Text(p, "devTime"), Text(p, "jobId"), Text(p, "status"), Counter(p, "filesOk"),
                        Counter(p, "filesFailed"), Counter(p, "bytes"), Counter(p, "durationMs")))
    else if signature == "FileCopied" then
      Some(FileCopied(Text(p, "devTime"), Text(p, "jobId"), Text(p, "src"),
                      Text(p, "dst"), Text(p, "hash"), Counter(p, "size")))
    else if signature == "FileFailed" then
      Some(FileFailed(Text(p, "devTime"), Text(p, "jobId"), Text(p, "src"),
                      Text(p, "errorCode"), Text(p, "errorMsg")))
    else if signature == "CollisionResolved" then
      Some(CollisionResolved(Text(p, "devTime"), Text(p, "jobId"), Text(p, "src"), Text(p, "dst"), Text(p, "action")))
    else if signature == "SettingsChanged" then
      Some(SettingsChanged(Text(p, "devTime"), Text(p, "usrName"), Text(p, "dstHost"),
                           Text(p, "field"), Text(p, "beforeHash"), Text(p, "afterHash")))
    else if signature == "LoginEvent" then
      Some(LoginEvent(Text(p, "devTime"), Text(p, "usrName"), Text(p, "dstHost")))
    else if signature == "UnauthorizedAccess" then
      Some(UnauthorizedAccess(Text(p, "devTime"), Text(p, "usrName"), Text(p, "dstHost"),
                              Text(p, "attemptedAction"), Text(p, "reason")))
    else None
  }

  /** The event that a record tells of. */
  function ReadEvent(f: Format, line: string): Option<Event> {
    var header := HeaderOf(f, line);
    if |header| < 5 then None
    else if f.Cef? then ReadCef(header[4], Pairs(f, line))
    else ReadLeef(header[4], Pairs(f, line))
  }

  lemma TextAt(pairs: seq<Part>, i: nat)
    requires i < |pairs| && forall j :: 0 <= j < i ==> pairs[j].0 != pairs[i].0
    ensures Text(pairs, pairs[i].0) == pairs[i].1
  {
    LookupAt(pairs, i);
  }

  lemma CounterAt(pairs: seq<Part>, i: nat, n: u64)
    requires i < |pairs| && forall j :: 0 <= j < i ==> pairs[j].0 != pairs[i].0
    requires pairs[i].1 == Decimal(n)
    ensures Counter(pairs, pairs[i].0) == n
  {
    TextAt(pairs, i);
    NumberDecimal(n);
  }

  lemma CefOfJobStarted(e: Event, prev: string)
    requires e.JobStarted?
    ensures ReadCef("JobStarted", CefParts(e, prev)) == Some(e)
  {
    hide Decimal, Text, Counter, SeverityOf, CefSeverity, Signature;
    var p := CefParts(e, prev);
    TextAt(p, 0);
    TextAt(p, 6);
    TextAt(p, 8);
    TextAt(p, 9);
    TextAt(p, 10);
    TextAt(p, 2);
    TextAt(p, 1);
  }

  lemma CompletedCounters(e: Event, prev: string)
    requires e.JobCompleted?
    ensures var p := CefParts(e, prev);
      && Counter(p, "cn1") == e.filesOk && Counter(p, "cn2") == e.filesFailed
      && Counter(p, "cn3") == e.bytes && Counter(p, "cfp1") == e.durationMs
  {
    hide Decimal, Counter, User, Host;
    var p := CefParts(e, prev);
    CounterAt(p, 10, e.filesOk);
    CounterAt(p, 12, e.filesFailed);
    CounterAt(p, 14, e.bytes);
    CounterAt(p, 16, e.durationMs);
  }

  lemma CefOfJobCompleted(e: Event, prev: string)
    requires e.JobCompleted?
    ensures ReadCef("JobCompleted", CefParts(e, prev)) == Some(e)
  {
    hide Decimal, Text, Counter, User, Host;
    CompletedCounters(e, prev);
    var p := CefParts(e, prev);
    TextAt(p, 0);
    TextAt(p, 6);
    TextAt(p, 8);
  }

  lemma CefOfFileCopied(e: Event, prev: string)
    requires e.FileCopied?
    ensures ReadCef("FileCopied", CefParts(e, prev)) == Some(e)
  {
    hide Decimal, Text, Counter, SeverityOf, CefSeverity, Signature;
    var p := CefParts(e, prev);
    TextAt(p, 0);
    TextAt(p, 6);
    TextAt(p, 7);
    TextAt(p, 8);
    TextAt(p, 10);
    CounterAt(p, 9, e.size);
  }

  lemma CefOfFileFailed(e: Event, prev: string)
    requires e.FileFailed?
    ensures ReadCef("FileFailed", CefParts(e, prev)) == Some(e)
  {
    hide Decimal, Text, Counter, SeverityOf, CefSeverity, Signature;
    var p := CefParts(e, prev);
    TextAt(p, 0);
    TextAt(p, 6);
    TextAt(p, 7);
    TextAt(p, 9);
    TextAt(p, 8);
  }

  lemma CefOfCollisionResolved(e: Event, prev: string)
    requires e.CollisionResolved?
    ensures ReadCef("CollisionResolved", CefParts(e, prev)) == Some(e)
  {
    hide Decimal, Text, Counter, SeverityOf, CefSeverity, Signature;
    var p := CefParts(e, prev);
    TextAt(p, 0);
    TextAt(p, 6);
    TextAt(p, 7);
    TextAt(p, 8);
    TextAt(p, 9);
  }

  lemma CefOfSettingsChanged(e: Event, prev: string)
    requires e.SettingsChanged?
    ensures ReadCef("SettingsChanged", CefParts(e, prev)) == Some(e)
  {
    hide Decimal, Text, Counter, SeverityOf, CefSeverity, Signature;
    var p := CefParts(e, prev);
    TextAt(p, 0);
    TextAt(p, 2);
    TextAt(p, 1);
    TextAt(p, 6);
    TextAt(p, 8);
    TextAt(p, 10);
  }

  lemma CefOfLoginEvent(e: Event, prev: string)
    requires e.LoginEvent?
    ensures ReadCef("LoginEvent", CefParts(e, prev)) == Some(e)
  {
    hide Decimal, Text, Counter, SeverityOf, CefSeverity, Signature;
    var p := CefParts(e, prev);
    TextAt(p, 0);
    TextAt(p, 2);
    TextAt(p, 1);
  }

  lemma CefOfUnauthorizedAccess(e: Event, prev: string)
    requires e.UnauthorizedAccess?
    ensures ReadCef("UnauthorizedAccess", CefParts(e, prev)) == Some(e)
  {
    hide Decimal, Text, Counter, SeverityOf, CefSeverity, Signature;
    var p := CefParts(e, prev);
    TextAt(p, 0);
    TextAt(p, 2);
    TextAt(p, 1);
    TextAt(p, 5);
    TextAt(p, 6);
  }

  lemma LeefOfJobStarted(e: Event, prev: string)
    requires e.JobStarted?
    ensures ReadLeef("JobStarted", LeefParts(e, prev)) == Some(e)
  {
    hide Decimal, Text, Counter, SeverityOf, CefSeverity, Signature;
    var p := LeefParts(e, prev);
    TextAt(p, 0);
    TextAt(p, 6);
    TextAt(p, 7);
    TextAt(p, 8);
    TextAt(p, 9);
    TextAt(p, 2);
    TextAt(p, 1);
  }

  lemma LeefOfJobCompleted(e: Event, prev: string)
    requires e.JobCompleted?
    ensures ReadLeef("JobCompleted", LeefParts(e, prev)) == Some(e)
  {
    hide Decimal, Text, Counter, SeverityOf, CefSeverity, Signature;
    var p := LeefParts(e, prev);
    TextAt(p, 0);
    TextAt(p, 6);
    TextAt(p, 7);
    CounterAt(p, 8, e.filesOk);
    CounterAt(p, 9, e.filesFailed);
    CounterAt(p, 10, e.bytes);
    CounterAt(p, 11, e.durationMs);
  }

  lemma LeefOfFileCopied(e: Event, prev: string)
    requires e.FileCopied?
    ensures ReadLeef("FileCopied", LeefParts(e, prev)) == Some(e)
  {
    hide Decimal, Text, Counter, SeverityOf, CefSeverity, Signature;
    var p := LeefParts(e, prev);
    TextAt(p, 0);
    TextAt(p, 6);
    TextAt(p, 7);
    TextAt(p, 8);
    TextAt(p, 10);
    CounterAt(p, 9, e.size);
  }

  lemma LeefOfFileFailed(e: Event, prev: string)
    requires e.FileFailed?
    ensures ReadLeef("FileFailed", LeefParts(e, prev)) == Some(e)
  {
    hide Decimal, Text, Counter, SeverityOf, CefSeverity, Signature;
    var p := LeefParts(e, prev);
    TextAt(p, 0);
    TextAt(p, 6);
    TextAt(p, 7);
    TextAt(p, 8);
    TextAt(p, 9);
  }

  lemma LeefOfCollisionResolved(e: Event, prev: string)
    requires e.CollisionResolved?
    ensures ReadLeef("CollisionResolved", LeefParts(e, prev)) == Some(e)
  {
    hide Decimal, Text, Counter, SeverityOf, CefSeverity, Signature;
    var p := LeefParts(e, prev);
    TextAt(p, 0);
    TextAt(p, 6);
    TextAt(p, 7);
    TextAt(p, 8);
    TextAt(p, 9);
  }

  lemma LeefOfSettingsChanged(e: Event, prev: string)
    requires e.SettingsChanged?
    ensures ReadLeef("SettingsChanged", LeefParts(e, prev)) == Some(e)
  {
    hide Decimal, Text, Counter, SeverityOf, CefSeverity, Signature;
    var p := LeefParts(e, prev);
    TextAt(p, 0);
    TextAt(p, 2);
    TextAt(p, 1);
    TextAt(p, 6);
    TextAt(p, 7);
    TextAt(p, 8);
  }

  lemma LeefOfLoginEvent(e: Event, prev: string)
    requires e.LoginEvent?
    ensures ReadLeef("LoginEvent", LeefParts(e, prev)) == Some(e)
  {
    hide Decimal, Text, Counter, SeverityOf, CefSeverity, Signature;
    var p := LeefParts(e, prev);
    TextAt(p, 0);
    TextAt(p, 2);
    TextAt(p, 1);
  }

  lemma LeefOfUnauthorizedAccess(e: Event, prev: string)
    requires e.UnauthorizedAccess?
    ensures ReadLeef("UnauthorizedAccess", LeefParts(e, prev)) == Some(e)
  {
    hide Decimal, Text, Counter, SeverityOf, CefSeverity, Signature;
    var p := LeefParts(e, prev);
    TextAt(p, 0);
    TextAt(p, 2);
    TextAt(p, 1);
    TextAt(p, 6);
    TextAt(p, 7);
  }

  lemma CefReadBack(e: Event, prev: string)
    ensures ReadCef(HeadingOf(e).signature, CefParts(e, prev)) == Some(e)
  {
    hide ReadCef, CefParts;
    match e
    case JobStarted(_, _, _, _, _, _, _) => CefOfJobStarted(e, prev);
    case JobCompleted(_, _, _, _, _, _, _) => CefOfJobCompleted(e, prev);
    case FileCopied(_, _, _, _, _, _) => CefOfFileCopied(e, prev);
    case FileFailed(_, _, _, _, _) => CefOfFileFailed(e, prev);
    case CollisionResolved(_, _, _, _, _) => CefOfCollisionResolved(e, prev);
    case SettingsChanged(_, _, _, _, _, _) => CefOfSettingsChanged(e, prev);
    case LoginEvent(_, _, _) => CefOfLoginEvent(e, prev);
    case UnauthorizedAccess(_, _, _, _, _) => CefOfUnauthorizedAccess(e, prev);
  }

  lemma LeefReadBack(e: Event, prev: string)
    ensures ReadLeef(HeadingOf(e).signature, LeefParts(e, prev)) == Some(e)
  {
    hide ReadLeef, LeefParts;
    match e
    case JobStarted(_, _, _, _, _, _, _) => LeefOfJobStarted(e, prev);
    case JobCompleted(_, _, _, _, _, _, _) => LeefOfJobCompleted(e, prev);
    case FileCopied(_, _, _, _, _, _) => LeefOfFileCopied(e, prev);
    case FileFailed(_, _, _, _, _) => LeefOfFileFailed(e, prev);
    case CollisionResolved(_, _, _, _, _) => LeefOfCollisionResolved(e, prev);
    case SettingsChanged(_, _, _, _, _, _) => LeefOfSettingsChanged(e, prev);
    case LoginEvent(_, _, _) => LeefOfLoginEvent(e, prev);
    case UnauthorizedAccess(_, _, _, _, _) => LeefOfUnauthorizedAccess(e, prev);
  }

  /**
   * Every record tells its event, whole: for every event, whatever text its fields hold, a reader
   * who knows the keys of each signature gets back every field, in its own place.
   */
  lemma EventReadBack(f: Format, e: Event, prev: string)
    ensures ReadEvent(f, FormatRecord(f, e, prev)) == Some(e)
  {
    hide FormatRecord, HeaderOf, Pairs, ReadCef, ReadLeef, CefParts, LeefParts, HeadingOf;
    HeaderTells(e, prev);
    if f.Cef? {
      CefPairs(e, prev);
      CefReadBack(e, prev);
    } else {
      LeefPairs(e, prev);
      LeefReadBack(e, prev);
    }
  }

  /** So no two events share a record. */
  lemma RecordsDiffer(f: Format, a: Event, b: Event, prev: string, other: string)
    requires FormatRecord(f, a, prev) == FormatRecord(f, b, other)
    ensures a == b && prev == other
  {
    hide FormatRecord, ReadEvent, Pairs;
    EventReadBack(f, a, prev);
    EventReadBack(f, b, other);
    if f.Cef? {
      CefTells(a, prev);
      CefTells(b, other);
    } else {
      LeefTells(a, prev);
      LeefTells(b, other);
    }
  }

  /** Events that carry a user and a host. */
  predicate HasUser(e: Event) {
    e.JobStarted? || e.SettingsChanged? || e.LoginEvent? || e.UnauthorizedAccess?
  }

  lemma PairAt(pairs: seq<Part>, i: nat, key: string, value: string)
    requires i < |pairs| && pairs[i] == (key, value) && forall j :: 0 <= j < i ==> pairs[j].0 != key
    ensures Lookup(pairs, key) == Some(value)
  {
    LookupAt(pairs, i);
  }

  /** What stands in a CEF record besides the event's fields: the digest, and a label for each numbered slot. */
  lemma CefTells(e: Event, prev: string)
    ensures var p := Pairs(Cef, FormatRecord(Cef, e, prev));
      && Lookup(p, "cs1Label") == Some("prev_hash") && Lookup(p, "cs1") == Some(prev)
      && (!HasUser(e) ==> Lookup(p, "dhost") == Some("") && Lookup(p, "duser") == Some(""))
  {
    hide FormatRecord, Pairs, CefDetail, Lookup;
    CefPairs(e, prev);
    var p := CefParts(e, prev);
    PairAt(p, 3, "cs1Label", "prev_hash");
    PairAt(p, 4, "cs1", prev);
    PairAt(p, 1, "dhost", Host(e));
    PairAt(p, 2, "duser", User(e));
  }

  /** The same for LEEF, where the severity and the signature are pairs too. */
  lemma LeefTells(e: Event, prev: string)
    ensures var p := Pairs(Leef, FormatRecord(Leef, e, prev));
      && Lookup(p, "prevHash") == Some(prev)
      && Lookup(p, "sev") == Some(HeadingOf(e).severity) && Lookup(p, "signature") == Some(HeadingOf(e).signature)
      && (!HasUser(e) ==> Lookup(p, "dstHost") == Some("") && Lookup(p, "usrName") == Some(""))
  {
    hide FormatRecord, Pairs, LeefDetail, Lookup, HeadingOf, Signature, SeverityOf, CefSeverity, Decimal;
    LeefPairs(e, prev);
    HeadingIs(e);
    var p := LeefParts(e, prev);
    PairAt(p, 4, "prevHash", prev);
    PairAt(p, 3, "sev", HeadingOf(e).severity);
    PairAt(p, 5, "signature", HeadingOf(e).signature);
    PairAt(p, 1, "dstHost", Host(e));
    PairAt(p, 2, "usrName", User(e));
  }

  /** The label and the value of a numbered slot. */
  predicate Slotted(p: seq<Part>, slot: string, name: string, value: string) {
    Lookup(p, slot + "Label") == Some(name) && Lookup(p, slot) == Some(value)
  }

  lemma SlottedAt(p: seq<Part>, i: nat, slot: string, tag: string, name: string, value: string)
    requires i + 1 < |p| && p[i] == (tag, name) && p[i + 1] == (slot, value) && tag == slot + "Label"
    requires forall j :: 0 <= j < i ==> p[j].0 != tag && p[j].0 != slot
    ensures Slotted(p, slot, name, value)
  {
    hide Lookup;
    PairAt(p, i, tag, name);
    assert |tag| == |slot| + 5;
    PairAt(p, i + 1, slot, value);
  }

  /** Each numbered slot of a CEF record is labelled with the name of what it holds. */
  lemma CefLabels(e: Event, prev: string)
    ensures var p := Pairs(Cef, FormatRecord(Cef, e, prev));
      match e
      case JobStarted(_, jobId, kind, _, _, _, _) =>
        Slotted(p, "cs2", "jobId", jobId) && Slotted(p, "cs3", "kind", kind)
      case JobCompleted(_, jobId, status, filesOk, filesFailed, bytes, durationMs) =>
        && Slotted(p, "cs2", "jobId", jobId) && Slotted(p, "cs3", "status", status)
        && Slotted(p, "cn1", "filesOk", Decimal(filesOk)) && Slotted(p, "cn2", "filesFailed", Decimal(filesFailed))
        && Slotted(p, "cn3", "bytes", Decimal(bytes)) && Slotted(p, "cfp1", "durationMs", Decimal(durationMs))
      case FileCopied(_, jobId, _, _, _, _) => Slotted(p, "cs2", "jobId", jobId)
      case FileFailed(_, jobId, _, _, _) => Slotted(p, "cs2", "jobId", jobId)
      case CollisionResolved(_, jobId, _, _, _) => Slotted(p, "cs2", "jobId", jobId)
      case SettingsChanged(_, _, _, field, beforeHash, afterHash) =>
        && Slotted(p, "cs2", "field", field)
        && Slotted(p, "cs3", "beforeHash", beforeHash) && Slotted(p, "cs4", "afterHash", afterHash)
      case LoginEvent(_, _, _) => Lookup(p, "act") == Some("login")
      case UnauthorizedAccess(_, _, _, _, _) => Lookup(p, "outcome") == Some("denied")
  {
    hide FormatRecord, Pairs, Lookup, Slotted, Decimal, User, Host;
    CefPairs(e, prev);
    var p := CefParts(e, prev);
    match e
    case JobStarted(_, _, _, _, _, _, _) => StartedLabels(e, prev);
    case JobCompleted(_, _, _, _, _, _, _) => CompletedLabels(e, prev);
    case SettingsChanged(_, _, _, _, _, _) => SettingsLabels(e, prev);
    case LoginEvent(_, _, _) => PairAt(p, 5, "act", "login");
    case UnauthorizedAccess(_, _, _, _, _) => PairAt(p, 7, "outcome", "denied");
    case _ => SlottedAt(p, 5, "cs2", "cs2Label", "jobId", e.jobId);
  }

  lemma StartedLabels(e: Event, prev: string)
    requires e.JobStarted?
    ensures var p := CefParts(e, prev);
      Slotted(p, "cs2", "jobId", e.jobId) && Slotted(p, "cs3", "kind", e.kind)
  {
    hide Lookup, Slotted, Decimal, User, Host;
    var p := CefParts(e, prev);
    SlottedAt(p, 5, "cs2", "cs2Label", "jobId", e.jobId);
    SlottedAt(p, 7, "cs3", "cs3Label", "kind", e.kind);
  }

  lemma SettingsLabels(e: Event, prev: string)
    requires e.SettingsChanged?
    ensures var p := CefParts(e, prev);
      && Slotted(p, "cs2", "field", e.field)
      && Slotted(p, "cs3", "beforeHash", e.beforeHash) && Slotted(p, "cs4", "afterHash", e.afterHash)
  {
    hide Lookup, Slotted, Decimal, User, Host;
    var p := CefParts(e, prev);
    SlottedAt(p, 5, "cs2", "cs2Label", "field", e.field);
    SlottedAt(p, 7, "cs3", "cs3Label", "beforeHash", e.beforeHash);
    SlottedAt(p, 9, "cs4", "cs4Label", "afterHash", e.afterHash);
  }

  lemma CompletedLabels(e: Event, prev: string)
    requires e.JobCompleted?
    ensures var p := CefParts(e, prev);
      && Slotted(p, "cs2", "jobId", e.jobId) && Slotted(p, "cs3", "status", e.status)
      && Slotted(p, "cn1", "filesOk", Decimal(e.filesOk)) && Slotted(p, "cn2", "filesFailed", Decimal(e.filesFailed))
      && Slotted(p, "cn3", "bytes", Decimal(e.bytes)) && Slotted(p, "cfp1", "durationMs", Decimal(e.durationMs))
  {
    hide Slotted, CefParts, Decimal;
    CompletedTexts(e, prev);
    CompletedNumbers(e, prev);
  }

  lemma CompletedTexts(e: Event, prev: string)
    requires e.JobCompleted?
    ensures var p := CefParts(e, prev);
      && Slotted(p, "cs2", "jobId", e.jobId) && Slotted(p, "cs3", "status", e.status)
      && Slotted(p, "cn1", "filesOk", Decimal(e.filesOk))
  {
    hide Lookup, Slotted, Decimal, User, Host;
    var p := CefParts(e, prev);
    SlottedAt(p, 5, "cs2", "cs2Label", "jobId", e.jobId);
    SlottedAt(p, 7, "cs3", "cs3Label", "status", e.status);
    SlottedAt(p, 9, "cn1", "cn1Label", "filesOk", Decimal(e.filesOk));
  }

  lemma CompletedNumbers(e: Event, prev: string)
    requires e.JobCompleted?
    ensures var p := CefParts(e, prev);
      && Slotted(p, "cn2", "filesFailed", Decimal(e.filesFailed))
      && Slotted(p, "cn3", "bytes", Decimal(e.bytes)) && Slotted(p, "cfp1", "durationMs", Decimal(e.durationMs))
  {
    hide Lookup, Slotted, Decimal, User, Host;
    var p := CefParts(e, prev);
    SlottedAt(p, 11, "cn2", "cn2Label", "filesFailed", Decimal(e.filesFailed));
    SlottedAt(p, 13, "cn3", "cn3Label", "bytes", Decimal(e.bytes));
    SlottedAt(p, 15, "cfp1", "cfp1Label", "durationMs", Decimal(e.durationMs));
  }
}
