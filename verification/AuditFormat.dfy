/** The CEF and LEEF records of the audit log, and the extractors that read them back. */
module AuditFormat {
  import opened Base
  import opened AuditText

  datatype Format = Cef | Leef

  datatype Severity = Debug | Info | Notice | Warning | Error

  /** A file or application event; `ts` is its rendered timestamp. */
  datatype Event =
    | JobStarted(ts: string, jobId: string, kind: string, src: string, dst: string, user: string, host: string)
    | JobCompleted(ts: string, jobId: string, status: string, filesOk: u64, filesFailed: u64, bytes: u64,
                   durationMs: u64)
    | FileCopied(ts: string, jobId: string, src: string, dst: string, hash: string, size: u64)
    | FileFailed(ts: string, jobId: string, src: string, errorCode: string, errorMsg: string)
    | CollisionResolved(ts: string, jobId: string, src: string, dst: string, action: string)
    | SettingsChanged(ts: string, user: string, host: string, field: string, beforeHash: string, afterHash: string)
    | LoginEvent(ts: string, user: string, host: string)
    | UnauthorizedAccess(ts: string, user: string, host: string, attemptedAction: string, reason: string)

  function Signature(e: Event): string {
    match e
    case JobStarted(_, _, _, _, _, _, _) => "JobStarted"
    case JobCompleted(_, _, _, _, _, _, _) => "JobCompleted"
    case FileCopied(_, _, _, _, _, _) => "FileCopied"
    case FileFailed(_, _, _, _, _) => "FileFailed"
    case CollisionResolved(_, _, _, _, _) => "CollisionResolved"
    case SettingsChanged(_, _, _, _, _, _) => "SettingsChanged"
    case LoginEvent(_, _, _) => "LoginEvent"
    case UnauthorizedAccess(_, _, _, _, _) => "UnauthorizedAccess"
  }

  function Title(e: Event): string {
    match e
    case JobStarted(_, _, _, _, _, _, _) => "Copy job started"
    case JobCompleted(_, _, _, _, _, _, _) => "Copy job completed"
    case FileCopied(_, _, _, _, _, _) => "File copied"
    case FileFailed(_, _, _, _, _) => "File copy failed"
    case CollisionResolved(_, _, _, _, _) => "Collision resolved"
    case SettingsChanged(_, _, _, _, _, _) => "Settings changed"
    case LoginEvent(_, _, _) => "Application login"
    case UnauthorizedAccess(_, _, _, _, _) => "Unauthorized access"
  }

  function SeverityOf(e: Event): Severity {
    match e
    case JobStarted(_, _, _, _, _, _, _) => Info
    case JobCompleted(_, _, _, _, _, _, _) => Info
    case FileCopied(_, _, _, _, _, _) => Debug
    case FileFailed(_, _, _, _, _) => Warning
    case CollisionResolved(_, _, _, _, _) => Info
    case SettingsChanged(_, _, _, _, _, _) => Notice
    case LoginEvent(_, _, _) => Info
    case UnauthorizedAccess(_, _, _, _, _) => Error
  }

  function CefSeverity(s: Severity): nat {
    match s
    case Debug => 0
    case Info => 3
    case Notice => 5
    case Warning => 7
    case Error => 9
  }

  function User(e: Event): string {
    if e.JobStarted? || e.SettingsChanged? || e.LoginEvent? || e.UnauthorizedAccess? then e.user else ""
  }

  function Host(e: Event): string {
    if e.JobStarted? || e.SettingsChanged? || e.LoginEvent? || e.UnauthorizedAccess? then e.host else ""
  }

  function Decimal(n: nat): string {
    if n < 10 then ["0123456789"[n]] else Decimal(n / 10) + ["0123456789"[n % 10]]
  }

  // ----- printing -----------------------------------------------------------------

  type Part = (string, string)

  const VERSION := "0.19.85"

  function Pair(p: Part): string {
    p.0 + "=" + Escape(p.1)
  }

  /** The escaped pairs, joined by `sep`. */
  function Join(parts: seq<Part>, sep: char): string {
    if parts == [] then []
    else if |parts| == 1 then Pair(parts[0])
    else Pair(parts[0]) + [sep] + Join(parts[1..], sep)
  }

  function CefDetail(e: Event): seq<Part> {
    match e
    case JobStarted(_, jobId, kind, src, dst, _, _) =>
      [("cs2Label", "jobId"), ("cs2", jobId), ("cs3Label", "kind"), ("cs3", kind), ("fname", src), ("filePath", dst)]
    case JobCompleted(_, jobId, status, filesOk, filesFailed, bytes, durationMs) =>
      [("cs2Label", "jobId"), ("cs2", jobId), ("cs3Label", "status"), ("cs3", status),
       ("cn1Label", "filesOk"), ("cn1", Decimal(filesOk)), ("cn2Label", "filesFailed"), ("cn2", Decimal(filesFailed)),
       ("cn3Label", "bytes"), ("cn3", Decimal(bytes)), ("cfp1Label", "durationMs"), ("cfp1", Decimal(durationMs))]
    case FileCopied(_, jobId, src, dst, hash, size) =>
      [("cs2Label", "jobId"), ("cs2", jobId), ("fname", src), ("filePath", dst), ("fsize", Decimal(size)),
       ("fileHash", hash)]
    case FileFailed(_, jobId, src, errorCode, errorMsg) =>
      [("cs2Label", "jobId"), ("cs2", jobId), ("fname", src), ("reason", errorMsg), ("outcome", errorCode)]
    case CollisionResolved(_, jobId, src, dst, action) =>
      [("cs2Label", "jobId"), ("cs2", jobId), ("fname", src), ("filePath", dst), ("act", action)]
    case SettingsChanged(_, _, _, field, beforeHash, afterHash) =>
      [("cs2Label", "field"), ("cs2", field), ("cs3Label", "beforeHash"), ("cs3", beforeHash),
       ("cs4Label", "afterHash"), ("cs4", afterHash)]
    case LoginEvent(_, _, _) => [("act", "login")]
    case UnauthorizedAccess(_, _, _, attemptedAction, reason) =>
      [("act", attemptedAction), ("reason", reason), ("outcome", "denied")]
  }

  function CefBefore(e: Event): seq<Part> {
    [("rt", e.ts), ("dhost", Host(e)), ("duser", User(e)), ("cs1Label", "prev_hash")]
  }

  function CefParts(e: Event, prev: string): seq<Part> {
    CefBefore(e) + [("cs1", prev)] + CefDetail(e)
  }

  function LeefDetail(e: Event): seq<Part> {
    match e
    case JobStarted(_, jobId, kind, src, dst, _, _) => [("jobId", jobId), ("cat", kind), ("src", src), ("dst", dst)]
    case JobCompleted(_, jobId, status, filesOk, filesFailed, bytes, durationMs) =>
      [("jobId", jobId), ("status", status), ("filesOk", Decimal(filesOk)), ("filesFailed", Decimal(filesFailed)),
       ("bytes", Decimal(bytes)), ("durationMs", Decimal(durationMs))]
    case FileCopied(_, jobId, src, dst, hash, size) =>
      [("jobId", jobId), ("src", src), ("dst", dst), ("size", Decimal(size)), ("hash", hash)]
    case FileFailed(_, jobId, src, errorCode, errorMsg) =>
      [("jobId", jobId), ("src", src), ("errorCode", errorCode), ("errorMsg", errorMsg)]
    case CollisionResolved(_, jobId, src, dst, action) =>
      [("jobId", jobId), ("src", src), ("dst", dst), ("action", action)]
    case SettingsChanged(_, _, _, field, beforeHash, afterHash) =>
      [("field", field), ("beforeHash", beforeHash), ("afterHash", afterHash)]
    case LoginEvent(_, _, _) => []
    case UnauthorizedAccess(_, _, _, attemptedAction, reason) =>
      [("attemptedAction", attemptedAction), ("reason", reason)]
  }

  function LeefBefore(e: Event): seq<Part> {
    [("devTime", e.ts), ("dstHost", Host(e)), ("usrName", User(e)), ("sev", Decimal(CefSeverity(SeverityOf(e))))]
  }

  function LeefAfter(e: Event): seq<Part> {
    [("signature", Signature(e))] + LeefDetail(e)
  }

  function LeefParts(e: Event, prev: string): seq<Part> {
    LeefBefore(e) + [("prevHash", prev)] + LeefAfter(e)
  }

  /** Header fields, each closed by a pipe. */
  function Fields(fields: seq<string>): string {
    if fields == [] then [] else fields[0] + "|" + Fields(fields[1..])
  }

  function CefHeader(e: Event): string {
    Fields(["CEF:0", "Freally", "Freally", VERSION, EscapeHeader(Signature(e)), EscapeHeader(Title(e)),
            Decimal(CefSeverity(SeverityOf(e)))])
  }

  function LeefHeader(e: Event): string {
    Fields(["LEEF:2.0", "Freally", "Freally", VERSION, EscapeHeader(Signature(e))])
  }

  /** The record of an event, embedding the previous record's chain hash. */
  function FormatRecord(f: Format, e: Event, prev: string): string {
    match f
    case Cef => CefHeader(e) + Join(CefParts(e, prev), ' ') + "\n"
    case Leef => LeefHeader(e) + Join(LeefParts(e, prev), '\t') + "\n"
  }

  // ----- reading back ---------------------------------------------------------------

  /** What follows the n-th unescaped pipe. */
  function AfterPipe(line: string, n: nat): Option<string>
    decreases |line|
  {
    if n == 0 then Some(line)
    else if line == [] then None
    else if line[0] == '\\' && |line| > 1 then AfterPipe(line[2..], n)
    else AfterPipe(line[1..], if line[0] == '|' then n - 1 else n)
  }

  lemma {:induction false} AfterPipeSuffix(line: string, n: nat)
    ensures var r := AfterPipe(line, n); r.Some? ==> |r.value| <= |line| && line[|line| - |r.value|..] == r.value
    decreases |line|
  {
    if n != 0 && line != [] {
      if line[0] == '\\' && |line| > 1 {
        AfterPipeSuffix(line[2..], n);
      } else {
        AfterPipeSuffix(line[1..], if line[0] == '|' then n - 1 else n);
      }
    }
  }

  /** The position of the n-th unescaped pipe, if there is one. */
  method NthCefPipe(line: string, n: nat) returns (r: Option<nat>)
    requires n > 0
    ensures r.None? <==> AfterPipe(line, n).None?
    ensures r.Some? ==> r.value < |line| && line[r.value] == '|' && AfterPipe(line, n) == Some(line[r.value + 1..])
  {
    var count := 0;
    var i := 0;
    assert line[0..] == line;
    while i < |line|
      invariant 0 <= i <= |line| && count < n
      invariant AfterPipe(line, n) == AfterPipe(line[i..], n - count)
    {
      assert line[i..][1..] == line[i + 1..];
      if line[i] == '\\' && i + 1 < |line| {
        assert line[i..][2..] == line[i + 2..];
        i := i + 2;
        continue;
      }
      if line[i] == '|' {
        count := count + 1;
        if count == n {
          return Some(i);
        }
      }
      i := i + 1;
    }
    return None;
  }

  function Sized(hex: string): Option<string> {
    if |Utf8(hex)| == HEX_LEN then Some(hex) else None
  }

  /** The value of the first `cs1=` in a CEF extension, up to a blank. */
  function CefValue(ext: string): Option<string> {
    match Find(ext, "cs1=")
    case None => None
    case Some(i) =>
      var rest := ext[i + 4..];
      Sized(TrimEnd(rest[..IndexOf(rest, ' ')]))
  }

  function LeefKey(): (k: string)
    ensures |k| == 9
  {
    "prevHash="
  }

  /** A piece that starts `prevHash=` and has a value of hash length, line ends aside. */
  predicate Hit(part: string) {
    LeefKey() <= part && Sized(TrimEnd(part[9..])).Some?
  }

  /** The value of the first tab-separated piece that holds one. */
  function LeefValue(ext: string): Option<string>
    decreases |ext|
  {
    var i := IndexOf(ext, '\t');
    if Hit(ext[..i]) then Some(TrimEnd(ext[9..i]))
    else if i == |ext| then None
    else LeefValue(ext[i + 1..])
  }

  function ExtractPrevHash(f: Format, line: string): Option<string> {
    var body := TrimEnd(line);
    match AfterPipe(body, if f.Cef? then 7 else 5)
    case None => None
    case Some(ext) => if f.Cef? then CefValue(ext) else LeefValue(ext)
  }

  // ----- a printed record has one line ------------------------------------------------

  lemma {:induction false} DecimalDigits(n: nat)
    ensures Decimal(n) != [] && forall i :: 0 <= i < |Decimal(n)| ==> '0' <= Decimal(n)[i] <= '9'
  {
    if n >= 10 {
      DecimalDigits(n / 10);
    }
  }

  predicate PlainKeys(parts: seq<Part>) {
    forall i :: 0 <= i < |parts| ==> Flat(parts[i].0)
  }

  lemma FlatJoin(a: string, b: string)
    requires Flat(a) && Flat(b)
    ensures Flat(a + b)
  {
  }

  lemma PairFlat(p: Part)
    requires Flat(p.0)
    ensures Flat(Pair(p))
  {
    EscapeGuards(p.1, 'x');
    FlatJoin(p.0, "=");
    FlatJoin(p.0 + "=", Escape(p.1));
  }

  lemma {:induction false} JoinFlat(parts: seq<Part>, sep: char)
    requires PlainKeys(parts) && sep != '\n' && sep != '\r'
    ensures Flat(Join(parts, sep))
  {
    hide Pair;
    if parts != [] {
      PairFlat(parts[0]);
      if |parts| > 1 {
        JoinFlat(parts[1..], sep);
        FlatJoin(Pair(parts[0]), [sep]);
        FlatJoin(Pair(parts[0]) + [sep], Join(parts[1..], sep));
      }
    }
  }

  lemma KeysArePlain(e: Event, prev: string)
    ensures PlainKeys(CefParts(e, prev)) && PlainKeys(LeefParts(e, prev))
  {
    hide Decimal, Signature, Title, Host, User, SeverityOf;
    CefKeysPlain(e, prev);
    LeefKeysPlain(e, prev);
  }

  lemma CefKeys1()
    ensures Flat("rt") && Flat("dhost") && Flat("duser") && Flat("cs1Label")
    ensures Flat("cs1") && Flat("cs2Label") && Flat("cs2") && Flat("cs3Label")
    ensures Flat("cs3") && Flat("cs4Label")
  {
  }

  lemma CefKeys2()
    ensures Flat("cs4") && Flat("cn1Label") && Flat("cn1") && Flat("cn2Label")
    ensures Flat("cn2") && Flat("cn3Label") && Flat("cn3") && Flat("cfp1Label")
    ensures Flat("cfp1") && Flat("fname")
  {
  }

  lemma CefKeys3()
    ensures Flat("filePath") && Flat("fsize") && Flat("fileHash") && Flat("reason")
    ensures Flat("outcome") && Flat("act")
  {
  }

  lemma LeefKeys1()
    ensures Flat("devTime") && Flat("dstHost") && Flat("usrName") && Flat("sev")
    ensures Flat("prevHash") && Flat("signature") && Flat("jobId") && Flat("cat")
    ensures Flat("src")
  {
  }

  lemma LeefKeys2()
    ensures Flat("dst") && Flat("status") && Flat("filesOk") && Flat("filesFailed")
    ensures Flat("bytes") && Flat("durationMs") && Flat("size") && Flat("hash")
    ensures Flat("errorCode")
  {
  }

  lemma LeefKeys3()
    ensures Flat("errorMsg") && Flat("action") && Flat("field") && Flat("beforeHash")
    ensures Flat("afterHash") && Flat("attemptedAction") && Flat("reason")
  {
  }

  lemma CefKeysPlain(e: Event, prev: string)
    ensures PlainKeys(CefParts(e, prev))
  {
    hide Flat, Decimal, Host, User;
    CefKeys1();
    CefKeys2();
    CefKeys3();
    assert PlainKeys(CefBefore(e) + [("cs1", prev)]);
    assert PlainKeys(CefDetail(e));
  }

  lemma LeefKeysPlain(e: Event, prev: string)
    ensures PlainKeys(LeefParts(e, prev))
  {
    hide Flat, Decimal, Signature, Host, User, SeverityOf;
    LeefKeys1();
    LeefKeys2();
    LeefKeys3();
    assert PlainKeys(LeefBefore(e) + [("prevHash", prev)]);
    assert PlainKeys(LeefAfter(e));
  }

  lemma Signatures1()
    ensures Flat("JobStarted") && Flat("JobCompleted") && Flat("FileCopied") && Flat("FileFailed")
  {
  }

  lemma Signatures2()
    ensures Flat("CollisionResolved") && Flat("SettingsChanged")
  {
  }

  lemma Signatures3()
    ensures Flat("LoginEvent") && Flat("UnauthorizedAccess")
  {
  }

  lemma Titles1()
    ensures Flat("Copy job started") && Flat("Copy job completed")
  {
  }

  lemma Titles2()
    ensures Flat("File copied") && Flat("File copy failed")
  {
  }

  lemma Titles3()
    ensures Flat("Collision resolved") && Flat("Settings changed")
  {
  }

  lemma Titles4()
    ensures Flat("Application login") && Flat("Unauthorized access")
  {
  }

  lemma SignatureFlat(e: Event)
    ensures Flat(Signature(e))
  {
    hide Flat;
    Signatures1();
    Signatures2();
    Signatures3();
  }

  lemma TitleFlat(e: Event)
    ensures Flat(Title(e))
  {
    hide Flat;
    Titles1();
    Titles2();
    Titles3();
    Titles4();
  }

  lemma {:induction false} EscapeHeaderFlat(raw: string)
    requires Flat(raw)
    ensures Flat(EscapeHeader(raw))
  {
    if raw != [] {
      EscapeHeaderFlat(raw[1..]);
      FlatJoin(EscapeHeaderChar(raw[0]), EscapeHeader(raw[1..]));
    }
  }

  lemma {:induction false} HeaderUnescaped(s: string)
    requires '\\' !in s && '|' !in s
    ensures EscapeHeader(s) == s
  {
    if s != [] {
      HeaderUnescaped(s[1..]);
      assert s == [s[0]] + s[1..];
    }
  }

  /** Text a pipe scan passes over without counting, and that holds no line end. */
  ghost predicate HeaderField(s: string) {
    && Flat(s)
    && forall rest: string, n: nat :: n > 0 ==> AfterPipe(s + rest, n) == AfterPipe(rest, n)
  }

  lemma EscapedIsField(raw: string)
    requires Flat(raw)
    ensures HeaderField(EscapeHeader(raw))
  {
    EscapeHeaderFlat(raw);
    forall rest: string, n: nat | n > 0 ensures AfterPipe(EscapeHeader(raw) + rest, n) == AfterPipe(rest, n) {
      PastEscaped(raw, rest, n);
    }
  }

  lemma PlainIsField(s: string)
    requires Flat(s) && '\\' !in s && '|' !in s
    ensures HeaderField(s)
  {
    HeaderUnescaped(s);
    EscapedIsField(s);
  }

  /** A header is passed by counting one pipe for each of its fields. */
  lemma {:induction false} FieldsPassed(fields: seq<string>, ext: string)
    requires forall i :: 0 <= i < |fields| ==> HeaderField(fields[i])
    ensures Flat(Fields(fields)) && AfterPipe(Fields(fields) + ext, |fields|) == Some(ext)
  {
    hide HeaderField, AfterPipe;
    if fields == [] {
      assert [] + ext == ext;
      PipesPassed(ext);
    } else {
      var rest := Fields(fields[1..]) + ext;
      FieldsPassed(fields[1..], ext);
      assert Fields(fields) + ext == fields[0] + ("|" + rest);
      FieldThenPipe(fields[0], rest, |fields|);
    }
  }

  lemma FieldThenPipe(field: string, rest: string, n: nat)
    requires HeaderField(field) && n > 0
    ensures AfterPipe(field + ("|" + rest), n) == AfterPipe(rest, n - 1) && Flat(field)
  {
    assert ("|" + rest)[1..] == rest;
  }

  lemma PipesPassed(ext: string)
    ensures AfterPipe(ext, 0) == Some(ext)
  {
  }

  lemma LiteralFields()
    ensures HeaderField("CEF:0") && HeaderField("LEEF:2.0") && HeaderField("Freally") && HeaderField(VERSION)
  {
    hide HeaderField;
    PlainIsField("CEF:0");
    PlainIsField("LEEF:2.0");
    PlainIsField("Freally");
    PlainIsField(VERSION);
  }

  lemma EventFields(e: Event)
    ensures HeaderField(EscapeHeader(Signature(e))) && HeaderField(EscapeHeader(Title(e)))
    ensures HeaderField(Decimal(CefSeverity(SeverityOf(e))))
  {
    hide HeaderField, EscapeHeader, Signature, Title, Decimal, SeverityOf, CefSeverity;
    SignatureFlat(e);
    TitleFlat(e);
    EscapedIsField(Signature(e));
    EscapedIsField(Title(e));
    DecimalDigits(CefSeverity(SeverityOf(e)));
    PlainIsField(Decimal(CefSeverity(SeverityOf(e))));
  }

  lemma CefHeaderPassed(e: Event, ext: string)
    ensures Flat(CefHeader(e)) && AfterPipe(CefHeader(e) + ext, 7) == Some(ext)
  {
    hide HeaderField, EscapeHeader, Signature, Title, Decimal, SeverityOf, CefSeverity, Fields, AfterPipe;
    LiteralFields();
    EventFields(e);
    FieldsPassed(["CEF:0", "Freally", "Freally", VERSION, EscapeHeader(Signature(e)), EscapeHeader(Title(e)),
                  Decimal(CefSeverity(SeverityOf(e)))], ext);
  }

  lemma LeefHeaderPassed(e: Event, ext: string)
    ensures Flat(LeefHeader(e)) && AfterPipe(LeefHeader(e) + ext, 5) == Some(ext)
  {
    hide HeaderField, EscapeHeader, Signature, Title, Decimal, SeverityOf, CefSeverity, Fields, AfterPipe;
    LiteralFields();
    EventFields(e);
    FieldsPassed(["LEEF:2.0", "Freally", "Freally", VERSION, EscapeHeader(Signature(e))], ext);
  }

  /** Whatever text an event carries, its record ends in its only newline and is not blank. */
  lemma RecordIsOneLine(f: Format, e: Event, prev: string)
    ensures var line := FormatRecord(f, e, prev);
      && OneLine(line) && Flat(line[..|line| - 1]) && !Blank(line)
  {
    hide CefHeader, LeefHeader, CefParts, LeefParts, Join;
    KeysArePlain(e, prev);
    CefHeaderPassed(e, []);
    LeefHeaderPassed(e, []);
    JoinFlat(CefParts(e, prev), ' ');
    JoinFlat(LeefParts(e, prev), '\t');
    FlatJoin(CefHeader(e), Join(CefParts(e, prev), ' '));
    FlatJoin(LeefHeader(e), Join(LeefParts(e, prev), '\t'));
    HeaderStarts(e);
    assert !IsWhite('C') && !IsWhite('L');
    var line := FormatRecord(f, e, prev);
    assert line[0] == 'C' || line[0] == 'L';
  }

  lemma HeaderStarts(e: Event)
    ensures |CefHeader(e)| > 0 && CefHeader(e)[0] == 'C' && |LeefHeader(e)| > 0 && LeefHeader(e)[0] == 'L'
  {
    hide Signature, Title, EscapeHeader, Decimal, SeverityOf, CefSeverity;
  }

  // ----- the header pipes -------------------------------------------------------------

  /** Escaped text hides its pipes from the scan. */
  lemma {:induction false} PastEscaped(raw: string, rest: string, n: nat)
    requires n > 0
    ensures AfterPipe(EscapeHeader(raw) + rest, n) == AfterPipe(rest, n)
  {
    if raw == [] {
      assert [] + rest == rest;
    } else {
      var tail := EscapeHeader(raw[1..]) + rest;
      assert EscapeHeader(raw) + rest == EscapeHeaderChar(raw[0]) + tail;
      PastEscaped(raw[1..], rest, n);
      if raw[0] == '\\' || raw[0] == '|' {
        assert (['\\', raw[0]] + tail)[2..] == tail;
      } else {
        assert ([raw[0]] + tail)[1..] == tail;
      }
    }
  }

  // ----- the hash slot ----------------------------------------------------------------

  lemma {:induction false} JoinAppend(a: seq<Part>, b: seq<Part>, sep: char)
    requires a != [] && b != []
    ensures Join(a + b, sep) == Join(a, sep) + [sep] + Join(b, sep)
  {
    hide Pair;
    if |a| == 1 {
      assert a + b == [a[0]] + b && (a + b)[1..] == b;
    } else {
      assert (a + b)[1..] == a[1..] + b;
      JoinAppend(a[1..], b, sep);
      assert Pair(a[0]) + [sep] + (Join(a[1..], sep) + [sep] + Join(b, sep))
        == Pair(a[0]) + [sep] + Join(a[1..], sep) + [sep] + Join(b, sep);
    }
  }

  /** Keys that hold no equals sign and do not end in `c`. */
  predicate GuardingKeys(parts: seq<Part>, c: char) {
    forall i :: 0 <= i < |parts| ==> GuardingKey(parts[i].0, c)
  }

  predicate GuardingKey(key: string, c: char) {
    && key != [] && key[|key| - 1] != c
    && forall i :: 0 <= i < |key| ==> key[i] != '='
  }

  lemma PairGuarded(p: Part, c: char)
    requires GuardingKey(p.0, c) && c != '\\' && c != '='
    ensures Guarded(Pair(p), c) && Pair(p) != [] && Pair(p)[0] != '='
  {
    EscapeGuards(p.1, c);
    GuardedJoin(p.0, "=", c);
    GuardedJoin(p.0 + "=", Escape(p.1), c);
  }

  /** No equals sign of the joined pairs follows `c`, whatever the values hold. */
  lemma {:induction false} JoinGuarded(parts: seq<Part>, sep: char, c: char)
    requires parts != [] && GuardingKeys(parts, c) && c != '\\' && c != '=' && sep != '='
    ensures Guarded(Join(parts, sep), c) && Join(parts, sep) != [] && Join(parts, sep)[0] != '='
  {
    hide Pair;
    assert GuardingKey(parts[0].0, c);
    PairGuarded(parts[0], c);
    if |parts| > 1 {
      assert GuardingKeys(parts[1..], c);
      JoinGuarded(parts[1..], sep, c);
      GuardedJoin(Pair(parts[0]), [sep], c);
      GuardedJoin(Pair(parts[0]) + [sep], Join(parts[1..], sep), c);
    }
  }

  lemma NeedleEquals(s: string, j: int)
    ensures At(s, "cs1=", j) ==> s[j + 3] == '=' && s[j + 2] == '1'
  {
    if At(s, "cs1=", j) {
      assert s[j..j + 4][3] == s[j + 3] && s[j..j + 4][2] == s[j + 2];
    }
  }

  lemma PrefixEquals(s: string)
    ensures LeefKey() <= s ==> s[8] == '=' && s[7] == 'h'
  {
    if LeefKey() <= s {
      assert s[8] == LeefKey()[8] && s[7] == LeefKey()[7];
    }
  }

  /** The first `cs1=` after guarded text is the one that follows it. */
  lemma SlotFound(before: string, rest: string)
    requires Guarded(before, '1')
    ensures Find(before + "cs1=" + rest, "cs1=") == Some(|before|)
  {
    hide Find;
    var s := before + "cs1=" + rest;
    assert s[|before|..|before| + 4] == "cs1=";
    assert At(s, "cs1=", |before|);
    forall j | 0 <= j < |before| ensures !At(s, "cs1=", j) {
      NeedleEquals(s, j);
    }
    FindIs(s, "cs1=", |before|);
  }

  lemma FindIs(s: string, p: string, i: nat)
    requires At(s, p, i) && forall k :: 0 <= k < i ==> !At(s, p, k)
    ensures Find(s, p) == Some(i)
  {
    hide At;
  }

  ghost predicate ChainHex(prev: string) {
    |prev| == HEX_LEN && AllHex(prev)
  }

  lemma HexSized(prev: string)
    requires ChainHex(prev)
    ensures TrimEnd(prev) == prev && Sized(prev) == Some(prev)
  {
    assert forall i :: 0 <= i < |prev| ==> IsHex(prev[i]);
    assert TrimEnd(prev) == prev;
    AsciiLength(prev);
  }

  lemma CefSlot(before: string, prev: string, rest: string)
    requires Guarded(before, '1') && ChainHex(prev)
    ensures CefValue(before + "cs1=" + (prev + " " + rest)) == Some(prev)
  {
    hide Sized;
    var tail := prev + " " + rest;
    SlotFound(before, tail);
    var ext := before + "cs1=" + tail;
    assert ext[|before| + 4..] == tail;
    assert forall i :: 0 <= i < |prev| ==> IsHex(prev[i]);
    FirstUnique(tail, ' ', |prev|);
    assert tail[..|prev|] == prev;
    HexSized(prev);
  }

  /** Guarded pieces are passed over. */
  lemma {:induction false} PiecesSkipped(before: string, rest: string)
    requires Guarded(before, 'h') && (before == [] || before[|before| - 1] == '\t')
    ensures LeefValue(before + rest) == LeefValue(rest)
    decreases |before|
  {
    hide Sized;
    if before == [] {
      assert before + rest == rest;
    } else {
      var i := IndexOf(before, '\t');
      IndexOfIs(before, '\t');
      FirstUnique(before + rest, '\t', i);
      var part := (before + rest)[..i];
      PrefixEquals(part);
      assert (before + rest)[i + 1..] == before[i + 1..] + rest;
      PiecesSkipped(before[i + 1..], rest);
    }
  }

  lemma LeefPart(prev: string, rest: string)
    requires ChainHex(prev)
    ensures LeefValue("prevHash=" + prev + "\t" + rest) == Some(prev)
  {
    hide Sized, IsHex, TrimEnd;
    var tail := "prevHash=" + prev + "\t" + rest;
    NoTabInside(prev, rest);
    var part := tail[..9 + |prev|];
    assert part == "prevHash=" + prev && part[9..] == prev && tail[9..9 + |prev|] == prev;
    assert LeefKey() <= part;
    HexSized(prev);
  }

  lemma NoTabInside(prev: string, rest: string)
    requires ChainHex(prev)
    ensures IndexOf("prevHash=" + prev + "\t" + rest, '\t') == 9 + |prev|
  {
    var tail := "prevHash=" + prev + "\t" + rest;
    var key := "prevHash=";
    assert '\t' !in key;
    forall k | 0 <= k < 9 + |prev| ensures tail[k] != '\t' {
      if k < 9 {
        assert tail[k] == key[k] && key[k] in key;
      } else {
        assert tail[k] == prev[k - 9] && IsHex(prev[k - 9]);
      }
    }
    FirstUnique(tail, '\t', 9 + |prev|);
  }

  lemma LeefSlot(before: string, prev: string, rest: string)
    requires Guarded(before, 'h') && (before == [] || before[|before| - 1] == '\t') && ChainHex(prev)
    ensures LeefValue(before + ("prevHash=" + prev + "\t" + rest)) == Some(prev)
  {
    hide LeefValue;
    PiecesSkipped(before, "prevHash=" + prev + "\t" + rest);
    LeefPart(prev, rest);
  }

  lemma TrimLine(body: string)
    requires Flat(body)
    ensures TrimEnd(body + "\n") == body
  {
    assert (body + "\n")[..|body|] == body;
  }

  lemma CefJoined(e: Event, prev: string)
    requires ChainHex(prev)
    ensures Join(CefParts(e, prev), ' ')
      == Join(CefBefore(e), ' ') + " " + "cs1=" + (prev + " " + Join(CefDetail(e), ' '))
    ensures Guarded(Join(CefBefore(e), ' ') + " ", '1')
  {
    hide Join, Escape, Decimal, Host, User;
    JoinAppend(CefBefore(e) + [("cs1", prev)], CefDetail(e), ' ');
    JoinAppend(CefBefore(e), [("cs1", prev)], ' ');
    JoinOne(("cs1", prev), ' ');
    EscapeHex(prev);
    CefKeysGuard(e);
    JoinGuarded(CefBefore(e), ' ', '1');
    GuardedJoin(Join(CefBefore(e), ' '), " ", '1');
  }

  lemma JoinOne(p: Part, sep: char)
    ensures Join([p], sep) == p.0 + "=" + Escape(p.1)
  {
  }

  lemma CefKeysGuard(e: Event)
    ensures GuardingKeys(CefBefore(e), '1')
  {
    hide Host, User;
  }

  lemma LeefKeysGuard(e: Event)
    ensures GuardingKeys(LeefBefore(e), 'h')
  {
    hide Host, User, Decimal, SeverityOf, CefSeverity;
  }

  lemma LeefJoined(e: Event, prev: string)
    requires ChainHex(prev)
    ensures Join(LeefParts(e, prev), '\t')
      == Join(LeefBefore(e), '\t') + "\t" + ("prevHash=" + prev + "\t" + Join(LeefAfter(e), '\t'))
    ensures Guarded(Join(LeefBefore(e), '\t') + "\t", 'h')
  {
    hide Join, Escape, Decimal, Host, User, Signature, LeefDetail, SeverityOf, CefSeverity;
    JoinAppend(LeefBefore(e) + [("prevHash", prev)], LeefAfter(e), '\t');
    JoinAppend(LeefBefore(e), [("prevHash", prev)], '\t');
    JoinOne(("prevHash", prev), '\t');
    EscapeHex(prev);
    LeefKeysGuard(e);
    JoinGuarded(LeefBefore(e), '\t', 'h');
    GuardedJoin(Join(LeefBefore(e), '\t'), "\t", 'h');
  }

  /**
   * For every event and arbitrary text in its fields, the hash extracted from the printed
   * record is the one that was embedded.
   */
  lemma ExtractUndoesFormat(f: Format, e: Event, prev: string)
    requires ChainHex(prev)
    ensures ExtractPrevHash(f, FormatRecord(f, e, prev)) == Some(prev)
  {
    hide CefHeader, LeefHeader, CefBefore, LeefBefore, CefDetail, LeefAfter, CefParts, LeefParts, Join;
    hide AfterPipe, CefValue, LeefValue, TrimEnd;
    RecordIsOneLine(f, e, prev);
    var line := FormatRecord(f, e, prev);
    match f {
      case Cef =>
        var ext := Join(CefParts(e, prev), ' ');
        assert line == (CefHeader(e) + ext) + "\n" && line[..|line| - 1] == CefHeader(e) + ext;
        TrimLine(CefHeader(e) + ext);
        CefHeaderPassed(e, ext);
        CefJoined(e, prev);
        CefSlot(Join(CefBefore(e), ' ') + " ", prev, Join(CefDetail(e), ' '));
      case Leef =>
        var ext := Join(LeefParts(e, prev), '\t');
        assert line == (LeefHeader(e) + ext) + "\n" && line[..|line| - 1] == LeefHeader(e) + ext;
        TrimLine(LeefHeader(e) + ext);
        LeefHeaderPassed(e, ext);
        LeefJoined(e, prev);
        LeefSlot(Join(LeefBefore(e), '\t') + "\t", prev, Join(LeefAfter(e), '\t'));
    }
  }
}
