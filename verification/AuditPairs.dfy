/** Splitting a printed header or extension into what it was printed from. */
module AuditPairs {
  import opened AuditText
  import opened AuditFormat

  // ----- undoing the escapes --------------------------------------------------------------

  /** A backslash and `n` or `r` are a line end; before anything else a backslash is dropped. */
  function Unescape(s: string): string
    decreases |s|
  {
    if s == [] then []
    else if s[0] == '\\' && |s| > 1 then
      [if s[1] == 'n' then '\n' else if s[1] == 'r' then '\r' else s[1]] + Unescape(s[2..])
    else [s[0]] + Unescape(s[1..])
  }

  function UnescapeHeader(s: string): string
    decreases |s|
  {
    if s == [] then []
    else if s[0] == '\\' && |s| > 1 then [s[1]] + UnescapeHeader(s[2..])
    else [s[0]] + UnescapeHeader(s[1..])
  }

  lemma {:induction false} UnescapeEscape(raw: string)
    ensures Unescape(Escape(raw)) == raw
  {
    if raw != [] {
      UnescapeEscape(raw[1..]);
      var c, rest := raw[0], Escape(raw[1..]);
      assert (EscapeChar(c) + rest)[|EscapeChar(c)|..] == rest;
      assert raw == [c] + raw[1..];
    }
  }

  lemma {:induction false} UnescapeEscapeHeader(raw: string)
    ensures UnescapeHeader(EscapeHeader(raw)) == raw
  {
    if raw != [] {
      UnescapeEscapeHeader(raw[1..]);
      var c, rest := raw[0], EscapeHeader(raw[1..]);
      assert (EscapeHeaderChar(c) + rest)[|EscapeHeaderChar(c)|..] == rest;
      assert raw == [c] + raw[1..];
    }
  }

  // ----- splitting ----------------------------------------------------------------------------

  /** The position of the first `c` that no backslash escapes, or the length if there is none. */
  function Bare(s: string, c: char): (i: nat)
    ensures i <= |s|
    decreases |s|
  {
    if s == [] || s[0] == c then 0
    else if s[0] == '\\' && |s| > 1 then 2 + Bare(s[2..], c)
    else 1 + Bare(s[1..], c)
  }

  /** The position of the last `c`, or the length if there is none. */
  function LastOf(s: string, c: char): (i: nat)
    ensures i <= |s|
    decreases |s|
  {
    if s == [] then 0
    else if s[|s| - 1] == c then |s| - 1
    else
      var i := LastOf(s[..|s| - 1], c);
      if i == |s| - 1 then |s| else i
  }

  lemma PastChar(c: char, rest: string)
    ensures Bare(EscapeChar(c) + rest, '=') == |EscapeChar(c)| + Bare(rest, '=')
    ensures Bare(EscapeHeaderChar(c) + rest, '|') == |EscapeHeaderChar(c)| + Bare(rest, '|')
  {
    var e, h := EscapeChar(c), EscapeHeaderChar(c);
    assert (e + rest)[|e|..] == rest && (h + rest)[|h|..] == rest;
  }

  lemma {:induction false} PastValue(raw: string, rest: string)
    ensures Bare(Escape(raw) + rest, '=') == |Escape(raw)| + Bare(rest, '=')
  {
    hide Bare, EscapeChar;
    if raw == [] {
      assert Escape(raw) + rest == rest;
    } else {
      var tail := Escape(raw[1..]) + rest;
      assert Escape(raw) + rest == EscapeChar(raw[0]) + tail;
      PastValue(raw[1..], rest);
      PastChar(raw[0], tail);
    }
  }

  lemma {:induction false} PastHeader(raw: string, rest: string)
    ensures Bare(EscapeHeader(raw) + rest, '|') == |EscapeHeader(raw)| + Bare(rest, '|')
  {
    hide Bare, EscapeHeaderChar;
    if raw == [] {
      assert EscapeHeader(raw) + rest == rest;
    } else {
      var tail := EscapeHeader(raw[1..]) + rest;
      assert EscapeHeader(raw) + rest == EscapeHeaderChar(raw[0]) + tail;
      PastHeader(raw[1..], rest);
      PastChar(raw[0], tail);
    }
  }

  /** A name of letters and digits. */
  predicate Name(s: string) {
    forall i :: 0 <= i < |s| ==> '0' <= s[i] <= '9' || 'A' <= s[i] <= 'Z' || 'a' <= s[i] <= 'z'
  }

  lemma {:induction false} PastName(key: string, rest: string)
    requires Name(key)
    ensures Bare(key + rest, '=') == |key| + Bare(rest, '=')
  {
    if key == [] {
      assert key + rest == rest;
    } else {
      PastName(key[1..], rest);
      assert (key + rest)[1..] == key[1..] + rest;
    }
  }

  lemma {:induction false} LastBeforeName(a: string, sep: char, key: string)
    requires Name(key) && (sep == ' ' || sep == '\t')
    ensures LastOf(a + [sep] + key, sep) == |a|
    decreases |key|
  {
    var s := a + [sep] + key;
    if key != [] {
      LastBeforeName(a, sep, key[..|key| - 1]);
      assert s[..|s| - 1] == a + [sep] + key[..|key| - 1];
    }
  }

  /**
   * The pairs of an extension. A bare equals sign ends a key; the key starts after the last
   * separator before it, so that a value may hold separators.
   */
  function ReadPairs(s: string, sep: char): seq<Part>
    decreases |s|
  {
    var i := Bare(s, '=');
    if i == |s| then []
    else
      var v := s[i + 1..];
      var j := Bare(v, '=');
      var k := LastOf(v[..j], sep);
      if j == |v| || k == j then [(s[..i], Unescape(v))]
      else [(s[..i], Unescape(v[..k]))] + ReadPairs(v[k + 1..], sep)
  }

  predicate Names(parts: seq<Part>) {
    forall i :: 0 <= i < |parts| ==> Name(parts[i].0)
  }

  lemma JoinStarts(parts: seq<Part>, sep: char) returns (rest: string)
    requires parts != []
    ensures Join(parts, sep) == parts[0].0 + ("=" + (Escape(parts[0].1) + rest))
    ensures |parts| == 1 ==> rest == []
    ensures |parts| > 1 ==> rest == [sep] + Join(parts[1..], sep)
  {
    hide Escape;
    rest := if |parts| == 1 then [] else [sep] + Join(parts[1..], sep);
  }

  lemma BareHere(rest: string)
    ensures Bare("=" + rest, '=') == 0
  {
  }

  lemma BareNone()
    ensures Bare("", '=') == 0
  {
  }

  /** One pair read, and what is left to read. */
  lemma ReadOne(key: string, v: string, sep: char)
    requires Name(key)
    ensures var j := Bare(v, '=');
      var k := LastOf(v[..j], sep);
      ReadPairs(key + ("=" + v), sep)
        == if j == |v| || k == j then [(key, Unescape(v))]
           else [(key, Unescape(v[..k]))] + ReadPairs(v[k + 1..], sep)
  {
    hide Bare, LastOf, Unescape, Name;
    var s := key + ("=" + v);
    PastName(key, "=" + v);
    BareHere(v);
    assert s[..|key|] == key && s[|key| + 1..] == v;
  }

  lemma LastPair(p: Part, sep: char)
    requires Name(p.0)
    ensures ReadPairs(p.0 + ("=" + Escape(p.1)), sep) == [p]
  {
    hide Bare, LastOf, Unescape, Name, ReadPairs, Escape;
    ReadOne(p.0, Escape(p.1), sep);
    PastValue(p.1, "");
    BareNone();
    assert Escape(p.1) + "" == Escape(p.1);
    UnescapeEscape(p.1);
  }

  lemma FirstPair(p: Part, parts: seq<Part>, sep: char)
    requires Name(p.0) && parts != [] && Name(parts[0].0) && (sep == ' ' || sep == '\t')
    ensures ReadPairs(p.0 + ("=" + (Escape(p.1) + ([sep] + Join(parts, sep)))), sep)
      == [p] + ReadPairs(Join(parts, sep), sep)
  {
    hide Bare, LastOf, Unescape, Name, ReadPairs, Escape, Join;
    var value, more := Escape(p.1), Join(parts, sep);
    var v := value + ([sep] + more);
    ReadOne(p.0, v, sep);
    PastValue(p.1, [sep] + more);
    SecondKey(parts, sep, value);
    UnescapeEscape(p.1);
    assert v[..|value|] == value && v[|value| + 1..] == more;
  }

  /** Whatever the values hold, splitting and unescaping gives back the pairs that were printed. */
  lemma {:induction false} PairsReadBack(parts: seq<Part>, sep: char)
    requires Names(parts) && (sep == ' ' || sep == '\t')
    ensures ReadPairs(Join(parts, sep), sep) == parts
  {
    hide LastOf, Unescape, Escape, Name, ReadPairs;
    if parts == [] {
      NothingRead(sep);
    } else {
      var rest := JoinStarts(parts, sep);
      var p := parts[0];
      if |parts| == 1 {
        LastPair(p, sep);
        assert Escape(p.1) + rest == Escape(p.1) && parts == [p];
      } else {
        FirstPair(p, parts[1..], sep);
        PairsReadBack(parts[1..], sep);
        assert parts == [p] + parts[1..];
      }
    }
  }

  lemma NothingRead(sep: char)
    ensures ReadPairs("", sep) == []
  {
  }

  /** The next bare equals sign ends the next key, and the separator before that ends the value. */
  lemma SecondKey(parts: seq<Part>, sep: char, value: string)
    requires parts != [] && Name(parts[0].0) && (sep == ' ' || sep == '\t')
    ensures var v := value + ([sep] + Join(parts, sep));
      && Bare([sep] + Join(parts, sep), '=') == 1 + |parts[0].0|
      && 1 + |parts[0].0| < |[sep] + Join(parts, sep)|
      && LastOf(v[..|value| + 1 + |parts[0].0|], sep) == |value|
  {
    hide Bare, LastOf, Escape, Name, Join;
    var key := parts[0].0;
    var rest := JoinStarts(parts, sep);
    var tail := "=" + (Escape(parts[0].1) + rest);
    PastSeparator(sep, Join(parts, sep));
    PastName(key, tail);
    BareHere(Escape(parts[0].1) + rest);
    LastBeforeName(value, sep, key);
    assert (value + ([sep] + (key + tail)))[..|value| + 1 + |key|] == value + [sep] + key;
  }

  lemma PastSeparator(sep: char, rest: string)
    requires sep == ' ' || sep == '\t'
    ensures Bare([sep] + rest, '=') == 1 + Bare(rest, '=')
  {
  }

  // ----- the header ---------------------------------------------------------------------------

  /** The first `n` fields of a header. */
  function ReadHeader(s: string, n: nat): seq<string> {
    if n == 0 then []
    else
      var i := Bare(s, '|');
      [UnescapeHeader(s[..i])] + if i == |s| then [] else ReadHeader(s[i + 1..], n - 1)
  }

  function Escaped(raws: seq<string>): seq<string> {
    seq(|raws|, i requires 0 <= i < |raws| => EscapeHeader(raws[i]))
  }

  lemma OneField(raw: string, rest: string, n: nat)
    ensures ReadHeader(EscapeHeader(raw) + ("|" + rest), n + 1) == [raw] + ReadHeader(rest, n)
  {
    hide EscapeHeader, UnescapeHeader, Bare;
    PastHeader(raw, "|" + rest);
    PipeHere(rest);
    UnescapeEscapeHeader(raw);
    AroundPipe(EscapeHeader(raw), rest);
  }

  lemma PipeHere(rest: string)
    ensures Bare("|" + rest, '|') == 0
  {
  }

  lemma AroundPipe(a: string, rest: string)
    ensures var s := a + ("|" + rest); |a| < |s| && s[..|a|] == a && s[|a| + 1..] == rest
  {
  }

  lemma {:induction false} HeaderReadBack(raws: seq<string>, ext: string)
    ensures ReadHeader(Fields(Escaped(raws)) + ext, |raws|) == raws
  {
    hide EscapeHeader, ReadHeader;
    if raws == [] {
      NoFields(ext);
      assert Fields(Escaped(raws)) + ext == ext;
    } else {
      var rest := Fields(Escaped(raws[1..])) + ext;
      assert Escaped(raws)[1..] == Escaped(raws[1..]);
      assert Fields(Escaped(raws)) + ext == EscapeHeader(raws[0]) + ("|" + rest);
      OneField(raws[0], rest, |raws| - 1);
      HeaderReadBack(raws[1..], ext);
      assert raws == [raws[0]] + raws[1..];
    }
  }

  lemma NoFields(s: string)
    ensures ReadHeader(s, 0) == []
  {
  }

  // ----- what the program's own names hold ----------------------------------------------------

  /** Text that means the same in a header and in an extension. */
  predicate Plain(s: string) {
    forall i :: 0 <= i < |s| ==> s[i] != '=' && s[i] != '\\' && s[i] != '|'
  }

  lemma PlainSignatures()
    ensures Plain("JobStarted") && Plain("JobCompleted") && Plain("FileCopied") && Plain("FileFailed")
    ensures Plain("CollisionResolved") && Plain("SettingsChanged") && Plain("LoginEvent")
    ensures Plain("UnauthorizedAccess")
  {
  }

  lemma PlainTitles()
    ensures Plain("Copy job started") && Plain("Copy job completed") && Plain("File copied")
    ensures Plain("File copy failed") && Plain("Collision resolved") && Plain("Settings changed")
    ensures Plain("Application login") && Plain("Unauthorized access")
  {
  }

  lemma PlainLiterals()
    ensures Plain("CEF:0") && Plain("LEEF:2.0") && Plain("Freally") && Plain(VERSION)
  {
  }

  lemma PlainEvent(e: Event)
    ensures EscapeHeader(Signature(e)) == Signature(e) && Plain(Signature(e))
    ensures EscapeHeader(Title(e)) == Title(e) && Plain(Title(e))
    ensures Plain(Decimal(CefSeverity(SeverityOf(e))))
  {
    PlainNames(e);
    HeaderUnescaped(Signature(e));
    HeaderUnescaped(Title(e));
    DecimalDigits(CefSeverity(SeverityOf(e)));
  }

  lemma PlainNames(e: Event)
    ensures Plain(Signature(e)) && Plain(Title(e))
  {
    hide Plain;
    PlainSignatures();
    PlainTitles();
  }

  // ----- splitting at every tab ------------------------------------------------------------------

  function Split(s: string, c: char): seq<string> {
    var i := IndexOf(s, c);
    if i == |s| then [s] else [s[..i]] + Split(s[i + 1..], c)
  }

  function Printed(parts: seq<Part>): seq<string> {
    seq(|parts|, i requires 0 <= i < |parts| => Pair(parts[i]))
  }

  lemma SplitFirst(a: string, b: string)
    requires '\t' !in a
    ensures Split(a + ("\t" + b), '\t') == [a] + Split(b, '\t')
  {
    var s := a + ("\t" + b);
    FirstUnique(s, '\t', |a|);
    assert s[..|a|] == a && s[|a| + 1..] == b;
  }

  lemma SplitLast(a: string)
    requires '\t' !in a
    ensures Split(a, '\t') == [a]
  {
    IndexOfIs(a, '\t');
  }

  lemma {:induction false} NoneInside(s: string)
    ensures forall k :: 0 <= k < |Split(s, '\t')| ==> '\t' !in Split(s, '\t')[k]
  {
    var i := IndexOf(s, '\t');
    IndexOfIs(s, '\t');
    if i < |s| {
      NoneInside(s[i + 1..]);
    }
  }

  lemma {:induction false} TabsEscaped(raw: string)
    ensures '\t' in Escape(raw) <==> '\t' in raw
  {
    if raw != [] {
      TabsEscaped(raw[1..]);
      assert raw == [raw[0]] + raw[1..];
      assert '\t' in EscapeChar(raw[0]) <==> raw[0] == '\t';
    }
  }

  lemma NameHasNoTab(key: string)
    requires Name(key)
    ensures '\t' !in key
  {
  }

  lemma TabInPair(p: Part)
    requires Name(p.0)
    ensures '\t' in Pair(p) <==> '\t' in p.1
  {
    hide Escape, Name;
    NameHasNoTab(p.0);
    TabsEscaped(p.1);
    assert '\t' !in "=";
  }

  /**
   * A reader that splits an extension at every tab, without looking for keys, gets the pairs that
   * were printed if and only if no value holds a tab, which escaping leaves as it is.
   */
  lemma {:induction false} TabsSplit(parts: seq<Part>)
    requires Names(parts) && parts != []
    ensures Split(Join(parts, '\t'), '\t') == Printed(parts) <==> forall i :: 0 <= i < |parts| ==> '\t' !in parts[i].1
  {
    hide Pair, Split, Name;
    forall i | 0 <= i < |parts| ensures '\t' in Pair(parts[i]) <==> '\t' in parts[i].1 {
      TabInPair(parts[i]);
    }
    NoneInside(Join(parts, '\t'));
    if Split(Join(parts, '\t'), '\t') == Printed(parts) {
      forall i | 0 <= i < |parts| ensures '\t' !in parts[i].1 {
        assert Printed(parts)[i] == Pair(parts[i]);
      }
    } else if forall i :: 0 <= i < |parts| ==> '\t' !in parts[i].1 {
      AllSplit(parts);
      assert false;
    }
  }

  lemma {:induction false} AllSplit(parts: seq<Part>)
    requires parts != [] && forall i :: 0 <= i < |parts| ==> '\t' !in Pair(parts[i])
    ensures Split(Join(parts, '\t'), '\t') == Printed(parts)
  {
    hide Pair, Split;
    var p := parts[0];
    if |parts| == 1 {
      SplitLast(Pair(p));
    } else {
      AllSplit(parts[1..]);
      SplitFirst(Pair(p), Join(parts[1..], '\t'));
      assert Pair(p) + ['\t'] + Join(parts[1..], '\t') == Pair(p) + ("\t" + Join(parts[1..], '\t'));
      assert Printed(parts) == [Pair(p)] + Printed(parts[1..]);
    }
  }
}
