/** Text handling for the audit log: UTF-8, hexadecimal, lines, substring search and escaping. */
module AuditText {
  import opened Base

  // ----- UTF-8 ------------------------------------------------------------------

  function Utf8Char(c: char): Bytes {
    var n := c as int;
    if n < 0x80 then [n]
    else if n < 0x800 then [0xC0 + n / 64, 0x80 + n % 64]
    else if n < 0x10000 then [0xE0 + n / 4096, 0x80 + n / 64 % 64, 0x80 + n % 64]
    else [0xF0 + n / 262144, 0x80 + n / 4096 % 64, 0x80 + n / 64 % 64, 0x80 + n % 64]
  }

  function Utf8(s: string): Bytes {
    if s == [] then [] else Utf8Char(s[0]) + Utf8(s[1..])
  }

  /** The first byte tells how many follow. */
  function Width(b: byte): nat {
    if b < 0x80 then 1 else if b < 0xE0 then 2 else if b < 0xF0 then 3 else 4
  }

  lemma WidthOf(c: char)
    ensures |Utf8Char(c)| == Width(Utf8Char(c)[0])
  {
  }

  function CodePoint(b: Bytes): int
    requires |b| > 0
  {
    if |b| == 1 then b[0] as int
    else if |b| == 2 then (b[0] as int - 0xC0) * 64 + (b[1] as int - 0x80)
    else if |b| == 3 then (b[0] as int - 0xE0) * 4096 + (b[1] as int - 0x80) * 64 + (b[2] as int - 0x80)
    else if |b| == 4 then
      (b[0] as int - 0xF0) * 262144 + (b[1] as int - 0x80) * 4096 + (b[2] as int - 0x80) * 64 + (b[3] as int - 0x80)
    else 0
  }

  lemma CodePointOf(c: char)
    ensures CodePoint(Utf8Char(c)) == c as int
  {
    var n := c as int;
    assert n == n / 64 * 64 + n % 64;
    assert n / 64 == n / 64 / 64 * 64 + n / 64 % 64 && n / 64 / 64 == n / 4096;
    assert n / 4096 == n / 4096 / 64 * 64 + n / 4096 % 64 && n / 4096 / 64 == n / 262144;
  }

  /** Encoding loses nothing. */
  lemma {:induction false} Utf8Injective(a: string, b: string)
    requires Utf8(a) == Utf8(b)
    ensures a == b
  {
    hide Utf8Char, CodePoint, Width;
    if a == [] || b == [] {
      if a != [] { WidthOf(a[0]); CharNotEmpty(a[0]); }
      if b != [] { WidthOf(b[0]); CharNotEmpty(b[0]); }
    } else {
      var x, y := Utf8Char(a[0]), Utf8Char(b[0]);
      CharNotEmpty(a[0]);
      CharNotEmpty(b[0]);
      WidthOf(a[0]);
      WidthOf(b[0]);
      assert Utf8(a)[0] == x[0] && Utf8(b)[0] == y[0];
      assert Utf8(a)[..|x|] == x && Utf8(b)[..|y|] == y;
      assert Utf8(a)[|x|..] == Utf8(a[1..]) && Utf8(b)[|y|..] == Utf8(b[1..]);
      CodePointOf(a[0]);
      CodePointOf(b[0]);
      Utf8Injective(a[1..], b[1..]);
      assert a == [a[0]] + a[1..] && b == [b[0]] + b[1..];
    }
  }

  lemma CharNotEmpty(c: char)
    ensures |Utf8Char(c)| > 0
  {
  }

  predicate Ascii(s: string) {
    forall i :: 0 <= i < |s| ==> s[i] as int < 0x80
  }

  lemma {:induction false} AsciiLength(s: string)
    requires Ascii(s)
    ensures |Utf8(s)| == |s|
  {
    if s != [] {
      AsciiLength(s[1..]);
    }
  }

  // ----- hexadecimal --------------------------------------------------------------

  const HEX_LEN := 64

  function HexDigit(n: int): char
    requires 0 <= n < 16
  {
    "0123456789abcdef"[n]
  }

  predicate IsHex(c: char) {
    '0' <= c <= '9' || 'a' <= c <= 'f'
  }

  lemma HexDigitDistinct(a: int, b: int)
    requires 0 <= a < 16 && 0 <= b < 16 && HexDigit(a) == HexDigit(b)
    ensures a == b
  {
  }

  lemma HexDigitIsHex(n: int)
    requires 0 <= n < 16
    ensures IsHex(HexDigit(n))
  {
  }

  function Hex(b: Bytes): string {
    if b == [] then [] else [HexDigit(b[0] / 16), HexDigit(b[0] % 16)] + Hex(b[1..])
  }

  predicate AllHex(s: string) {
    forall i :: 0 <= i < |s| ==> IsHex(s[i])
  }

  lemma {:induction false} HexShape(b: Bytes)
    ensures |Hex(b)| == 2 * |b| && AllHex(Hex(b))
  {
    hide HexDigit, IsHex;
    if b != [] {
      HexShape(b[1..]);
      HexDigitIsHex(b[0] / 16);
      HexDigitIsHex(b[0] % 16);
    }
  }

  /** Different digests print differently. */
  lemma {:induction false} HexInjective(a: Bytes, b: Bytes)
    requires Hex(a) == Hex(b)
    ensures a == b
  {
    hide HexDigit;
    HexShape(a);
    HexShape(b);
    if a != [] {
      assert Hex(a)[0] == HexDigit(a[0] / 16) && Hex(b)[0] == HexDigit(b[0] / 16);
      assert Hex(a)[1] == HexDigit(a[0] % 16) && Hex(b)[1] == HexDigit(b[0] % 16);
      HexDigitDistinct(a[0] / 16, b[0] / 16);
      HexDigitDistinct(a[0] % 16, b[0] % 16);
      assert Hex(a)[2..] == Hex(a[1..]) && Hex(b)[2..] == Hex(b[1..]);
      HexInjective(a[1..], b[1..]);
      assert a == [a[0]] + a[1..] && b == [b[0]] + b[1..];
    }
  }

  function ZeroHex(): string {
    seq(HEX_LEN, i requires 0 <= i < HEX_LEN => '0')
  }

  // ----- lines ----------------------------------------------------------------------

  /** The position of the first `c`, or the length if there is none. */
  function IndexOf(s: string, c: char): (i: nat)
    ensures i <= |s|
  {
    if s == [] || s[0] == c then 0 else 1 + IndexOf(s[1..], c)
  }

  lemma {:induction false} IndexOfIs(s: string, c: char)
    ensures forall k :: 0 <= k < IndexOf(s, c) ==> s[k] != c
    ensures IndexOf(s, c) < |s| ==> s[IndexOf(s, c)] == c
  {
    if s != [] && s[0] != c {
      IndexOfIs(s[1..], c);
    }
  }

  /** `split_inclusive`: each piece keeps its newline; an unterminated tail is a piece. */
  function Lines(text: string): seq<string>
    decreases |text|
  {
    if text == [] then []
    else
      var i := IndexOf(text, '\n');
      if i == |text| then [text] else [text[..i + 1]] + Lines(text[i + 1..])
  }

  /** Ends in its only newline. */
  predicate OneLine(s: string) {
    s != [] && s[|s| - 1] == '\n' && forall i :: 0 <= i < |s| - 1 ==> s[i] != '\n'
  }

  predicate Terminated(text: string) {
    text == [] || text[|text| - 1] == '\n'
  }

  lemma LinesOfOne(line: string)
    requires OneLine(line)
    ensures Lines(line) == [line]
  {
    var i := |line| - 1;
    FirstUnique(line, '\n', i);
    assert line[..i + 1] == line && line[i + 1..] == [];
  }

  lemma LinesCons(text: string, i: nat)
    requires i == IndexOf(text, '\n') < |text|
    ensures Lines(text) == [text[..i + 1]] + Lines(text[i + 1..])
  {
    hide IndexOf;
  }

  lemma LastChar(text: string, i: nat)
    requires Terminated(text) && i < |text|
    ensures Terminated(text[i + 1..]) && IndexOf(text, '\n') < |text|
  {
    IndexOfIs(text, '\n');
  }

  /** A terminated text and what follows it split separately. */
  lemma {:induction false} LinesSplit(text: string, more: string)
    requires Terminated(text)
    ensures Lines(text + more) == Lines(text) + Lines(more)
    decreases |text|
  {
    hide Lines, Terminated, IndexOf;
    if text == [] {
      assert text + more == more;
      NoLines();
      assert [] + Lines(more) == Lines(more);
    } else {
      LastChar(text, 0);
      var i := IndexOf(text, '\n');
      LastChar(text, i);
      IndexOfIs(text, '\n');
      FirstUnique(text + more, '\n', i);
      var first, rest := text[..i + 1], text[i + 1..];
      assert (text + more)[..i + 1] == first && (text + more)[i + 1..] == rest + more;
      LinesCons(text, i);
      LinesCons(text + more, i);
      LinesSplit(rest, more);
      assert [first] + (Lines(rest) + Lines(more)) == [first] + Lines(rest) + Lines(more);
    }
  }

  lemma NoLines()
    ensures Lines([]) == []
  {
  }

  /** Appending a line to a terminated text appends one piece. */
  lemma LinesAppend(text: string, line: string)
    requires Terminated(text) && OneLine(line)
    ensures Lines(text + line) == Lines(text) + [line] && Terminated(text + line)
  {
    hide Lines;
    LinesSplit(text, line);
    LinesOfOne(line);
  }

  lemma FirstUnique(s: string, c: char, i: nat)
    requires i < |s| && s[i] == c && forall k :: 0 <= k < i ==> s[k] != c
    ensures IndexOf(s, c) == i
  {
    IndexOfIs(s, c);
  }

  /** Rust's notion of white space. */
  predicate IsWhite(c: char) {
    var n := c as int;
    9 <= n <= 13 || n == 0x20 || n == 0x85 || n == 0xA0 || n == 0x1680 || 0x2000 <= n <= 0x200A
    || n == 0x2028 || n == 0x2029 || n == 0x202F || n == 0x205F || n == 0x3000
  }

  /** `trim().is_empty()`. */
  predicate Blank(s: string) {
    forall i :: 0 <= i < |s| ==> IsWhite(s[i])
  }

  /** Drop every newline and carriage return at the end. */
  function TrimEnd(s: string): (t: string)
    ensures t <= s
    ensures t != [] ==> t[|t| - 1] != '\n' && t[|t| - 1] != '\r'
    decreases |s|
  {
    if s != [] && (s[|s| - 1] == '\n' || s[|s| - 1] == '\r') then TrimEnd(s[..|s| - 1]) else s
  }

  // ----- substrings -------------------------------------------------------------------

  predicate At(s: string, p: string, i: int) {
    0 <= i && i + |p| <= |s| && s[i..i + |p|] == p
  }

  /** The first occurrence. */
  function Find(s: string, p: string): (r: Option<nat>)
    ensures r.Some? ==> At(s, p, r.value) && forall k :: 0 <= k < r.value ==> !At(s, p, k)
    ensures r.None? ==> forall k :: 0 <= k ==> !At(s, p, k)
  {
    if |s| < |p| then None
    else if s[..|p|] == p then
      assert s[0..0 + |p|] == p;
      Some(0)
    else
      assert forall k :: 0 < k ==> (At(s, p, k) <==> At(s[1..], p, k - 1)) by { AtTail(s, p); }
      match Find(s[1..], p)
      case None => None
      case Some(i) => Some(i + 1)
  }

  lemma SliceOfTail(s: string, k: nat, lo: nat, hi: nat)
    requires lo <= hi && k + hi <= |s|
    ensures s[k..][lo..hi] == s[k + lo..k + hi]
  {
  }

  lemma SliceOfFront(s: string, k: nat, lo: nat, hi: nat)
    requires lo <= hi <= k <= |s|
    ensures s[..k][lo..hi] == s[lo..hi]
  {
  }

  lemma AtTail(s: string, p: string)
    requires s != []
    ensures forall k :: 0 < k ==> (At(s, p, k) <==> At(s[1..], p, k - 1))
  {
    forall k | 0 < k ensures At(s, p, k) <==> At(s[1..], p, k - 1) {
      if k + |p| <= |s| {
        SliceOfTail(s, 1, k - 1, k - 1 + |p|);
      }
    }
  }

  lemma AtFront(s: string, p: string)
    requires s != []
    ensures forall k :: k + |p| < |s| ==> (At(s, p, k) <==> At(s[..|s| - 1], p, k))
  {
    forall k | k + |p| < |s| ensures At(s, p, k) <==> At(s[..|s| - 1], p, k) {
      if 0 <= k {
        SliceOfFront(s, |s| - 1, k, k + |p|);
      }
    }
  }

  /** The last occurrence. */
  function RFind(s: string, p: string): (r: Option<nat>)
    ensures r.Some? ==> At(s, p, r.value) && forall k :: r.value < k ==> !At(s, p, k)
    ensures r.None? ==> forall k :: !At(s, p, k)
    decreases |s|
  {
    if |s| < |p| then None
    else if s[|s| - |p|..] == p then Some(|s| - |p|)
    else
      AtFront(s, p);
      RFind(s[..|s| - 1], p)
  }

  // ----- escaping -----------------------------------------------------------------------

  function EscapeHeaderChar(c: char): string {
    if c == '\\' || c == '|' then ['\\', c] else [c]
  }

  /** CEF header fields: backslash and pipe. */
  function EscapeHeader(raw: string): string {
    if raw == [] then [] else EscapeHeaderChar(raw[0]) + EscapeHeader(raw[1..])
  }

  function EscapeChar(c: char): string {
    if c == '\\' || c == '=' then ['\\', c]
    else if c == '\n' then "\\n"
    else if c == '\r' then "\\r"
    else [c]
  }

  /** Extension values: backslash, equals sign and the two line ends. */
  function Escape(raw: string): string {
    if raw == [] then [] else EscapeChar(raw[0]) + Escape(raw[1..])
  }

  lemma {:induction false} EscapeSnoc(raw: string, c: char)
    ensures Escape(raw + [c]) == Escape(raw) + EscapeChar(c)
    ensures EscapeHeader(raw + [c]) == EscapeHeader(raw) + EscapeHeaderChar(c)
  {
    hide EscapeChar, EscapeHeaderChar;
    if raw == [] {
      assert raw + [c] == [c];
    } else {
      assert (raw + [c])[1..] == raw[1..] + [c];
      EscapeSnoc(raw[1..], c);
    }
  }

  method CefEscapeHeader(raw: string) returns (out: string)
    ensures out == EscapeHeader(raw)
  {
    hide EscapeHeader;
    out := [];
    assert EscapeHeader(raw[..0]) == [] by { EscapeNothing(raw); }
    for i := 0 to |raw|
      invariant out == EscapeHeader(raw[..i])
    {
      assert raw[..i + 1] == raw[..i] + [raw[i]];
      EscapeSnoc(raw[..i], raw[i]);
      var ch := raw[i];
      if ch == '\\' || ch == '|' {
        out := out + ['\\', ch];
      } else {
        out := out + [ch];
      }
    }
    assert raw[..|raw|] == raw;
  }

  method CefEscapeExtension(raw: string) returns (out: string)
    ensures out == Escape(raw)
  {
    hide Escape;
    out := [];
    assert Escape(raw[..0]) == [] by { EscapeNothing(raw); }
    for i := 0 to |raw|
      invariant out == Escape(raw[..i])
    {
      assert raw[..i + 1] == raw[..i] + [raw[i]];
      EscapeSnoc(raw[..i], raw[i]);
      var ch := raw[i];
      if ch == '\\' || ch == '=' {
        out := out + ['\\', ch];
      } else if ch == '\n' {
        out := out + "\\n";
      } else if ch == '\r' {
        out := out + "\\r";
      } else {
        out := out + [ch];
      }
    }
    assert raw[..|raw|] == raw;
  }

  lemma EscapeNothing(raw: string)
    ensures EscapeHeader(raw[..0]) == [] && Escape(raw[..0]) == []
  {
  }

  /** No line end survives escaping. */
  predicate Flat(s: string) {
    '\n' !in s && '\r' !in s
  }

  /** No equals sign follows `c`. */
  predicate Guarded(s: string, c: char) {
    forall k :: 0 < k < |s| && s[k] == '=' ==> s[k - 1] != c
  }

  lemma GuardedJoin(a: string, b: string, c: char)
    requires Guarded(a, c) && Guarded(b, c)
    requires b == [] || b[0] != '=' || a == [] || a[|a| - 1] != c
    ensures Guarded(a + b, c)
  {
  }

  /** An escaped value has no line end, and each equals sign in it follows a backslash. */
  lemma {:induction false} EscapeGuards(raw: string, c: char)
    requires c != '\\'
    ensures Flat(Escape(raw)) && Guarded(Escape(raw), c)
    ensures Escape(raw) == [] || Escape(raw)[0] != '='
  {
    if raw != [] {
      EscapeGuards(raw[1..], c);
      GuardedJoin(EscapeChar(raw[0]), Escape(raw[1..]), c);
    }
  }

  /** Hexadecimal needs no escaping. */
  lemma {:induction false} EscapeHex(s: string)
    requires AllHex(s)
    ensures Escape(s) == s
  {
    if s != [] {
      EscapeHex(s[1..]);
      assert IsHex(s[0]);
      assert s == [s[0]] + s[1..];
    }
  }
}
