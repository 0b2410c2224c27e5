/**
 * Text as a Python `str` holds it: a sequence of Unicode code points, lone
 * surrogates included, together with the few `str` operations the core relies
 * on (whitespace stripping, splitting on a separator, substring search,
 * decimal rendering of integers and `repr`).
 */
module Texts {

  /** One Unicode code point, U+0000 to U+10FFFF (surrogates included, as in Python). */
  type CodePoint = c: int | 0 <= c < 0x11_0000

  /** A Python `str`. */
  type Text = seq<CodePoint>

  /** The code points of a Dafny string literal. */
  function T(s: string): (t: Text)
    ensures |t| == |s|
    ensures forall i :: 0 <= i < |s| ==> t[i] == s[i] as int
  {
    seq(|s|, i requires 0 <= i < |s| => s[i] as int)
  }

  predicate IsHighSurrogate(c: CodePoint) { 0xD800 <= c <= 0xDBFF }
  predicate IsLowSurrogate(c: CodePoint) { 0xDC00 <= c <= 0xDFFF }
  predicate IsSurrogate(c: CodePoint) { 0xD800 <= c <= 0xDFFF }

  /** Every code point is printable ASCII (U+0020 to U+007E). */
  predicate IsPrintableAscii(t: Text) {
    forall i :: 0 <= i < |t| ==> 0x20 <= t[i] < 0x7F
  }

  /** No code point of `t` is a surrogate, so `t` can be encoded as UTF-8. */
  predicate NoSurrogates(t: Text) {
    forall i :: 0 <= i < |t| ==> !IsSurrogate(t[i])
  }

  // ---------------------------------------------------------------------
  // Whitespace and str.strip()
  // ---------------------------------------------------------------------

  /** Python's `str.isspace()` for one code point: the characters of Unicode
      category Zs and of bidirectional class WS, B or S. */
  predicate IsSpace(c: CodePoint) {
    || (0x09 <= c <= 0x0D) || (0x1C <= c <= 0x20) || c == 0x85 || c == 0xA0
    || c == 0x1680 || (0x2000 <= c <= 0x200A) || c == 0x2028 || c == 0x2029
    || c == 0x202F || c == 0x205F || c == 0x3000
  }

  predicate AllSpace(t: Text) {
    forall i :: 0 <= i < |t| ==> IsSpace(t[i])
  }

  /** Neither the first nor the last code point is whitespace. */
  predicate IsStripped(t: Text) {
    t == [] || (!IsSpace(t[0]) && !IsSpace(t[|t| - 1]))
  }

  /** `t` with its leading whitespace removed (`str.lstrip()`). */
  function TrimStart(t: Text): (r: Text)
    ensures |r| <= |t| && r == t[|t| - |r|..]
    ensures r != [] ==> !IsSpace(r[0])
  {
    if t != [] && IsSpace(t[0]) then TrimStart(t[1..]) else t
  }

  /** Only whitespace was removed from the front. */
  lemma {:induction false} TrimStartSpace(t: Text)
    ensures AllSpace(t[..|t| - |TrimStart(t)|])
  {
    if t != [] && IsSpace(t[0]) {
      TrimStartSpace(t[1..]);
      assert t[..|t| - |TrimStart(t)|] == [t[0]] + t[1..][..|t[1..]| - |TrimStart(t[1..])|];
    }
  }

  /** `t` with its trailing whitespace removed (`str.rstrip()`). */
  function TrimEnd(t: Text): (r: Text)
    ensures |r| <= |t| && r == t[..|r|]
    ensures r != [] ==> !IsSpace(r[|r| - 1])
  {
    if t != [] && IsSpace(t[|t| - 1]) then TrimEnd(t[..|t| - 1]) else t
  }

  /** Only whitespace was removed from the back. */
  lemma {:induction false} TrimEndSpace(t: Text)
    ensures AllSpace(t[|TrimEnd(t)|..])
  {
    if t != [] && IsSpace(t[|t| - 1]) {
      var u := t[..|t| - 1];
      TrimEndSpace(u);
      assert t[|TrimEnd(t)|..] == u[|TrimEnd(u)|..] + [t[|t| - 1]];
    }
  }

  /** `str.strip()`: neither the first nor the last code point of the
      result is whitespace. */
  function Strip(t: Text): (r: Text)
    ensures IsStripped(r)
    ensures |r| <= |t|
  {
    TrimEnd(TrimStart(t))
  }

  /** The result of `Strip` is a contiguous part of `t`, and only whitespace
      surrounds it. */
  lemma StripIsSlice(t: Text) returns (i: nat)
    ensures i + |Strip(t)| <= |t|
    ensures t[i..i + |Strip(t)|] == Strip(t)
    ensures AllSpace(t[..i]) && AllSpace(t[i + |Strip(t)|..])
  {
    var s := TrimStart(t);
    var r := TrimEnd(s);
    i := |t| - |s|;
    TrimStartSpace(t);
    TrimEndSpace(s);
    assert t[i..i + |r|] == r && t[i + |r|..] == s[|r|..];
  }

  /** Stripping a text that is already stripped changes nothing. */
  lemma StripStripped(t: Text)
    requires IsStripped(t)
    ensures Strip(t) == t
  {
  }

  // ---------------------------------------------------------------------
  // str.split(sep) for a one-character separator, and its inverse
  // ---------------------------------------------------------------------

  /** The position of the first `c` in `t`, or `|t|` when there is none. */
  function IndexOf(t: Text, c: CodePoint): (i: nat)
    ensures i <= |t|
    ensures i < |t| ==> t[i] == c
    ensures c !in t[..i]
  {
    if t == [] then 0
    else if t[0] == c then 0
    else
      assert t[..1 + IndexOf(t[1..], c)] == [t[0]] + t[1..][..IndexOf(t[1..], c)];
      1 + IndexOf(t[1..], c)
  }

  /** `sep.join(parts)`. */
  function Join(parts: seq<Text>, sep: CodePoint): Text {
    if |parts| == 0 then []
    else if |parts| == 1 then parts[0]
    else parts[0] + [sep] + Join(parts[1..], sep)
  }

  /** `t.split(sep)`: at least one piece, no piece holds the separator, and
      joining the pieces with the separator gives `t` back. */
  function Split(t: Text, sep: CodePoint): (parts: seq<Text>)
    ensures |parts| >= 1
    ensures forall k :: 0 <= k < |parts| ==> sep !in parts[k]
    ensures Join(parts, sep) == t
    decreases |t|
  {
    var i := IndexOf(t, sep);
    if i == |t| then
      assert t[..i] == t;
      [t]
    else
      var rest := Split(t[i + 1..], sep);
      assert t == t[..i] + [sep] + t[i + 1..];
      [t[..i]] + rest
  }

  /** Splitting a joined list gives the list back, provided no piece holds the separator. */
  lemma {:induction false} SplitJoin(parts: seq<Text>, sep: CodePoint)
    requires |parts| >= 1
    requires forall k :: 0 <= k < |parts| ==> sep !in parts[k]
    ensures Split(Join(parts, sep), sep) == parts
  {
    var t := Join(parts, sep);
    if |parts| == 1 {
      IndexOfAbsent(parts[0], sep);
    } else {
      assert t == parts[0] + ([sep] + Join(parts[1..], sep));
      IndexOfBefore(parts[0], [sep] + Join(parts[1..], sep), sep);
      assert t[..|parts[0]|] == parts[0];
      assert t[|parts[0]| + 1..] == Join(parts[1..], sep);
      SplitJoin(parts[1..], sep);
    }
  }

  lemma {:induction false} IndexOfAbsent(t: Text, c: CodePoint)
    requires c !in t
    ensures IndexOf(t, c) == |t|
  {
    if t != [] {
      IndexOfAbsent(t[1..], c);
    }
  }

  lemma {:induction false} IndexOfBefore(a: Text, b: Text, c: CodePoint)
    requires c !in a && b != [] && b[0] == c
    ensures IndexOf(a + b, c) == |a|
  {
    if a != [] {
      assert (a + b)[1..] == a[1..] + b;
      IndexOfBefore(a[1..], b, c);
    }
  }

  // ---------------------------------------------------------------------
  // Substring test (`needle in haystack` on two str values)
  // ---------------------------------------------------------------------

  /** `needle` occurs in `hay` at position `i`. */
  predicate OccursAt(needle: Text, hay: Text, i: nat) {
    i + |needle| <= |hay| && hay[i..i + |needle|] == needle
  }

  /** Python's `needle in hay` for two strings. */
  predicate IsSubstring(needle: Text, hay: Text)
    decreases |hay|
  {
    OccursAt(needle, hay, 0) || (hay != [] && IsSubstring(needle, hay[1..]))
  }

  // ---------------------------------------------------------------------
  // Decimal digits (`str(int)` and `int(str)`)
  // ---------------------------------------------------------------------

  predicate IsDigit(c: CodePoint) { 0x30 <= c <= 0x39 }

  predicate AllDigits(t: Text) {
    forall i :: 0 <= i < |t| ==> IsDigit(t[i])
  }

  /** The value of a run of decimal digits, most significant first. */
  function DigitsValue(t: Text): nat
    requires AllDigits(t)
  {
    if t == [] then 0 else DigitsValue(t[..|t| - 1]) * 10 + (t[|t| - 1] - 0x30)
  }

  /** `str(n)` for a natural number: digits without leading zeros whose value is `n`. */
  function NatToDecimal(n: nat): (r: Text)
    ensures |r| >= 1 && AllDigits(r)
    ensures r[0] == 0x30 ==> n == 0 && r == [0x30]
    ensures DigitsValue(r) == n
  {
    if n < 10 then [0x30 + n]
    else
      var r := NatToDecimal(n / 10) + [0x30 + n % 10];
      assert r[..|r| - 1] == NatToDecimal(n / 10);
      r
  }

  /** `str(i)` for a Python int. */
  function IntToDecimal(i: int): (r: Text)
    ensures IsPrintableAscii(r)
  {
    if i < 0 then [0x2D] + NatToDecimal(-i) else NatToDecimal(i)
  }

  // ---------------------------------------------------------------------
  // repr() of a str, and str() of a list of str
  // ---------------------------------------------------------------------

  function HexDigit(n: nat): CodePoint
    requires n < 16
  {
    if n < 10 then 0x30 + n else 0x61 + (n - 10)
  }

  /** `n` as `width` lower-case hexadecimal digits. */
  function Hex(n: nat, width: nat): (r: Text)
    ensures |r| == width
    ensures IsPrintableAscii(r)
  {
    if width == 0 then [] else Hex(n / 16, width - 1) + [HexDigit(n % 16)]
  }

  /** Whether `repr` shows a code point above U+007E as itself. Python asks the
      Unicode database; this model treats the C1 controls, U+00A0, U+00AD and
      the surrogates as unprintable and every other code point as printable. */
  predicate ReprShowsAsIs(c: CodePoint)
    requires c >= 0x7F
  {
    !(c <= 0xA0 || c == 0xAD || IsSurrogate(c))
  }

  /** How `repr` writes one code point between quotes `quote`. */
  function ReprChar(c: CodePoint, quote: CodePoint): Text {
    if c == quote || c == 0x5C then [0x5C, c]
    else if c == 0x09 then [0x5C, 0x74]
    else if c == 0x0A then [0x5C, 0x6E]
    else if c == 0x0D then [0x5C, 0x72]
    else if c < 0x20 || c == 0x7F then [0x5C, 0x78] + Hex(c, 2)
    else if c < 0x7F then [c]
    else if ReprShowsAsIs(c) then [c]
    else if c <= 0xFF then [0x5C, 0x78] + Hex(c, 2)
    else if c <= 0xFFFF then [0x5C, 0x75] + Hex(c, 4)
    else [0x5C, 0x55] + Hex(c, 8)
  }

  function ReprChars(t: Text, quote: CodePoint): Text {
    if t == [] then [] else ReprChar(t[0], quote) + ReprChars(t[1..], quote)
  }

  /** Python's `repr(t)`: single quotes unless `t` holds a single quote and no
      double quote. */
  function PyRepr(t: Text): (r: Text)
    ensures |r| >= 2 && r[0] == r[|r| - 1] && (r[0] == 0x27 || r[0] == 0x22)
  {
    var quote := if 0x27 in t && 0x22 !in t then 0x22 else 0x27;
    [quote] + ReprChars(t, quote) + [quote]
  }

  function JoinReprs(ts: seq<Text>): Text {
    if |ts| == 0 then []
    else if |ts| == 1 then PyRepr(ts[0])
    else PyRepr(ts[0]) + T(", ") + JoinReprs(ts[1..])
  }

  /** `str(ts)` for a Python list of str: `['a', 'b']`. */
  function PyListRepr(ts: seq<Text>): Text {
    T("[") + JoinReprs(ts) + T("]")
  }
}
