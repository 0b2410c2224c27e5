/**
 * `json.dumps(value)` with its default settings: items separated by ", ",
 * keys from values by ": ", and every character outside printable ASCII
 * written as a `\uXXXX` escape (`ensure_ascii`), so the text is ASCII and
 * its UTF-8 encoding has one byte per character.
 */
module JsonEncoder {
  import opened Texts
  import opened JsonNumbers
  import opened JsonNumberFacts
  import opened Json

  /** `\u` and four lower-case hex digits. */
  function UnicodeEscape(unit: nat): (r: Text)
    ensures |r| == 6 && IsPrintableAscii(r)
  {
    [0x5C, 0x75] + Hex(unit, 4)
  }

  /** How `json.dumps` writes one code point of a string. Outside the basic
      plane it writes the UTF-16 surrogate pair. */
  function EscapeChar(c: CodePoint): (r: Text)
    ensures |r| >= 1
  {
    if c == 0x22 then [0x5C, 0x22]
    else if c == 0x5C then [0x5C, 0x5C]
    else if c == 0x0A then [0x5C, 0x6E]
    else if c == 0x0D then [0x5C, 0x72]
    else if c == 0x09 then [0x5C, 0x74]
    else if c == 0x08 then [0x5C, 0x62]
    else if c == 0x0C then [0x5C, 0x66]
    else if 0x20 <= c < 0x7F then [c]
    else if c < 0x10000 then UnicodeEscape(c)
    else
      var v := c - 0x10000;
      UnicodeEscape(0xD800 + v / 0x400) + UnicodeEscape(0xDC00 + v % 0x400)
  }

  function EscapeChars(s: Text): Text {
    if s == [] then [] else EscapeChar(s[0]) + EscapeChars(s[1..])
  }

  /** A str as a JSON string literal. */
  function Quote(s: Text): (r: Text)
    ensures |r| >= 2 && r[0] == 0x22
  {
    [0x22] + EscapeChars(s) + [0x22]
  }

  /** `", "` between items and `": "` between a key and its value. */
  const ITEM_SEPARATOR: Text := [0x2C, 0x20]
  const KEY_SEPARATOR: Text := [0x3A, 0x20]

  /** `json.dumps(v)`. A float is written as the text it was read from. */
  function Dump(v: Value): (r: Text)
    ensures |r| >= 1
  {
    match v
    case Null => T("null")
    case Bool(b) => if b then T("true") else T("false")
    case Int(n) => IntToDecimal(n)
    case Float(lexeme) => lexeme
    case String(s) => Quote(s)
    case Array(xs) => T("[") + DumpItems(xs) + T("]")
    case Object(ms) => T("{") + DumpMembers(ms) + T("}")
  }

  function DumpItems(xs: seq<Value>): Text {
    if xs == [] then []
    else if |xs| == 1 then Dump(xs[0])
    else Dump(xs[0]) + ITEM_SEPARATOR + DumpItems(xs[1..])
  }

  function DumpMember(m: Member): Text {
    Quote(m.key) + KEY_SEPARATOR + Dump(m.value)
  }

  function DumpMembers(ms: seq<Member>): Text {
    if ms == [] then []
    else if |ms| == 1 then DumpMember(ms[0])
    else DumpMember(ms[0]) + ITEM_SEPARATOR + DumpMembers(ms[1..])
  }

  // ---------------------------------------------------------------------
  // ensure_ascii: everything written is printable ASCII
  // ---------------------------------------------------------------------

  lemma AsciiConcat(a: Text, b: Text)
    requires IsPrintableAscii(a) && IsPrintableAscii(b)
    ensures IsPrintableAscii(a + b)
  {
  }

  /** Every code point is written as printable ASCII. */
  lemma EscapeCharAscii(c: CodePoint)
    ensures IsPrintableAscii(EscapeChar(c))
  {
  }

  lemma {:induction false} EscapeCharsAscii(s: Text)
    ensures IsPrintableAscii(EscapeChars(s))
  {
    if s != [] {
      EscapeCharAscii(s[0]);
      EscapeCharsAscii(s[1..]);
      AsciiConcat(EscapeChar(s[0]), EscapeChars(s[1..]));
    }
  }

  lemma QuoteAscii(s: Text)
    ensures IsPrintableAscii(Quote(s))
  {
    EscapeCharsAscii(s);
  }

  /** `json.dumps` writes printable ASCII only (`ensure_ascii`). */
  lemma {:induction false} DumpIsAscii(v: Value)
    ensures IsPrintableAscii(Dump(v))
    decreases v, 1
  {
    match v
    case Null =>
    case Bool(b) =>
    case Int(n) =>
    case Float(lexeme) => LexemeIsAscii(lexeme);
    case String(s) => QuoteAscii(s);
    case Array(xs) =>
      DumpItemsAscii(xs);
      AsciiConcat(T("[") + DumpItems(xs), T("]"));
    case Object(ms) =>
      DumpMembersAscii(ms);
      AsciiConcat(T("{") + DumpMembers(ms), T("}"));
  }

  lemma {:induction false} DumpItemsAscii(xs: seq<Value>)
    ensures IsPrintableAscii(DumpItems(xs))
    decreases xs, 0
  {
    if xs != [] {
      DumpIsAscii(xs[0]);
      if |xs| > 1 {
        DumpItemsAscii(xs[1..]);
        AsciiConcat(Dump(xs[0]) + ITEM_SEPARATOR, DumpItems(xs[1..]));
      }
    }
  }

  lemma {:induction false} DumpMembersAscii(ms: seq<Member>)
    ensures IsPrintableAscii(DumpMembers(ms))
    decreases ms, 0
  {
    if ms != [] {
      QuoteAscii(ms[0].key);
      DumpIsAscii(ms[0].value);
      assert IsPrintableAscii(DumpMember(ms[0]));
      if |ms| > 1 {
        DumpMembersAscii(ms[1..]);
        AsciiConcat(DumpMember(ms[0]) + ITEM_SEPARATOR, DumpMembers(ms[1..]));
      }
    }
  }
}
