/**
 * `json.loads` as CPython's scanner runs it: leading and trailing JSON
 * whitespace, the literals `null`, `true`, `false`, `NaN`, `Infinity` and
 * `-Infinity`, numbers that are ints unless they have a fraction or an
 * exponent, strings whose escaped surrogate pairs are joined and in which a
 * raw control character is an error, and objects built as dicts. Every
 * failure is a JSONDecodeError; the model does not say where it occurred.
 */
module JsonDecoder {
  import opened Wrappers
  import opened Texts
  import Utf8
  import opened JsonNumbers
  import opened JsonNumberFacts
  import opened Json

  /** A value read from the front of a text, and the text left after it. */
  datatype Parsed<T> = Parsed(value: T, rest: Text)

  /** The whitespace JSON allows between tokens: space, tab, newline, carriage return. */
  predicate IsWhitespace(c: CodePoint) { c == 0x20 || c == 0x09 || c == 0x0A || c == 0x0D }

  function SkipWhitespace(t: Text): (r: Text)
    ensures |r| <= |t| && r == t[|t| - |r|..]
    ensures r != [] ==> !IsWhitespace(r[0])
  {
    if t != [] && IsWhitespace(t[0]) then SkipWhitespace(t[1..]) else t
  }

  predicate IsHexDigit(c: CodePoint) {
    IsDigit(c) || (0x61 <= c <= 0x66) || (0x41 <= c <= 0x46)
  }

  function HexDigitValue(c: CodePoint): (n: nat)
    requires IsHexDigit(c)
    ensures n < 16
  {
    if IsDigit(c) then c - 0x30 else if c >= 0x61 then c - 0x61 + 10 else c - 0x41 + 10
  }

  /** The four hex digits of a `\uXXXX` escape, if `t` starts with four. */
  function Hex4(t: Text): (r: Option<nat>)
    ensures r.Some? ==> r.value < 0x10000
  {
    if |t| >= 4 && IsHexDigit(t[0]) && IsHexDigit(t[1]) && IsHexDigit(t[2]) && IsHexDigit(t[3])
    then Some(((HexDigitValue(t[0]) * 16 + HexDigitValue(t[1])) * 16 + HexDigitValue(t[2])) * 16 + HexDigitValue(t[3]))
    else None
  }

  /** The code point a high and a low surrogate stand for together. */
  function JoinSurrogates(hi: CodePoint, lo: CodePoint): (c: CodePoint)
    requires IsHighSurrogate(hi) && IsLowSurrogate(lo)
    ensures 0x10000 <= c
  {
    0x10000 + (hi - 0xD800) * 0x400 + (lo - 0xDC00)
  }

  /** One backslash escape at the front of `t` (which starts with `\`): the
      code point it stands for and how many code points it takes. A `\u`
      escape of a high surrogate directly followed by a `\u` escape of a low
      surrogate is read as the one code point they encode together. */
  function Unescape(t: Text): (r: Option<(CodePoint, nat)>)
    requires t != [] && t[0] == 0x5C
    ensures r.Some? ==> 2 <= r.value.1 <= |t|
  {
    if |t| < 2 then None
    else if t[1] == 0x22 then Some((0x22, 2))
    else if t[1] == 0x5C then Some((0x5C, 2))
    else if t[1] == 0x2F then Some((0x2F, 2))
    else if t[1] == 0x62 then Some((0x08, 2))
    else if t[1] == 0x66 then Some((0x0C, 2))
    else if t[1] == 0x6E then Some((0x0A, 2))
    else if t[1] == 0x72 then Some((0x0D, 2))
    else if t[1] == 0x74 then Some((0x09, 2))
    else if t[1] == 0x75 then
      match Hex4(t[2..])
      case None => None
      case Some(u) =>
        if IsHighSurrogate(u) && |t| >= 12 && t[6] == 0x5C && t[7] == 0x75
           && Hex4(t[8..]).Some? && IsLowSurrogate(Hex4(t[8..]).value)
        then Some((JoinSurrogates(u, Hex4(t[8..]).value), 12))
        else Some((u, 6))
    else None
  }

  /** The characters of a string up to and including its closing quote (the
      opening quote already read). */
  function ParseStringBody(t: Text): (r: Option<Parsed<Text>>)
    ensures r.Some? ==> |r.value.rest| < |t|
    decreases |t|
  {
    if t == [] then None
    else if t[0] == 0x22 then Some(Parsed([], t[1..]))
    else if t[0] == 0x5C then
      match Unescape(t)
      case None => None
      case Some((c, n)) =>
        match ParseStringBody(t[n..])
        case None => None
        case Some(Parsed(s, rest)) => Some(Parsed([c] + s, rest))
    else if t[0] < 0x20 then None
    else
      match ParseStringBody(t[1..])
      case None => None
      case Some(Parsed(s, rest)) => Some(Parsed([t[0]] + s, rest))
  }

  /** `int(lexeme)` for an integer lexeme `-?digits`. */
  function IntegerValue(lexeme: Text): int
    requires lexeme != [] && (lexeme[0] == 0x2D ==> AllDigits(lexeme[1..]))
    requires lexeme[0] != 0x2D ==> AllDigits(lexeme)
  {
    var magnitude: int := if lexeme[0] == 0x2D then DigitsValue(lexeme[1..]) else DigitsValue(lexeme);
    if lexeme[0] == 0x2D then -magnitude else magnitude
  }

  /** The number at the front of `t`, as CPython reads it. */
  function ParseNumber(t: Text): (r: Option<Parsed<Value>>)
    ensures r.Some? ==> |r.value.rest| < |t|
  {
    match ScanNumber(t)
    case None => None
    case Some(NumberScan(n, isFloat)) =>
      if isFloat then
        ScanPrefix(t, n);
        Some(Parsed(Float(t[..n]), t[n..]))
      else
        IntegerScan(t);
        Some(Parsed(Int(IntegerValue(t[..n])), t[n..]))
  }

  /** An integer scan covers an optional minus sign and digits. */
  lemma IntegerScan(t: Text)
    requires ScanNumber(t).Some? && !ScanNumber(t).value.isFloat
    ensures var n := ScanNumber(t).value.length;
      t[..n] != [] && (t[0] == 0x2D ==> AllDigits(t[1..n])) && (t[0] != 0x2D ==> AllDigits(t[..n]))
  {
    DigitsAreDigits(t, SignLength(t));
  }

  /** `literal` at the front of `t` reads as `v`. */
  function ParseLiteral(t: Text, literal: Text, v: Value): (r: Option<Parsed<Value>>)
    requires |literal| > 0
    ensures r.Some? ==> |r.value.rest| < |t|
  {
    if |literal| <= |t| && t[..|literal|] == literal then Some(Parsed(v, t[|literal|..])) else None
  }

  /** One JSON value at the front of `t` (no whitespace before it). */
  function ParseValue(t: Text): (r: Option<Parsed<Value>>)
    ensures r.Some? ==> |r.value.rest| < |t|
    decreases |t|, 0
  {
    if t == [] then None
    else if t[0] == 0x22 then
      match ParseStringBody(t[1..])
      case None => None
      case Some(Parsed(s, rest)) => Some(Parsed(String(s), rest))
    else if t[0] == 0x7B then ParseObject(t[1..])
    else if t[0] == 0x5B then ParseArray(t[1..])
    else if t[0] == 0x6E then ParseLiteral(t, T("null"), Null)
    else if t[0] == 0x74 then ParseLiteral(t, T("true"), Bool(true))
    else if t[0] == 0x66 then ParseLiteral(t, T("false"), Bool(false))
    else if t[0] == 0x4E then ParseLiteral(t, NAN, Float(NAN))
    else if t[0] == 0x49 then ParseLiteral(t, INFINITY, Float(INFINITY))
    else if |NEG_INFINITY| <= |t| && t[..|NEG_INFINITY|] == NEG_INFINITY then Some(Parsed(Float(NEG_INFINITY), t[|NEG_INFINITY|..]))
    else ParseNumber(t)
  }

  /** An array after its `[`. */
  function ParseArray(t: Text): (r: Option<Parsed<Value>>)
    ensures r.Some? ==> |r.value.rest| < |t|
    decreases |t|, 2
  {
    var u := SkipWhitespace(t);
    if u != [] && u[0] == 0x5D then Some(Parsed(Array([]), u[1..]))
    else
      match ParseItems(u)
      case None => None
      case Some(Parsed(xs, rest)) => Some(Parsed(Array(xs), rest))
  }

  /** The items of a non-empty array and its closing `]`. */
  function ParseItems(t: Text): (r: Option<Parsed<seq<Value>>>)
    ensures r.Some? ==> |r.value.rest| < |t|
    decreases |t|, 1
  {
    match ParseValue(t)
    case None => None
    case Some(Parsed(v, after)) =>
      var u := SkipWhitespace(after);
      if u != [] && u[0] == 0x5D then Some(Parsed([v], u[1..]))
      else if u != [] && u[0] == 0x2C then
        match ParseItems(SkipWhitespace(u[1..]))
        case None => None
        case Some(Parsed(vs, rest)) => Some(Parsed([v] + vs, rest))
      else None
  }

  /** An object after its `{`; its members become a dict. */
  function ParseObject(t: Text): (r: Option<Parsed<Value>>)
    ensures r.Some? ==> |r.value.rest| < |t|
    decreases |t|, 3
  {
    var u := SkipWhitespace(t);
    if u != [] && u[0] == 0x7D then Some(Parsed(Object([]), u[1..]))
    else
      match ParseMembers(u)
      case None => None
      case Some(Parsed(ps, rest)) => Some(Parsed(Object(FromPairs(ps)), rest))
  }

  /** One `"key": value` pair of an object. */
  function ParseMember(t: Text): (r: Option<Parsed<Member>>)
    ensures r.Some? ==> |r.value.rest| < |t|
    decreases |t|, 1
  {
    if t == [] || t[0] != 0x22 then None
    else
      match ParseStringBody(t[1..])
      case None => None
      case Some(Parsed(k, afterKey)) =>
        var u := SkipWhitespace(afterKey);
        if u == [] || u[0] != 0x3A then None
        else
          match ParseValue(SkipWhitespace(u[1..]))
          case None => None
          case Some(Parsed(v, afterValue)) => Some(Parsed(Member(k, v), afterValue))
  }

  /** The pairs of a non-empty object, in the order written, and its
      closing `}`. */
  function ParseMembers(t: Text): (r: Option<Parsed<seq<Member>>>)
    ensures r.Some? ==> |r.value.rest| < |t|
    decreases |t|, 2
  {
    match ParseMember(t)
    case None => None
    case Some(Parsed(m, afterValue)) =>
      var x := SkipWhitespace(afterValue);
      if x != [] && x[0] == 0x7D then Some(Parsed([m], x[1..]))
      else if x != [] && x[0] == 0x2C then
        match ParseMembers(SkipWhitespace(x[1..]))
        case None => None
        case Some(Parsed(ms, rest)) => Some(Parsed([m] + ms, rest))
      else None
  }

  /** A whole document: one value, whitespace allowed around it, nothing else. */
  function ParseDocument(s: Text): (r: Option<Value>)
    ensures r.Some? ==> SkipWhitespace(s) != []
  {
    match ParseValue(SkipWhitespace(s))
    case None => None
    case Some(Parsed(v, rest)) => if SkipWhitespace(rest) == [] then Some(v) else None
  }

  /** `json.loads(s)` for a str `s`; a leading byte-order mark is refused. */
  function Loads(s: Text): (r: Result<Value, PyError>)
    ensures r.Err? ==> r.error == JSONDecodeError
  {
    if s != [] && s[0] == 0xFEFF then Err(JSONDecodeError)
    else
      match ParseDocument(s)
      case None => Err(JSONDecodeError)
      case Some(v) => Ok(v)
  }

  /** `json.loads(body.decode('utf-8'))`, as the proxy reads a request body:
      malformed UTF-8 raises UnicodeDecodeError, anything else that is not a
      JSON document raises JSONDecodeError. */
  function DecodeRequest(body: Utf8.Bytes): (r: Result<Value, PyError>)
    ensures r.Err? ==> r.error == UnicodeDecodeError || r.error == JSONDecodeError
    ensures r.Err? && r.error == UnicodeDecodeError <==> Utf8.Decode(body, false).None?
  {
    match Utf8.Decode(body, false)
    case None => Err(UnicodeDecodeError)
    case Some(s) => Loads(s)
  }

  const UTF8_BOM: Utf8.Bytes := [0xEF, 0xBB, 0xBF]

  /** `json.loads(r.content)`, as `Response.json()` reads an upstream reply:
      the bytes are decoded as UTF-8 with 'surrogatepass' after dropping a
      leading byte-order mark. */
  function DecodeReply(body: Utf8.Bytes): (r: Result<Value, PyError>)
    ensures r.Err? ==> r.error == UnicodeDecodeError || r.error == JSONDecodeError
  {
    var b := if |body| >= 3 && body[..3] == UTF8_BOM then body[3..] else body;
    match Utf8.Decode(b, true)
    case None => Err(UnicodeDecodeError)
    case Some(s) =>
      match ParseDocument(s)
      case None => Err(JSONDecodeError)
      case Some(v) => Ok(v)
  }
}
