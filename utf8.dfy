/**
 * UTF-8 as Python's codec handles it: `bytes.decode('utf-8')` (strict, or
 * with the 'surrogatepass' error handler that `json.loads` uses on bytes) and
 * `str.encode('utf-8')`.
 */
module Utf8 {
  import opened Wrappers
  import opened Texts

  type Byte = b: int | 0 <= b < 0x100
  type Bytes = seq<Byte>

  predicate IsContinuation(b: Byte) { 0x80 <= b <= 0xBF }

  /** The first code point of `b` and how many bytes it takes, following the
      table of well-formed UTF-8 byte sequences of the Unicode standard
      (section 3.9): no overlong forms, nothing above U+10FFFF, and no encoded
      surrogates unless `surrogatePass` (then ED A0..BF xx is accepted). */
  function DecodeFirst(b: Bytes, surrogatePass: bool): (r: Option<(CodePoint, nat)>)
    requires b != []
    ensures r.Some? ==> 1 <= r.value.1 <= 4 && r.value.1 <= |b|
    ensures r.Some? && !surrogatePass ==> !IsSurrogate(r.value.0)
  {
    var b0: int := b[0];
    if b0 < 0x80 then Some((b0, 1))
    else if 0xC2 <= b0 <= 0xDF then
      if |b| >= 2 && IsContinuation(b[1])
      then Some((Combine2(b0 - 0xC0, b[1] - 0x80), 2))
      else None
    else if 0xE0 <= b0 <= 0xEF then
      var lo := if b0 == 0xE0 then 0xA0 else 0x80;
      var hi := if b0 == 0xED && !surrogatePass then 0x9F else 0xBF;
      if |b| >= 3 && lo <= b[1] <= hi && IsContinuation(b[2])
      then Some((Combine3(b0 - 0xE0, b[1] - 0x80, b[2] - 0x80), 3))
      else None
    else if 0xF0 <= b0 <= 0xF4 then
      var lo := if b0 == 0xF0 then 0x90 else 0x80;
      var hi := if b0 == 0xF4 then 0x8F else 0xBF;
      if |b| >= 4 && lo <= b[1] <= hi && IsContinuation(b[2]) && IsContinuation(b[3])
      then Some((Combine4(b0 - 0xF0, b[1] - 0x80, b[2] - 0x80, b[3] - 0x80), 4))
      else None
    else None
  }

  /** The code point carried by a lead payload and one, two or three 6-bit continuation payloads. */
  function Combine2(x: nat, y: nat): int requires y < 0x40 { x * 0x40 + y }
  function Combine3(x: nat, y: nat, z: nat): int requires y < 0x40 && z < 0x40 { x * 0x1000 + y * 0x40 + z }
  function Combine4(w: nat, x: nat, y: nat, z: nat): int requires x < 0x40 && y < 0x40 && z < 0x40 {
    w * 0x40000 + x * 0x1000 + y * 0x40 + z
  }

  /** `b.decode('utf-8')` (or with 'surrogatepass'): `None` is the
      UnicodeDecodeError raised on a malformed sequence. */
  function Decode(b: Bytes, surrogatePass: bool): (r: Option<Text>)
    ensures r.Some? ==> |r.value| <= |b|
    ensures r.Some? && !surrogatePass ==> NoSurrogates(r.value)
    decreases |b|
  {
    if b == [] then Some([])
    else
      match DecodeFirst(b, surrogatePass)
      case None => None
      case Some((c, n)) =>
        match Decode(b[n..], surrogatePass)
        case None => None
        case Some(t) => Some([c] + t)
  }

  /** The UTF-8 bytes of one code point that is not a surrogate. */
  function EncodeChar(c: CodePoint): (r: Bytes)
    requires !IsSurrogate(c)
  {
    if c < 0x80 then [c]
    else if c < 0x800 then [0xC0 + c / 0x40, 0x80 + c % 0x40]
    else if c < 0x10000 then [0xE0 + c / 0x1000, 0x80 + (c / 0x40) % 0x40, 0x80 + c % 0x40]
    else [0xF0 + c / 0x40000, 0x80 + (c / 0x1000) % 0x40, 0x80 + (c / 0x40) % 0x40, 0x80 + c % 0x40]
  }

  /** `t.encode('utf-8')`; Python raises on a lone surrogate, so none may occur. */
  function Encode(t: Text): Bytes
    requires NoSurrogates(t)
  {
    if t == [] then [] else EncodeChar(t[0]) + Encode(t[1..])
  }

  /** Decoding the encoding of a code point reads exactly that code point. */
  lemma DecodeFirstOfEncodeChar(c: CodePoint, rest: Bytes, surrogatePass: bool)
    requires !IsSurrogate(c)
    ensures DecodeFirst(EncodeChar(c) + rest, surrogatePass) == Some((c, |EncodeChar(c)|))
  {
    if c < 0x80 {
    } else if c < 0x800 {
      DecodeTwo(c, rest, surrogatePass);
    } else if c < 0x10000 {
      DecodeThree(c, rest, surrogatePass);
    } else {
      DecodeFour(c, rest, surrogatePass);
    }
  }

  lemma DecodeTwo(c: CodePoint, rest: Bytes, surrogatePass: bool)
    requires 0x80 <= c < 0x800
    ensures DecodeFirst(EncodeChar(c) + rest, surrogatePass) == Some((c, 2))
  {
    var x, y := c / 0x40, c % 0x40;
    assert c == Combine2(x, y);
    var b := EncodeChar(c) + rest;
    assert b[0] == 0xC0 + x && b[1] == 0x80 + y;
  }

  lemma DecodeThree(c: CodePoint, rest: Bytes, surrogatePass: bool)
    requires 0x800 <= c < 0x10000 && !IsSurrogate(c)
    ensures DecodeFirst(EncodeChar(c) + rest, surrogatePass) == Some((c, 3))
  {
    var x, y, z := c / 0x1000, c / 0x40 % 0x40, c % 0x40;
    assert c == Combine3(x, y, z) by {
      assert c == (c / 0x40) * 0x40 + z;
      assert c / 0x40 == x * 0x40 + y;
    }
    var b := EncodeChar(c) + rest;
    assert b[0] == 0xE0 + x && b[1] == 0x80 + y && b[2] == 0x80 + z;
    assert x == 0 ==> y >= 0x20;
    assert x == 0xD ==> y < 0x20;
  }

  lemma DecodeFour(c: CodePoint, rest: Bytes, surrogatePass: bool)
    requires 0x10000 <= c
    ensures DecodeFirst(EncodeChar(c) + rest, surrogatePass) == Some((c, 4))
  {
    var w, x, y, z := c / 0x40000, c / 0x1000 % 0x40, c / 0x40 % 0x40, c % 0x40;
    assert c == Combine4(w, x, y, z) by {
      assert c == (c / 0x40) * 0x40 + z;
      assert c / 0x40 == (c / 0x1000) * 0x40 + y;
      assert c / 0x1000 == w * 0x40 + x;
    }
    var b := EncodeChar(c) + rest;
    assert b[0] == 0xF0 + w && b[1] == 0x80 + x && b[2] == 0x80 + y && b[3] == 0x80 + z;
    assert w == 0 ==> x >= 0x10;
    assert w == 4 ==> x < 0x10;
  }

  /** A well-formed first sequence is the encoding of the code point it decodes to. */
  lemma EncodeCharOfDecodeFirst(b: Bytes)
    requires b != [] && DecodeFirst(b, false).Some?
    ensures !IsSurrogate(DecodeFirst(b, false).value.0)
    ensures EncodeChar(DecodeFirst(b, false).value.0) == b[..DecodeFirst(b, false).value.1]
  {
    var b0: int := b[0];
    if 0xC2 <= b0 <= 0xDF {
      DivMod2(b0 - 0xC0, b[1] - 0x80);
    } else if 0xE0 <= b0 <= 0xEF {
      DivMod3(b0 - 0xE0, b[1] - 0x80, b[2] - 0x80);
    } else if 0xF0 <= b0 <= 0xF4 {
      DivMod4(b0 - 0xF0, b[1] - 0x80, b[2] - 0x80, b[3] - 0x80);
    }
  }

  lemma DivMod2(x: nat, y: nat)
    requires y < 0x40
    ensures Combine2(x, y) / 0x40 == x && Combine2(x, y) % 0x40 == y
  {
  }

  lemma DivMod3(x: nat, y: nat, z: nat)
    requires y < 0x40 && z < 0x40
    ensures Combine3(x, y, z) / 0x1000 == x
    ensures Combine3(x, y, z) / 0x40 % 0x40 == y && Combine3(x, y, z) % 0x40 == z
  {
    var c := Combine3(x, y, z);
    assert c == (x * 0x40 + y) * 0x40 + z;
    DivMod2(x * 0x40 + y, z);
    DivMod2(x, y);
  }

  lemma DivMod4(w: nat, x: nat, y: nat, z: nat)
    requires x < 0x40 && y < 0x40 && z < 0x40
    ensures Combine4(w, x, y, z) / 0x40000 == w
    ensures Combine4(w, x, y, z) / 0x1000 % 0x40 == x
    ensures Combine4(w, x, y, z) / 0x40 % 0x40 == y && Combine4(w, x, y, z) % 0x40 == z
  {
    var c := Combine4(w, x, y, z);
    assert c == ((w * 0x40 + x) * 0x40 + y) * 0x40 + z;
    DivMod3(w * 0x40 + x, y, z);
    assert c / 0x1000 == w * 0x40 + x;
    DivMod2(w, x);
  }

  lemma EncodeCons(t: Text, head: Bytes, tail: Bytes)
    requires t != [] && NoSurrogates(t) && head == EncodeChar(t[0]) && tail == Encode(t[1..])
    ensures Encode(t) == head + tail
  {
  }

  /** Strict decoding undoes encoding. */
  lemma {:induction false} DecodeEncode(t: Text)
    requires NoSurrogates(t)
    ensures Decode(Encode(t), false) == Some(t)
  {
    if t != [] {
      var e := EncodeChar(t[0]);
      DecodeFirstOfEncodeChar(t[0], Encode(t[1..]), false);
      assert (e + Encode(t[1..]))[|e|..] == Encode(t[1..]);
      DecodeEncode(t[1..]);
      assert [t[0]] + t[1..] == t;
    }
  }

  /** Strict decoding succeeds only on the encoding of its result, so for
      every byte string `b` and text `t`: `b` decodes to `t` exactly when `b`
      is the encoding of `t`. */
  lemma {:induction false} EncodeDecode(b: Bytes)
    requires Decode(b, false).Some?
    ensures Encode(Decode(b, false).value) == b
    decreases |b|
  {
    if b != [] {
      var (c, n) := DecodeFirst(b, false).value;
      var t := Decode(b, false).value;
      assert t[0] == c && t[1..] == Decode(b[n..], false).value;
      EncodeCharOfDecodeFirst(b);
      EncodeDecode(b[n..]);
      EncodeCons(t, EncodeChar(c), b[n..]);
      assert b == b[..n] + b[n..];
    }
  }

  /** Printable ASCII text encodes to the same numbers, one byte each. */
  lemma {:induction false} EncodeAscii(t: Text)
    requires IsPrintableAscii(t)
    ensures NoSurrogates(t)
    ensures Encode(t) == t
  {
    if t != [] {
      assert IsPrintableAscii(t[1..]);
      EncodeAscii(t[1..]);
    }
  }
}
