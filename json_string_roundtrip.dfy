/**
 * Reading back a str that `json.dumps` wrote: every escape it produces is
 * one the decoder reads as the code point it came from, and an astral code
 * point's surrogate pair is joined again.
 */
module JsonStringRoundTrip {
  import opened Wrappers
  import opened Texts
  import opened Json
  import opened JsonDecoder
  import opened JsonEncoder

  lemma HexDigitRoundTrip(d: nat)
    requires d < 16
    ensures IsHexDigit(HexDigit(d)) && HexDigitValue(HexDigit(d)) == d
  {
  }

  /** The four digits of `Hex(n, 4)`, most significant first. */
  lemma HexFour(n: nat)
    requires n < 0x10000
    ensures Hex(n, 4) == [HexDigit(n / 4096), HexDigit(n / 256 % 16), HexDigit(n / 16 % 16), HexDigit(n % 16)]
  {
    var n1 := n / 16;
    var n2 := n1 / 16;
    var n3 := n2 / 16;
    DivDiv(n);
    assert n3 / 16 == 0;
    assert Hex(n3, 1) == [HexDigit(n3 % 16)];
    assert Hex(n2, 2) == Hex(n3, 1) + [HexDigit(n2 % 16)];
    assert Hex(n1, 3) == Hex(n2, 2) + [HexDigit(n1 % 16)];
  }

  lemma DivDiv(n: nat)
    requires n < 0x10000
    ensures n / 16 / 16 == n / 256 && n / 256 / 16 == n / 4096 && n / 4096 < 16 && n / 4096 % 16 == n / 4096
  {
  }

  /** Four hex digits put back together give the number they came from. */
  lemma HexValue(n: nat)
    requires n < 0x10000
    ensures ((n / 4096 * 16 + n / 256 % 16) * 16 + n / 16 % 16) * 16 + n % 16 == n
  {
    DivDiv(n);
    var a, b, c, d := n / 4096, n / 256 % 16, n / 16 % 16, n % 16;
    var n1, n2 := n / 16, n / 256;
    assert n == 16 * n1 + d;
    assert n1 == 16 * (n1 / 16) + n1 % 16;
    assert n2 == 16 * (n2 / 16) + n2 % 16;
    assert a * 16 + b == n2;
    assert n2 * 16 + c == n1;
    assert n1 * 16 + d == n;
  }

  /** A `\u` escape's four digits read back as the unit they were written from. */
  lemma Hex4OfHex(n: nat, more: Text)
    requires n < 0x10000
    ensures Hex4(Hex(n, 4) + more) == Some(n)
  {
    HexFour(n);
    var t := Hex(n, 4) + more;
    var a, b, c, d := n / 4096, n / 256 % 16, n / 16 % 16, n % 16;
    HexDigitRoundTrip(a);
    HexDigitRoundTrip(b);
    HexDigitRoundTrip(c);
    HexDigitRoundTrip(d);
    assert t[0] == HexDigit(a) && t[1] == HexDigit(b) && t[2] == HexDigit(c) && t[3] == HexDigit(d);
    HexValue(n);
  }

  /** `t` starts with a `\u` escape of a low surrogate. */
  predicate StartsWithLowEscape(t: Text) {
    |t| >= 6 && t[0] == 0x5C && t[1] == 0x75 && Hex4(t[2..]).Some? && IsLowSurrogate(Hex4(t[2..]).value)
  }

  /** A `\u` escape of a unit that is not a high surrogate reads as that unit. */
  lemma UnicodeEscapeRead(unit: nat, w: Text)
    requires unit < 0x10000
    requires IsHighSurrogate(unit) ==> !StartsWithLowEscape(w)
    ensures Unescape(UnicodeEscape(unit) + w) == Some((unit, 6))
  {
    var t := UnicodeEscape(unit) + w;
    assert t[2..] == Hex(unit, 4) + w;
    Hex4OfHex(unit, w);
    assert t[6..] == w;
    if |t| >= 12 {
      assert t[8..] == w[2..];
    }
  }

  /** An astral code point's UTF-16 units: a high and a low surrogate that
      join back into it. */
  lemma SurrogateSplit(c: CodePoint)
    requires c >= 0x10000
    ensures var v := c - 0x10000;
      && IsHighSurrogate(0xD800 + v / 0x400) && IsLowSurrogate(0xDC00 + v % 0x400)
      && JoinSurrogates(0xD800 + v / 0x400, 0xDC00 + v % 0x400) == c
  {
    var v := c - 0x10000;
    assert v == 0x400 * (v / 0x400) + v % 0x400;
  }

  /** The two escapes of an astral code point read back as the code point. */
  lemma AstralEscapeRead(c: CodePoint, w: Text)
    requires c >= 0x10000
    ensures Unescape(EscapeChar(c) + w) == Some((c, 12))
  {
    var v := c - 0x10000;
    var hi, lo := 0xD800 + v / 0x400, 0xDC00 + v % 0x400;
    SurrogateSplit(c);
    assert EscapeChar(c) == UnicodeEscape(hi) + UnicodeEscape(lo);
    PairEscapeRead(hi, lo, w);
    assert EscapeChar(c) + w == UnicodeEscape(hi) + UnicodeEscape(lo) + w;
  }

  lemma PairEscapeRead(hi: CodePoint, lo: CodePoint, w: Text)
    requires IsHighSurrogate(hi) && IsLowSurrogate(lo)
    ensures Unescape(UnicodeEscape(hi) + UnicodeEscape(lo) + w) == Some((JoinSurrogates(hi, lo), 12))
  {
    var t := UnicodeEscape(hi) + UnicodeEscape(lo) + w;
    assert t[2..] == Hex(hi, 4) + (UnicodeEscape(lo) + w);
    Hex4OfHex(hi, UnicodeEscape(lo) + w);
    assert t[8..] == Hex(lo, 4) + w;
    Hex4OfHex(lo, w);
    assert t[0] == 0x5C && t[1] == 0x75 && t[6] == 0x5C && t[7] == 0x75 && |t| >= 12;
    UnescapePair(t, hi, lo);
  }

  lemma UnescapePair(t: Text, hi: CodePoint, lo: CodePoint)
    requires |t| >= 12 && t[0] == 0x5C && t[1] == 0x75 && t[6] == 0x5C && t[7] == 0x75
    requires Hex4(t[2..]) == Some(hi) && Hex4(t[8..]) == Some(lo)
    requires IsHighSurrogate(hi) && IsLowSurrogate(lo)
    ensures Unescape(t) == Some((JoinSurrogates(hi, lo), 12))
  {
  }

  /** One written code point followed by the rest of a written string reads
      as the code point followed by what the rest reads as. */
  lemma CharStep(c: CodePoint, w: Text, s: Text, rest: Text)
    requires ParseStringBody(w) == Some(Parsed(s, rest))
    requires IsHighSurrogate(c) ==> !StartsWithLowEscape(w)
    ensures ParseStringBody(EscapeChar(c) + w) == Some(Parsed([c] + s, rest))
  {
    var e := EscapeChar(c);
    var t := e + w;
    if |e| == 2 {
      assert t[2..] == w;
    } else if |e| == 1 {
      assert t[1..] == w;
    } else if c < 0x10000 {
      UnicodeEscapeRead(c, w);
      assert t[6..] == w;
    } else {
      AstralEscapeRead(c, w);
      assert t[12..] == w;
    }
  }

  /** The escape of a code point that is not a low surrogate does not start
      like the escape of one. */
  lemma EscapeNotLow(c: CodePoint, w: Text)
    requires !IsLowSurrogate(c)
    ensures !StartsWithLowEscape(EscapeChar(c) + w)
  {
    var e := EscapeChar(c);
    var t := e + w;
    if |e| == 1 {
      assert t[0] == c && c != 0x5C;
    } else if |e| == 2 {
      assert t[1] == e[1] && e[1] != 0x75;
    } else if c < 0x10000 {
      assert e == UnicodeEscape(c);
      assert t[2..] == Hex(c, 4) + w;
      Hex4OfHex(c, w);
    } else {
      var v := c - 0x10000;
      var hi, lo := 0xD800 + v / 0x400, 0xDC00 + v % 0x400;
      SurrogateSplit(c);
      assert t[2..] == Hex(hi, 4) + (UnicodeEscape(lo) + w);
      Hex4OfHex(hi, UnicodeEscape(lo) + w);
    }
  }

  /** What follows the escape of a code point that is not a low surrogate is
      not a low-surrogate escape. */
  lemma NoLowEscapeAfter(s: Text, rest: Text)
    requires s == [] || !IsLowSurrogate(s[0])
    ensures !StartsWithLowEscape(EscapeChars(s) + [0x22] + rest)
  {
    if s != [] {
      var w := EscapeChars(s[1..]) + [0x22] + rest;
      EscapeNotLow(s[0], w);
      assert EscapeChars(s) + [0x22] + rest == EscapeChar(s[0]) + w;
    }
  }

  lemma EscapeCharsCons(s: Text, rest: Text)
    requires s != []
    ensures EscapeChars(s) + [0x22] + rest == EscapeChar(s[0]) + (EscapeChars(s[1..]) + [0x22] + rest)
  {
  }

  lemma NoSurrogatePairTail(s: Text)
    requires s != [] && NoSurrogatePair(s)
    ensures NoSurrogatePair(s[1..])
    ensures IsHighSurrogate(s[0]) ==> s[1..] == [] || !IsLowSurrogate(s[1])
  {
    var tail := s[1..];
    forall i | 0 <= i < |tail| - 1
      ensures !(IsHighSurrogate(tail[i]) && IsLowSurrogate(tail[i + 1]))
    {
      assert tail[i] == s[i + 1] && tail[i + 1] == s[i + 2];
    }
  }

  /** The body of a written string, its closing quote and anything after it
      read back as the string, leaving what came after. */
  lemma {:induction false} StringRoundTrip(s: Text, rest: Text)
    requires NoSurrogatePair(s)
    ensures ParseStringBody(EscapeChars(s) + [0x22] + rest) == Some(Parsed(s, rest))
  {
    if s == [] {
      assert EscapeChars(s) + [0x22] + rest == [0x22] + rest;
    } else {
      var tail := s[1..];
      NoSurrogatePairTail(s);
      StringRoundTrip(tail, rest);
      if IsHighSurrogate(s[0]) {
        NoLowEscapeAfter(tail, rest);
      }
      CharStep(s[0], EscapeChars(tail) + [0x22] + rest, tail, rest);
      EscapeCharsCons(s, rest);
      assert [s[0]] + tail == s;
    }
  }

  /** A written string literal followed by anything reads as the string. */
  lemma QuoteRoundTrip(s: Text, rest: Text)
    requires NoSurrogatePair(s)
    ensures Quote(s) + rest != [] && (Quote(s) + rest)[0] == 0x22
    ensures ParseStringBody((Quote(s) + rest)[1..]) == Some(Parsed(s, rest))
  {
    StringRoundTrip(s, rest);
    assert (Quote(s) + rest)[1..] == EscapeChars(s) + [0x22] + rest;
  }
}
