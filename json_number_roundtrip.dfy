/**
 * Reading back a number that `json.dumps` wrote: `str(n)` of an int reads as
 * that int, and a float's spelling reads as the same float, as long as what
 * follows cannot continue the number.
 */
module JsonNumberRoundTrip {
  import opened Wrappers
  import opened Texts
  import opened JsonNumbers
  import opened JsonNumberFacts
  import opened Json
  import opened JsonDecoder

  /** `rest` cannot extend a number written before it. */
  predicate EndsNumber(rest: Text) {
    rest == [] || !IsNumberChar(rest[0])
  }

  lemma {:induction false} DigitsExtend(t: Text, rest: Text, k: nat)
    requires k <= |t| && EndsNumber(rest)
    ensures DigitsFrom(t + rest, k) == DigitsFrom(t, k)
    decreases |t| - k
  {
    if k < |t| {
      assert (t + rest)[k] == t[k];
      if IsDigit(t[k]) {
        DigitsExtend(t, rest, k + 1);
      }
    } else if rest != [] {
      assert (t + rest)[k] == rest[0];
    }
  }

  lemma IntPartExtend(t: Text, rest: Text, k: nat)
    requires k <= |t| && EndsNumber(rest)
    ensures IntPartAt(t + rest, k) == IntPartAt(t, k)
  {
    DigitsExtend(t, rest, k);
    if k < |t| {
      assert (t + rest)[k] == t[k];
    } else if rest != [] {
      assert (t + rest)[k] == rest[0];
    }
  }

  lemma FractionExtend(t: Text, rest: Text, k: nat)
    requires k <= |t| && EndsNumber(rest)
    ensures FractionAt(t + rest, k) == FractionAt(t, k)
  {
    var u := t + rest;
    if k + 1 < |t| {
      assert u[k] == t[k] && u[k + 1] == t[k + 1];
      DigitsExtend(t, rest, k + 1);
    } else if k + 1 == |t| {
      if rest != [] {
        assert u[k + 1] == rest[0];
      }
    } else if rest != [] {
      assert u[k] == rest[0];
    }
  }

  lemma ExponentExtend(t: Text, rest: Text, k: nat)
    requires k <= |t| && EndsNumber(rest)
    ensures ExponentAt(t + rest, k) == ExponentAt(t, k)
  {
    var u := t + rest;
    if k + 2 < |t| {
      assert u[k] == t[k] && u[k + 1] == t[k + 1] && u[k + 2] == t[k + 2];
      DigitsExtend(t, rest, k + 1);
      DigitsExtend(t, rest, k + 2);
    } else if k + 2 == |t| {
      assert u[k] == t[k] && u[k + 1] == t[k + 1];
      DigitsExtend(t, rest, k + 1);
      if rest != [] {
        assert u[k + 2] == rest[0];
      }
    } else if k + 1 == |t| {
      if rest != [] {
        assert u[k + 1] == rest[0];
      }
    } else if rest != [] {
      assert u[k] == rest[0];
    }
  }

  /** A number is read the same whatever comes after it, unless that could
      continue it. */
  lemma ScanExtend(t: Text, rest: Text)
    requires EndsNumber(rest)
    ensures ScanNumber(t + rest) == ScanNumber(t)
  {
    var u := t + rest;
    var s := SignLength(t);
    var i := IntPartAt(t, s);
    var f := FractionAt(t, s + i);
    var e := ExponentAt(t, s + i + f);
    assert SignLength(u) == s by {
      if t != [] {
        assert u[0] == t[0];
      } else if rest != [] {
        assert u[0] == rest[0];
      }
    }
    assert IntPartAt(u, s) == i by {
      IntPartExtend(t, rest, s);
    }
    assert FractionAt(u, s + i) == f by {
      FractionExtend(t, rest, s + i);
    }
    assert ExponentAt(u, s + i + f) == e by {
      ExponentExtend(t, rest, s + i + f);
    }
    ScanParts(t, s, i, f, e);
    ScanParts(u, s, i, f, e);
  }


  /** A run of digits from `k` to a non-digit or the end is counted in full. */
  lemma {:induction false} DigitsRun(t: Text, k: nat)
    requires k <= |t| && AllDigits(t[k..])
    ensures DigitsFrom(t, k) == |t| - k
    decreases |t| - k
  {
    if k < |t| {
      assert t[k] == t[k..][0];
      assert t[k + 1..] == t[k..][1..];
      DigitsRun(t, k + 1);
    }
  }

  /** `str(n)` scans as an int lexeme that spans all of it. */
  lemma DecimalScan(n: int)
    ensures ScanNumber(IntToDecimal(n)) == Some(NumberScan(|IntToDecimal(n)|, false))
  {
    var d := IntToDecimal(n);
    var m := if n < 0 then -n else n;
    var digits := NatToDecimal(m);
    var s := if n < 0 then 1 else 0;
    assert d == if n < 0 then [0x2D] + digits else digits;
    assert d[s..] == digits;
    assert SignLength(d) == s;
    if d[s] == 0x30 {
      assert digits[0] == 0x30;
      assert IntPartAt(d, s) == 1;
    } else {
      DigitsRun(d, s);
    }
    assert IntPartAt(d, s) == |d| - s;
  }

  /** The last two cases of the value reader: `-Infinity` or a number. */
  lemma ReadsAsNumberOrNegInfinity(t: Text)
    requires t != [] && t[0] != 0x22 && t[0] != 0x7B && t[0] != 0x5B && t[0] != 0x6E
    requires t[0] != 0x74 && t[0] != 0x66 && t[0] != 0x4E && t[0] != 0x49
    requires !(9 <= |t| && t[..9] == NEG_INFINITY)
    ensures ParseValue(t) == ParseNumber(t)
  {
    assert |NEG_INFINITY| == 9;
  }

  /** A text starting with a digit is read by the number scanner. */
  lemma ReadsAsNumberDigit(t: Text)
    requires t != [] && IsDigit(t[0])
    ensures ParseValue(t) == ParseNumber(t)
  {
    assert NEG_INFINITY[0] == 0x2D;
    if 9 <= |t| {
      assert t[..9][0] == t[0];
    }
    ReadsAsNumberOrNegInfinity(t);
  }

  /** A text starting with a minus sign and a digit is read by the number scanner. */
  lemma ReadsAsNumberMinus(t: Text)
    requires |t| >= 2 && t[0] == 0x2D && IsDigit(t[1])
    ensures ParseValue(t) == ParseNumber(t)
  {
    assert NEG_INFINITY[1] == 0x49;
    if 9 <= |t| {
      assert t[..9][1] == t[1];
    }
    ReadsAsNumberOrNegInfinity(t);
  }

  lemma ReadsAsNumber(t: Text)
    requires t != [] && (IsDigit(t[0]) || (t[0] == 0x2D && |t| >= 2 && IsDigit(t[1])))
    ensures ParseValue(t) == ParseNumber(t)
  {
    if IsDigit(t[0]) {
      ReadsAsNumberDigit(t);
    } else {
      ReadsAsNumberMinus(t);
    }
  }

  /** A scanned int lexeme `d` at the front of `t` reads as its value. */
  lemma ReadInt(t: Text, d: Text, n: int, rest: Text)
    requires ScanNumber(t) == Some(NumberScan(|d|, false))
    requires t[..|d|] == d && t[|d|..] == rest
    requires d != [] && (d[0] == 0x2D ==> AllDigits(d[1..])) && (d[0] != 0x2D ==> AllDigits(d))
    requires IntegerValue(d) == n
    requires IsDigit(d[0]) || (d[0] == 0x2D && |d| >= 2 && IsDigit(d[1]))
    ensures ParseValue(t) == Some(Parsed(Int(n), rest))
  {
    assert t[0] == d[0];
    if d[0] == 0x2D {
      assert t[1] == d[1];
    }
    ReadsAsNumber(t);
  }

  /** A scanned float lexeme at the front of `t` reads as that float. */
  lemma ReadFloat(t: Text, lexeme: Lexeme, rest: Text)
    requires ScanNumber(t) == Some(NumberScan(|lexeme|, true))
    requires t[..|lexeme|] == lexeme && t[|lexeme|..] == rest
    requires IsDigit(lexeme[0]) || (lexeme[0] == 0x2D && |lexeme| >= 2 && IsDigit(lexeme[1]))
    ensures ParseValue(t) == Some(Parsed(Float(lexeme), rest))
  {
    assert t[0] == lexeme[0];
    if lexeme[0] == 0x2D {
      assert t[1] == lexeme[1];
    }
    ReadsAsNumber(t);
  }

  /** An `int` written by `json.dumps`, followed by anything that does not
      continue it, reads back as the same int. */
  lemma IntRoundTrip(n: int, rest: Text)
    requires EndsNumber(rest)
    ensures ParseValue(IntToDecimal(n) + rest) == Some(Parsed(Int(n), rest))
  {
    var d := IntToDecimal(n);
    var t := d + rest;
    var m := if n < 0 then -n else n;
    var digits := NatToDecimal(m);
    assert d == if n < 0 then [0x2D] + digits else digits;
    assert ScanNumber(t) == Some(NumberScan(|d|, false)) by {
      DecimalScan(n);
      ScanExtend(d, rest);
    }
    assert t[..|d|] == d && t[|d|..] == rest;
    if n < 0 {
      assert d[1..] == digits;
    }
    assert IntegerValue(d) == n;
    ReadInt(t, d, n, rest);
  }

  /** A float spelling that is a number, not NaN or an infinity, starts with a
      minus sign followed by a digit or with a digit. */
  lemma NumberLexemeStart(t: Text)
    requires ScanNumber(t).Some?
    ensures IsDigit(t[0]) || (t[0] == 0x2D && |t| >= 2 && IsDigit(t[1]))
  {
  }

  /** A float, written as its lexeme and followed by anything that does not
      continue it, reads back as the same float. */
  lemma FloatRoundTrip(lexeme: Lexeme, rest: Text)
    requires EndsNumber(rest)
    ensures ParseValue(lexeme + rest) == Some(Parsed(Float(lexeme), rest))
  {
    var t := lexeme + rest;
    assert t[..|lexeme|] == lexeme && t[|lexeme|..] == rest;
    if lexeme == NAN || lexeme == INFINITY || lexeme == NEG_INFINITY {
      assert t[0] == lexeme[0];
    } else {
      NumberLexemeStart(lexeme);
      ScanExtend(lexeme, rest);
      ReadFloat(t, lexeme, rest);
    }
  }
}
