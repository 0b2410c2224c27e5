/**
 * Facts about the number grammar of `json.loads`: a number is spelled with
 * ASCII characters only, and cutting the text right after a number does not
 * change how it is read.
 */
module JsonNumberFacts {
  import opened Wrappers
  import opened Texts
  import opened JsonNumbers

  /** The characters a number can be spelled with. */
  predicate IsNumberChar(c: CodePoint) {
    IsDigit(c) || c == 0x2D || c == 0x2B || c == 0x2E || c == 0x65 || c == 0x45
  }

  /** Positions `k` up to `m` of `t` hold number characters. */
  predicate NumberCharsBetween(t: Text, k: nat, m: nat)
    requires k <= m <= |t|
  {
    forall j :: k <= j < m ==> IsNumberChar(t[j])
  }

  lemma {:induction false} DigitsAreDigits(t: Text, k: nat)
    requires k <= |t|
    ensures forall j :: k <= j < k + DigitsFrom(t, k) ==> IsDigit(t[j])
    decreases |t| - k
  {
    if k < |t| && IsDigit(t[k]) {
      DigitsAreDigits(t, k + 1);
    }
  }

  lemma CharsJoin(t: Text, a: nat, b: nat, c: nat)
    requires a <= b <= c <= |t| && NumberCharsBetween(t, a, b) && NumberCharsBetween(t, b, c)
    ensures NumberCharsBetween(t, a, c)
  {
  }

  lemma DigitsChars(t: Text, k: nat)
    requires k <= |t|
    ensures NumberCharsBetween(t, k, k + DigitsFrom(t, k))
  {
    DigitsAreDigits(t, k);
  }

  lemma IntPartChars(t: Text, k: nat, m: nat)
    requires k <= |t| && m == k + IntPartAt(t, k)
    ensures NumberCharsBetween(t, k, m)
  {
    if k < |t| && t[k] != 0x30 {
      DigitsChars(t, k);
    }
  }

  lemma FractionChars(t: Text, k: nat, m: nat)
    requires k <= |t| && m == k + FractionAt(t, k)
    ensures NumberCharsBetween(t, k, m)
  {
    if FractionAt(t, k) > 0 {
      DigitsChars(t, k + 1);
    }
  }

  lemma ExponentChars(t: Text, k: nat, m: nat)
    requires k <= |t| && m == k + ExponentAt(t, k)
    ensures NumberCharsBetween(t, k, m)
  {
    var e := ExponentAt(t, k);
    if e > 0 && IsDigit(t[k + 1]) {
      DigitsChars(t, k + 1);
      assert e == 1 + DigitsFrom(t, k + 1);
    } else if e > 0 {
      DigitsChars(t, k + 2);
      assert e == 2 + DigitsFrom(t, k + 2);
    }
  }

  /** A number scan covers number characters only. */
  lemma NumberChars(t: Text)
    requires ScanNumber(t).Some?
    ensures NumberCharsBetween(t, 0, ScanNumber(t).value.length)
  {
    var s := SignLength(t);
    var i := IntPartAt(t, s);
    var f := FractionAt(t, s + i);
    var e := ExponentAt(t, s + i + f);
    ScanParts(t, s, i, f, e);
    IntPartChars(t, s, s + i);
    FractionChars(t, s + i, s + i + f);
    ExponentChars(t, s + i + f, s + i + f + e);
    CharsJoin(t, 0, s, s + i);
    CharsJoin(t, 0, s + i, s + i + f);
    CharsJoin(t, 0, s + i + f, s + i + f + e);
  }

  /** Every float lexeme is printable ASCII. */
  lemma LexemeIsAscii(t: Lexeme)
    ensures IsPrintableAscii(t)
  {
    if t != NAN && t != INFINITY && t != NEG_INFINITY {
      NumberChars(t);
    }
  }

  /** Cutting the text after the digits leaves the digit count unchanged. */
  lemma {:induction false} DigitsPrefix(t: Text, k: nat, m: nat)
    requires k <= |t| && k + DigitsFrom(t, k) <= m <= |t|
    ensures DigitsFrom(t[..m], k) == DigitsFrom(t, k)
    decreases |t| - k
  {
    if k < |t| && IsDigit(t[k]) {
      DigitsPrefix(t, k + 1, m);
    }
  }

  lemma IntPartPrefix(t: Text, k: nat, m: nat)
    requires k <= |t| && k + IntPartAt(t, k) <= m <= |t|
    ensures IntPartAt(t[..m], k) == IntPartAt(t, k)
  {
    if k < |t| && t[k] != 0x30 {
      DigitsPrefix(t, k, m);
    }
  }

  lemma FractionPrefix(t: Text, k: nat, m: nat)
    requires k <= |t| && k + FractionAt(t, k) <= m <= |t|
    ensures FractionAt(t[..m], k) == FractionAt(t, k)
  {
    if FractionAt(t, k) > 0 {
      DigitsPrefix(t, k + 1, m);
    }
  }

  lemma ExponentPrefix(t: Text, k: nat, m: nat)
    requires k <= |t| && k + ExponentAt(t, k) <= m <= |t|
    ensures ExponentAt(t[..m], k) == ExponentAt(t, k)
  {
    if ExponentAt(t, k) > 0 {
      if IsDigit(t[k + 1]) {
        DigitsPrefix(t, k + 1, m);
      } else {
        DigitsPrefix(t, k + 2, m);
      }
    }
  }

  /** A number scan in terms of its parts, named once. */
  lemma ScanParts(u: Text, s: nat, i: nat, f: nat, e: nat)
    requires s == SignLength(u) && i == IntPartAt(u, s)
    requires s + i <= |u| && f == FractionAt(u, s + i)
    requires s + i + f <= |u| && e == ExponentAt(u, s + i + f)
    ensures ScanNumber(u) == if i == 0 then None else Some(NumberScan(s + i + f + e, f > 0 || e > 0))
  {
  }

  /** Cutting a text just after a number scan leaves the scan unchanged. */
  lemma ScanPrefix(t: Text, m: nat)
    requires ScanNumber(t).Some? && ScanNumber(t).value.length <= m <= |t|
    ensures ScanNumber(t[..m]) == ScanNumber(t)
  {
    var u := t[..m];
    var s := SignLength(t);
    var i := IntPartAt(t, s);
    var f := FractionAt(t, s + i);
    var e := ExponentAt(t, s + i + f);
    ScanParts(t, s, i, f, e);
    assert SignLength(u) == s;
    assert IntPartAt(u, s) == i by {
      IntPartPrefix(t, s, m);
    }
    assert FractionAt(u, s + i) == f by {
      FractionPrefix(t, s + i, m);
    }
    assert ExponentAt(u, s + i + f) == e by {
      ExponentPrefix(t, s + i + f, m);
    }
    ScanParts(u, s, i, f, e);
  }

}
