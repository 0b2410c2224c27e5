/**
 * The number grammar of `json.loads`: which texts it reads as numbers, how
 * much of a text a number takes, and which of them are floats. The scanner
 * works on positions in one text, as CPython's does.
 */
module JsonNumbers {
  import opened Wrappers
  import opened Texts

  /** The special float spellings `json.loads` accepts. */
  const NAN: Text := T("NaN")
  const INFINITY: Text := T("Infinity")
  const NEG_INFINITY: Text := T("-Infinity")

  /** How many digits follow position `k` of `t`, from `k` on. */
  function DigitsFrom(t: Text, k: nat): (n: nat)
    requires k <= |t|
    ensures k + n <= |t|
    ensures k + n < |t| ==> !IsDigit(t[k + n])
    decreases |t| - k
  {
    if k < |t| && IsDigit(t[k]) then 1 + DigitsFrom(t, k + 1) else 0
  }

  /** Integer digits at `k`: a single `0`, or a non-zero digit and the digits after it. */
  function IntPartAt(t: Text, k: nat): (n: nat)
    requires k <= |t|
    ensures k + n <= |t|
  {
    if k == |t| then 0
    else if t[k] == 0x30 then 1
    else DigitsFrom(t, k)
  }

  /** A fraction at `k`: `.` followed by at least one digit. */
  function FractionAt(t: Text, k: nat): (n: nat)
    requires k <= |t|
    ensures k + n <= |t|
  {
    if k + 1 < |t| && t[k] == 0x2E && IsDigit(t[k + 1]) then 1 + DigitsFrom(t, k + 1) else 0
  }

  /** An exponent at `k`: `e` or `E`, an optional sign, at least one digit. */
  function ExponentAt(t: Text, k: nat): (n: nat)
    requires k <= |t|
    ensures k + n <= |t|
  {
    if k + 1 < |t| && (t[k] == 0x65 || t[k] == 0x45) then
      if IsDigit(t[k + 1]) then 1 + DigitsFrom(t, k + 1)
      else if k + 2 < |t| && (t[k + 1] == 0x2B || t[k + 1] == 0x2D) && IsDigit(t[k + 2]) then 2 + DigitsFrom(t, k + 2)
      else 0
    else 0
  }

  /** How much of `t` a number occupies and whether it has a fraction or an exponent. */
  datatype NumberScan = NumberScan(length: nat, isFloat: bool)

  /** The length of the minus sign `t` starts with: 1 or 0. */
  function SignLength(t: Text): (n: nat)
    ensures n <= 1 && n <= |t|
  {
    if t != [] && t[0] == 0x2D then 1 else 0
  }

  /** The longest number `json.loads` reads at the start of `t`
      (`-?(0|[1-9][0-9]*)(\.[0-9]+)?([eE][-+]?[0-9]+)?`), if any. */
  function ScanNumber(t: Text): (r: Option<NumberScan>)
    ensures r.Some? ==> 0 < r.value.length <= |t|
  {
    var s := SignLength(t);
    var i := IntPartAt(t, s);
    if i == 0 then None
    else
      var f := FractionAt(t, s + i);
      var e := ExponentAt(t, s + i + f);
      Some(NumberScan(s + i + f + e, f > 0 || e > 0))
  }

  /** A text that `json.loads` reads as a float, in full. */
  predicate IsFloatLexeme(t: Text) {
    t == NAN || t == INFINITY || t == NEG_INFINITY || ScanNumber(t) == Some(NumberScan(|t|, true))
  }

  /** The spelling of a float. */
  type Lexeme = t: Text | IsFloatLexeme(t) witness [0x4E, 0x61, 0x4E]
}
