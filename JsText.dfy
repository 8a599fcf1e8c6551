/**
 * The pieces of JavaScript's number and string library that the study timer's
 * formatter relies on: `Math.floor(a / b)`, the truncating remainder `a % b`,
 * `Number.prototype.toString()` on integers and `String.prototype.padStart`,
 * together with the decimal reading of a digit string used to parse text back.
 */
module JsText {

  predicate IsDigit(c: char) {
    '0' <= c <= '9'
  }

  predicate AllDigits(s: string) {
    forall i :: 0 <= i < |s| ==> IsDigit(s[i])
  }

  function DigitChar(d: nat): (c: char)
    requires d < 10
    ensures IsDigit(c) && c as int - '0' as int == d
  {
    ('0' as int + d) as char
  }

  /** The number a string of decimal digits denotes, most significant digit first. */
  function Value(s: string): nat
    requires AllDigits(s)
  {
    PrefixValue(s, |s|)
  }

  /** The number denoted by the first `k` digits of `s`. */
  function PrefixValue(s: string, k: nat): nat
    requires AllDigits(s) && k <= |s|
  {
    if k == 0 then 0 else PrefixValue(s, k - 1) * 10 + (s[k - 1] as int - '0' as int)
  }

  /** `Math.floor(a / b)` for a positive divisor: the largest q with q * b <= a. */
  function FloorDiv(a: int, b: int): (q: int)
    requires b > 0
    ensures q * b <= a < (q + 1) * b
  {
    a / b
  }

  /**
   * JavaScript's `a % b` for a positive divisor: the remainder keeps the sign of `a`,
   * so for a negative `a` it is the negated remainder of `-a` (Dafny's `%` would be non-negative).
   */
  function Remainder(a: int, b: int): (r: int)
    requires b > 0
    ensures a >= 0 ==> 0 <= r < b
    ensures a < 0 ==> -b < r <= 0
    ensures a >= 0 ==> r == a % b
  {
    if a >= 0 then a % b else -((-a) % b)
  }

  /** Unlike Dafny's `%`, JavaScript's remainder is odd in its first operand. */
  lemma RemainderOfNegation(a: int, b: int)
    requires b > 0
    ensures Remainder(-a, b) == -Remainder(a, b)
  {
  }

  /** `n.toString()` for a non-negative integer: its decimal digits, without leading zeros. */
  function NatToString(n: nat): (r: string)
    ensures AllDigits(r) && Value(r) == n
    ensures 1 <= |r| && (|r| > 1 ==> r[0] != '0')
    ensures n < 10 ==> |r| == 1
    ensures 10 <= n < 100 ==> |r| == 2
  {
    if n < 10 then
      var r := [DigitChar(n)];
      assert PrefixValue(r, 1) == PrefixValue(r, 0) * 10 + n;
      r
    else
      var r := NatToString(n / 10) + [DigitChar(n % 10)];
      PrefixValueAgree(r, NatToString(n / 10), |r| - 1);
      r
  }

  /** `i.toString()` for any integer: a minus sign before the digits of a negative number. */
  function IntToString(i: int): (r: string)
    ensures i >= 0 ==> r == NatToString(i)
    ensures i < 0 <==> (|r| > 0 && r[0] == '-')
    ensures i < 0 ==> AllDigits(r[1..]) && Value(r[1..]) == -i
  {
    if i < 0 then "-" + NatToString(-i) else NatToString(i)
  }

  /** `s.padStart(width, [fill])`: prefix copies of `fill` until `s` is `width` long. */
  function PadStart(s: string, width: nat, fill: char): (r: string)
    ensures |r| == if |s| >= width then |s| else width
  {
    if |s| >= width then s else seq(width - |s|, _ => fill) + s
  }

  /** What `padStart` adds is only copies of the fill character, in front of the unchanged string. */
  lemma PadStartParts(s: string, width: nat, fill: char)
    ensures var r := PadStart(s, width, fill);
      r[|r| - |s|..] == s && forall i :: 0 <= i < |r| - |s| ==> r[i] == fill
  {
  }

  /** The value of a prefix depends on that prefix alone. */
  lemma {:induction false} PrefixValueAgree(s: string, t: string, k: nat)
    requires AllDigits(s) && AllDigits(t) && k <= |s| && k <= |t|
    requires forall i :: 0 <= i < k ==> s[i] == t[i]
    ensures PrefixValue(s, k) == PrefixValue(t, k)
  {
    if k > 0 {
      PrefixValueAgree(s, t, k - 1);
    }
  }

  lemma {:induction false} ZerosPrefixValue(s: string, k: nat)
    requires AllDigits(s) && k <= |s|
    requires forall i :: 0 <= i < k ==> s[i] == '0'
    ensures PrefixValue(s, k) == 0
  {
    if k > 0 {
      ZerosPrefixValue(s, k - 1);
    }
  }

  /** Leading zeros do not change the number a digit string denotes. */
  lemma {:induction false} ValueIgnoresLeadingZeros(z: string, s: string)
    requires forall i :: 0 <= i < |z| ==> z[i] == '0'
    requires AllDigits(s)
    ensures AllDigits(z + s) && Value(z + s) == Value(s)
  {
    assert AllDigits(z + s);
    ShiftedPrefixValue(z, s, |s|);
  }

  lemma {:induction false} ShiftedPrefixValue(z: string, s: string, k: nat)
    requires forall i :: 0 <= i < |z| ==> z[i] == '0'
    requires AllDigits(s) && AllDigits(z + s) && k <= |s|
    ensures PrefixValue(z + s, |z| + k) == PrefixValue(s, k)
  {
    if k == 0 {
      ZerosPrefixValue(z + s, |z|);
    } else {
      ShiftedPrefixValue(z, s, k - 1);
      assert (z + s)[|z| + k - 1] == s[k - 1];
    }
  }

  /** Zero-padding a digit string keeps it a digit string denoting the same number. */
  lemma ZeroPaddedValue(s: string, width: nat)
    requires AllDigits(s)
    ensures AllDigits(PadStart(s, width, '0'))
    ensures Value(PadStart(s, width, '0')) == Value(s)
  {
    var r := PadStart(s, width, '0');
    var z := r[..|r| - |s|];
    PadStartParts(s, width, '0');
    assert r == z + s;
    ValueIgnoresLeadingZeros(z, s);
  }
}
