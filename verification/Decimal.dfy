/** Decimal text of natural numbers, as `BigInt.toString` prints it and `BigInt(text)` reads it. */
module Decimal {

  predicate IsDigit(c: char) {
    '0' <= c <= '9'
  }

  predicate AllDigits(s: string) {
    forall i :: 0 <= i < |s| ==> IsDigit(s[i])
  }

  function DigitChar(d: nat): (c: char)
    requires d < 10
    ensures IsDigit(c) && c as int - '0' as int == d
  {
    ('0' as int + d) as char
  }

  function ToDecimal(n: nat): (s: string)
    ensures |s| > 0 && AllDigits(s)
  {
    if n < 10 then [DigitChar(n)] else ToDecimal(n / 10) + [DigitChar(n % 10)]
  }

  function OfDecimal(s: string): nat
    requires AllDigits(s)
  {
    if s == "" then 0 else 10 * OfDecimal(s[..|s| - 1]) + (s[|s| - 1] as int - '0' as int)
  }

  function Pow10(k: nat): (p: nat)
    ensures p >= 1
  {
    if k == 0 then 1 else 10 * Pow10(k - 1)
  }

  /** x followed by k zeros: x * 10^k. */
  function Shifted(x: nat, k: nat): (r: nat)
    ensures x == 0 ==> r == 0
  {
    if k == 0 then x else 10 * Shifted(x, k - 1)
  }

  lemma {:induction false} ShiftedIsProduct(x: nat, k: nat)
    ensures Shifted(x, k) == x * Pow10(k)
  {
    if k > 0 {
      ShiftedIsProduct(x, k - 1);
      assert x * Pow10(k) == 10 * (x * Pow10(k - 1));
    }
  }

  /** No zero in front of another digit. */
  predicate NoLeadingZero(s: string) {
    |s| > 1 ==> s[0] != '0'
  }

  lemma {:induction false} DecimalRoundTrip(n: nat)
    ensures OfDecimal(ToDecimal(n)) == n && NoLeadingZero(ToDecimal(n)) && (ToDecimal(n)[0] == '0' ==> n == 0)
  {
    if n >= 10 {
      DecimalRoundTrip(n / 10);
      var s := ToDecimal(n);
      assert s[..|s| - 1] == ToDecimal(n / 10);
    }
  }

  lemma {:induction false} OfDecimalConcat(a: string, b: string)
    requires AllDigits(a) && AllDigits(b)
    ensures AllDigits(a + b) && OfDecimal(a + b) == Shifted(OfDecimal(a), |b|) + OfDecimal(b)
    decreases |b|
  {
    if b == "" {
      assert a + b == a;
    } else {
      var b' := b[..|b| - 1];
      OfDecimalConcat(a, b');
      assert (a + b)[..|a + b| - 1] == a + b';
    }
  }

  lemma {:induction false} OfDecimalBound(s: string)
    requires AllDigits(s)
    ensures OfDecimal(s) < Pow10(|s|)
    ensures s != "" && s[0] != '0' ==> Pow10(|s| - 1) <= OfDecimal(s)
  {
    if |s| > 1 {
      OfDecimalBound(s[..|s| - 1]);
    }
  }

  /** Text of one length is read injectively. */
  lemma {:induction false} OfDecimalInjective(a: string, b: string)
    requires AllDigits(a) && AllDigits(b) && |a| == |b| && OfDecimal(a) == OfDecimal(b)
    ensures a == b
    decreases |a|
  {
    if a != "" {
      OfDecimalInjective(a[..|a| - 1], b[..|b| - 1]);
      assert a == a[..|a| - 1] + [a[|a| - 1]] && b == b[..|b| - 1] + [b[|b| - 1]];
    }
  }

  lemma {:induction false} Pow10Monotonic(i: nat, j: nat)
    requires i <= j
    ensures Pow10(i) <= Pow10(j)
    decreases j
  {
    if i < j { Pow10Monotonic(i, j - 1); }
  }

  lemma LongerIsLarger(a: string, b: string)
    requires AllDigits(a) && AllDigits(b) && |a| < |b| && b[0] != '0'
    ensures OfDecimal(a) < OfDecimal(b)
  {
    OfDecimalBound(a);
    OfDecimalBound(b);
    Pow10Monotonic(|a|, |b| - 1);
  }

  /** A number has one decimal text without leading zeros. */
  lemma DecimalIsUnique(a: string, b: string)
    requires AllDigits(a) && AllDigits(b) && a != "" && b != "" && NoLeadingZero(a) && NoLeadingZero(b)
    requires OfDecimal(a) == OfDecimal(b)
    ensures a == b
  {
    if |a| < |b| {
      LongerIsLarger(a, b);
    } else if |b| < |a| {
      LongerIsLarger(b, a);
    } else {
      OfDecimalInjective(a, b);
    }
  }
}
