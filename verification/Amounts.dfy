/** Exact sums of 18-decimal amounts kept as text. Values are counted in units of 10^-18. */
module Amounts {
  import opened Options
  import opened Decimal
  import opened JsText
  import opened Sums

  const PLACES := 18
  const ZEROS18 := "000000000000000000"

  // ---- Reading an amount ------------------------------------------------------------------------

  datatype Parts = Parts(whole: string, fraction: Option<string>)

  /** The text before and after the first point. */
  function SplitPoint(s: string): (p: Parts)
    ensures s == p.whole + if p.fraction.Some? then "." + p.fraction.value else ""
  {
    if s == "" then Parts("", None)
    else if s[0] == '.' then Parts("", Some(s[1..]))
    else
      var rest := SplitPoint(s[1..]);
      Parts([s[0]] + rest.whole, rest.fraction)
  }

  /** digits, optionally followed by a point and one to eighteen digits. */
  predicate WellFormed(p: Parts) {
    && p.whole != "" && AllDigits(p.whole)
    && (p.fraction.Some? ==> 1 <= |p.fraction.value| <= PLACES && AllDigits(p.fraction.value))
  }

  predicate IsAmount(input: string) {
    WellFormed(SplitPoint(Trim(input)))
  }

  /** The amount a text means. */
  ghost function UnitsOf(input: string): nat
    requires IsAmount(input)
  {
    var p := SplitPoint(Trim(input));
    var fraction := p.fraction.GetOr("");
    Shifted(OfDecimal(p.whole), PLACES) + Shifted(OfDecimal(fraction), PLACES - |fraction|)
  }

  function StripZeros(s: string): string {
    if |s| > 1 && s[0] == '0' then StripZeros(s[1..]) else s
  }

  /** Zero-padded on the right to exactly 18 digits. */
  function PadFraction(fraction: string): string
    requires |fraction| <= PLACES
  {
    (fraction + ZEROS18)[..PLACES]
  }

  function CanonicalAmount(input: string): Result<string> {
    var p := SplitPoint(Trim(input));
    if !WellFormed(p) then Refused
    else Ok(StripZeros(p.whole) + "." + PadFraction(p.fraction.GetOr("")))
  }

  // ---- Canonical amounts ------------------------------------------------------------------------

  function Whole(s: string): string
    requires |s| > PLACES
  {
    s[..|s| - PLACES - 1]
  }

  function Fraction(s: string): string
    requires |s| > PLACES
  {
    s[|s| - PLACES..]
  }

  /** Exactly 18 fraction digits and no superfluous leading zero. */
  predicate IsCanonical(s: string) {
    && |s| > PLACES + 1 && s[|s| - PLACES - 1] == '.'
    && AllDigits(Whole(s)) && NoLeadingZero(Whole(s)) && AllDigits(Fraction(s))
  }

  ghost function CanonicalUnits(s: string): nat
    requires IsCanonical(s)
  {
    Shifted(OfDecimal(Whole(s)), PLACES) + OfDecimal(Fraction(s))
  }

  lemma CanonicalParts(whole: string, fraction: string)
    requires AllDigits(whole) && whole != "" && NoLeadingZero(whole) && AllDigits(fraction) && |fraction| == PLACES
    ensures IsCanonical(whole + "." + fraction)
    ensures Whole(whole + "." + fraction) == whole && Fraction(whole + "." + fraction) == fraction
  {
  }

  lemma QuotientIsUnique(a: nat, b: nat, c: nat, d: nat, k: nat)
    requires b < Pow10(k) && d < Pow10(k) && Shifted(a, k) + b == Shifted(c, k) + d
    ensures a == c && b == d
  {
    ShiftedIsProduct(a, k);
    ShiftedIsProduct(c, k);
    MultiplesAreFar(a, c, Pow10(k));
    MultiplesAreFar(c, a, Pow10(k));
  }

  lemma MultiplesAreFar(a: nat, c: nat, m: nat)
    requires m > 0
    ensures a < c ==> a * m + m <= c * m
  {
    if a < c {
      var d: nat := c - a - 1;
      assert c * m == (a + 1 + d) * m == a * m + m + d * m;
      assert d * m >= 0;
    }
  }

  /** Canonical text and value determine each other. */
  lemma CanonicalIsUnique(a: string, b: string)
    requires IsCanonical(a) && IsCanonical(b)
    ensures CanonicalUnits(a) == CanonicalUnits(b) <==> a == b
  {
    if CanonicalUnits(a) == CanonicalUnits(b) {
      OfDecimalBound(Fraction(a));
      OfDecimalBound(Fraction(b));
      QuotientIsUnique(OfDecimal(Whole(a)), OfDecimal(Fraction(a)), OfDecimal(Whole(b)), OfDecimal(Fraction(b)), PLACES);
      DecimalIsUnique(Whole(a), Whole(b));
      OfDecimalInjective(Fraction(a), Fraction(b));
      CanonicalReassembles(a);
      CanonicalReassembles(b);
    }
  }

  lemma CanonicalReassembles(s: string)
    requires IsCanonical(s)
    ensures s == Whole(s) + "." + Fraction(s)
  {
  }

  // ---- canonicalAmount keeps the value ----------------------------------------------------------

  lemma {:induction false} StripZerosKeepsValue(s: string)
    requires s != "" && AllDigits(s)
    ensures AllDigits(StripZeros(s)) && StripZeros(s) != "" && NoLeadingZero(StripZeros(s))
    ensures OfDecimal(StripZeros(s)) == OfDecimal(s)
  {
    if |s| > 1 && s[0] == '0' {
      StripZerosKeepsValue(s[1..]);
      OfDecimalConcat(s[..1], s[1..]);
      assert s == s[..1] + s[1..];
      assert OfDecimal(s[..1]) == 0 by { assert s[..1][..0] == ""; }
    }
  }

  lemma {:induction false} ZerosAreZero(k: nat)
    requires k <= PLACES
    ensures AllDigits(ZEROS18[..k]) && OfDecimal(ZEROS18[..k]) == 0
  {
    if k > 0 {
      ZerosAreZero(k - 1);
      assert ZEROS18[..k][..k - 1] == ZEROS18[..k - 1];
    }
  }

  lemma PadFractionScales(fraction: string)
    requires |fraction| <= PLACES && AllDigits(fraction)
    ensures |PadFraction(fraction)| == PLACES && AllDigits(PadFraction(fraction))
    ensures OfDecimal(PadFraction(fraction)) == Shifted(OfDecimal(fraction), PLACES - |fraction|)
  {
    var zeros := ZEROS18[..PLACES - |fraction|];
    ZerosAreZero(PLACES - |fraction|);
    assert PadFraction(fraction) == fraction + zeros;
    OfDecimalConcat(fraction, zeros);
  }

  /** Accepts exactly the well-formed amounts, and prints their value canonically. */
  lemma CanonicalAmountKeepsValue(input: string)
    ensures CanonicalAmount(input).Ok? <==> IsAmount(input)
    ensures IsAmount(input) ==>
      IsCanonical(CanonicalAmount(input).value) && CanonicalUnits(CanonicalAmount(input).value) == UnitsOf(input)
  {
    if IsAmount(input) {
      var p := SplitPoint(Trim(input));
      StripZerosKeepsValue(p.whole);
      PadFractionScales(p.fraction.GetOr(""));
      CanonicalParts(StripZeros(p.whole), PadFraction(p.fraction.GetOr("")));
    }
  }

  // ---- The sum ----------------------------------------------------------------------------------

  ghost function UnitsOrZero(input: string): nat {
    if IsAmount(input) then UnitsOf(input) else 0
  }

  ghost function TotalUnits(amounts: seq<string>): nat {
    SumBy(UnitsOrZero, amounts)
  }

  function PadStart18(s: string): string {
    if |s| < PLACES then ZEROS18[..PLACES - |s|] + s else s
  }

  /** The number of units printed with a point before its last 18 digits. */
  function PrintUnits(acc: nat): string {
    var s := ToDecimal(acc);
    var fraction := if |s| > PLACES then s[|s| - PLACES..] else PadStart18(s);
    var whole := if |s| > PLACES then s[..|s| - PLACES] else "0";
    StripZeros(whole) + "." + fraction
  }

  lemma PaddingKeepsValue(s: string)
    requires |s| <= PLACES && AllDigits(s)
    ensures |PadStart18(s)| == PLACES && AllDigits(PadStart18(s)) && OfDecimal(PadStart18(s)) == OfDecimal(s)
  {
    var zeros := ZEROS18[..PLACES - |s|];
    ZerosAreZero(PLACES - |s|);
    OfDecimalConcat(zeros, s);
    assert PadStart18(s) == zeros + s;
  }

  lemma CuttingKeepsValue(whole: string, fraction: string)
    requires whole != "" && |fraction| == PLACES && AllDigits(whole + fraction)
    ensures
      var s := StripZeros(whole) + "." + fraction;
      IsCanonical(s) && CanonicalUnits(s) == OfDecimal(whole + fraction)
  {
    assert (whole + fraction)[..|whole|] == whole && (whole + fraction)[|whole|..] == fraction;
    OfDecimalConcat(whole, fraction);
    StripZerosKeepsValue(whole);
    CanonicalParts(StripZeros(whole), fraction);
  }

  /** The printed units are canonical and keep their number, on both sides of 18 digits. */
  lemma PrintUnitsIsCanonical(acc: nat)
    ensures IsCanonical(PrintUnits(acc)) && CanonicalUnits(PrintUnits(acc)) == acc
  {
    var s := ToDecimal(acc);
    DecimalRoundTrip(acc);
    if |s| > PLACES {
      CuttingKeepsValue(s[..|s| - PLACES], s[|s| - PLACES..]);
      assert s == s[..|s| - PLACES] + s[|s| - PLACES..];
    } else {
      PaddingKeepsValue(s);
      CanonicalParts("0", PadStart18(s));
    }
  }

  /** Refused when any amount is; otherwise the canonical text of the exact sum. */
  method SumCanonicalAmounts(amounts: seq<string>) returns (r: Result<string>)
    ensures r.Ok? <==> forall i :: 0 <= i < |amounts| ==> IsAmount(amounts[i])
    ensures r.Ok? ==> IsCanonical(r.value) && CanonicalUnits(r.value) == TotalUnits(amounts)
  {
    var acc: nat := 0;
    for i := 0 to |amounts|
      invariant forall j :: 0 <= j < i ==> IsAmount(amounts[j])
      invariant acc == TotalUnits(amounts[..i])
    {
      CanonicalAmountKeepsValue(amounts[i]);
      var c := CanonicalAmount(amounts[i]);
      if c.Refused? { return Refused; }
      var whole, fraction := Whole(c.value), Fraction(c.value);
      acc := acc + Shifted(OfDecimal(whole), PLACES) + OfDecimal(fraction);
      assert amounts[..i + 1][..i] == amounts[..i];
    }
    assert amounts[..|amounts|] == amounts;
    PrintUnitsIsCanonical(acc);
    return Ok(PrintUnits(acc));
  }

  // ---- Order and grouping -----------------------------------------------------------------------

  /** Any two answers for the same amounts in any order are the same text. */
  lemma SumIgnoresOrder(a: seq<string>, b: seq<string>, sumA: string, sumB: string)
    requires multiset(a) == multiset(b)
    requires IsCanonical(sumA) && CanonicalUnits(sumA) == TotalUnits(a)
    requires IsCanonical(sumB) && CanonicalUnits(sumB) == TotalUnits(b)
    ensures sumA == sumB
  {
    SumIsOrderFree(UnitsOrZero, a, b);
    CanonicalIsUnique(sumA, sumB);
  }

  lemma CanonicalSplits(s: string)
    requires IsCanonical(s)
    ensures SplitPoint(Trim(s)) == Parts(Whole(s), Some(Fraction(s)))
  {
    TrimIsIdle(s);
    SplitPointFinds(Whole(s), Fraction(s));
    assert s == Whole(s) + "." + Fraction(s);
  }

  /** A canonical amount is its own canonical form and means its units. */
  lemma CanonicalMeansItsUnits(s: string)
    requires IsCanonical(s)
    ensures IsAmount(s) && UnitsOf(s) == CanonicalUnits(s) && CanonicalAmount(s) == Ok(s)
  {
    CanonicalSplits(s);
    CanonicalAmountKeepsValue(s);
    CanonicalIsUnique(CanonicalAmount(s).value, s);
  }

  lemma TrimIsIdle(s: string)
    requires IsCanonical(s)
    ensures Trim(s) == s
  {
    assert s[0] == Whole(s)[0] && s[|s| - 1] == Fraction(s)[PLACES - 1];
  }

  lemma {:induction false} SplitPointFinds(whole: string, fraction: string)
    requires AllDigits(whole)
    ensures SplitPoint(whole + "." + fraction) == Parts(whole, Some(fraction))
  {
    if whole == "" {
      assert ("" + "." + fraction)[1..] == fraction;
    } else {
      SplitPointFinds(whole[1..], fraction);
      FirstDigit(whole, fraction);
    }
  }

  lemma FirstDigit(whole: string, fraction: string)
    requires whole != ""
    ensures
      var s := whole + "." + fraction;
      s != "" && s[0] == whole[0] && s[1..] == whole[1..] + "." + fraction
    ensures whole == [whole[0]] + whole[1..]
  {
  }

  /** Summing part of the amounts first changes nothing. */
  lemma SumIgnoresGrouping(a: seq<string>, b: seq<string>, partial: string, total: string)
    requires IsCanonical(partial) && CanonicalUnits(partial) == TotalUnits(a)
    requires IsCanonical(total) && CanonicalUnits(total) == TotalUnits([partial] + b)
    ensures CanonicalUnits(total) == TotalUnits(a + b)
  {
    CanonicalMeansItsUnits(partial);
    SumOfConcat(UnitsOrZero, a, b);
    SumOfConcat(UnitsOrZero, [partial], b);
    assert [partial][..0] == [];
  }
}
