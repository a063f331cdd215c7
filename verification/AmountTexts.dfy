/** Amounts by their digits: which texts are accepted, and how many units they are. */
module AmountTexts {
  import opened Options
  import opened Decimal
  import opened JsText
  import opened Amounts

  predicate AllSpace(s: string) {
    forall i :: 0 <= i < |s| ==> IsSpace(s[i])
  }

  /** Digits, and after a point one to eighteen more. */
  predicate Digits(whole: string, fraction: Option<string>) {
    && |whole| >= 1 && AllDigits(whole)
    && (fraction.Some? ==> 1 <= |fraction.value| <= 18 && AllDigits(fraction.value))
  }

  function Written(whole: string, fraction: Option<string>): string {
    match fraction
    case None => whole
    case Some(f) => whole + "." + f
  }

  // ---- Surrounding white space ----------------------------------------------------------------------

  lemma {:induction false} TrimStartIs(s: string) returns (before: string)
    ensures AllSpace(before) && s == before + TrimStart(s)
  {
    if s != "" && IsSpace(s[0]) {
      var rest := TrimStartIs(s[1..]);
      before := [s[0]] + rest;
    } else {
      before := "";
    }
  }

  lemma {:induction false} TrimEndIs(s: string) returns (after: string)
    ensures AllSpace(after) && s == TrimEnd(s) + after
  {
    if s != "" && IsSpace(s[|s| - 1]) {
      var rest := TrimEndIs(s[..|s| - 1]);
      after := rest + [s[|s| - 1]];
    } else {
      after := "";
    }
  }

  lemma {:induction false} TrimsStart(before: string, s: string)
    requires AllSpace(before) && (s == "" || !IsSpace(s[0]))
    ensures TrimStart(before + s) == s
  {
    if before == "" {
      assert "" + s == s;
    } else {
      TrimsStart(before[1..], s);
      assert (before + s)[1..] == before[1..] + s;
    }
  }

  lemma {:induction false} TrimsEnd(s: string, after: string)
    requires AllSpace(after) && (s == "" || !IsSpace(s[|s| - 1]))
    ensures TrimEnd(s + after) == s
    decreases |after|
  {
    if after == "" {
      assert s + "" == s;
    } else {
      TrimsEnd(s, after[..|after| - 1]);
      assert (s + after)[..|s + after| - 1] == s + after[..|after| - 1];
    }
  }

  lemma WrittenEnds(whole: string, fraction: Option<string>)
    requires Digits(whole, fraction)
    ensures
      var s := Written(whole, fraction);
      s != "" && !IsSpace(s[0]) && !IsSpace(s[|s| - 1])
  {
    var s := Written(whole, fraction);
    assert s[0] == whole[0] && IsDigit(whole[0]);
    if fraction.Some? {
      assert s[|s| - 1] == fraction.value[|fraction.value| - 1];
    }
  }

  lemma {:induction false} NoPoint(whole: string)
    requires AllDigits(whole)
    ensures SplitPoint(whole) == Parts(whole, None)
  {
    if whole != "" {
      NoPoint(whole[1..]);
      assert whole == [whole[0]] + whole[1..];
    }
  }

  lemma WrittenSplits(whole: string, fraction: Option<string>)
    requires Digits(whole, fraction)
    ensures SplitPoint(Written(whole, fraction)) == Parts(whole, fraction)
  {
    if fraction.Some? {
      SplitPointFinds(whole, fraction.value);
    } else {
      NoPoint(whole);
    }
  }

  lemma Trims(before: string, s: string, after: string)
    requires AllSpace(before) && AllSpace(after) && s != "" && !IsSpace(s[0]) && !IsSpace(s[|s| - 1])
    ensures Trim(before + s + after) == s
  {
    assert before + s + after == before + (s + after);
    TrimsStart(before, s + after);
    TrimsEnd(s, after);
  }

  // ---- The amounts ----------------------------------------------------------------------------------

  /** Digits in white space are an amount: the number before the point times 10^18, and the digits behind it counted
      from the first decimal place. */
  lemma DigitsAreAnAmount(before: string, whole: string, fraction: Option<string>, after: string)
    requires AllSpace(before) && AllSpace(after) && Digits(whole, fraction)
    ensures
      var input := before + Written(whole, fraction) + after;
      && IsAmount(input)
      && UnitsOf(input) == OfDecimal(whole) * Pow10(18)
                           + (if fraction.None? then 0 else OfDecimal(fraction.value) * Pow10(18 - |fraction.value|))
  {
    WrittenEnds(whole, fraction);
    WrittenSplits(whole, fraction);
    Trims(before, Written(whole, fraction), after);
    ShiftedIsProduct(OfDecimal(whole), 18);
    var f := fraction.GetOr("");
    ShiftedIsProduct(OfDecimal(f), 18 - |f|);
  }

  /** Nothing else is. */
  lemma OnlyDigitsAreAmounts(input: string)
    ensures IsAmount(input) <==> exists before, whole, fraction, after ::
      AllSpace(before) && AllSpace(after) && Digits(whole, fraction) && input == before + Written(whole, fraction) + after
  {
    if IsAmount(input) {
      var p := SplitPoint(Trim(input));
      var before := TrimStartIs(input);
      var after := TrimEndIs(TrimStart(input));
      assert Trim(input) == Written(p.whole, p.fraction);
      assert input == before + Written(p.whole, p.fraction) + after;
    }
    if before, whole, fraction, after :|
      AllSpace(before) && AllSpace(after) && Digits(whole, fraction) && input == before + Written(whole, fraction) + after
    {
      DigitsAreAnAmount(before, whole, fraction, after);
    }
  }

  /** The canonical text of such digits: no superfluous leading zero, and zeros up to eighteen decimal places. */
  lemma CanonicalDigits(before: string, whole: string, fraction: Option<string>, after: string, text: string)
    requires AllSpace(before) && AllSpace(after) && Digits(whole, fraction)
    requires IsCanonical(text)
    ensures CanonicalAmount(before + Written(whole, fraction) + after) == Ok(text) <==>
            CanonicalUnits(text) == OfDecimal(whole) * Pow10(18)
                                    + (if fraction.None? then 0 else OfDecimal(fraction.value) * Pow10(18 - |fraction.value|))
  {
    var input := before + Written(whole, fraction) + after;
    DigitsAreAnAmount(before, whole, fraction, after);
    CanonicalAmountKeepsValue(input);
    CanonicalIsUnique(CanonicalAmount(input).value, text);
  }
}
