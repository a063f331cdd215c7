/** The verdict read off the transaction itself, and what one more output does to it. */
module ReconcileVerdict {
  import opened Options
  import opened Sums
  import opened Reconcile
  import opened ReconcileLoss
  import opened ReconcileOrder

  // ---- Whose script it is -------------------------------------------------------------------------

  /** The caller alone controls it: submitted as change, or spent by an unsigned input of a single or nested key. */
  ghost predicate Mine(inputs: seq<Input>, intent: Intent, s: Script) {
    || s in intent.changeScripts
    || exists x :: x in inputs && x.script == Some(s) && !x.presigned && (x.singleKey || s in intent.nestedScripts)
  }

  ghost predicate Wanted(intent: Intent, s: Script) {
    exists c :: c in intent.customOutputs && c.script == Some(s)
  }

  /** Accepted for its shape alone. */
  ghost predicate ShapeOnly(inputs: seq<Input>, intent: Intent, s: Script) {
    !intent.isOpReturn(s) && !Mine(inputs, intent, s) && !Wanted(intent, s) && intent.isShaped(s)
  }

  lemma RoutesInPlainTerms(inputs: seq<Input>, intent: Intent, s: Script)
    ensures
      var route := RouteOf(intent, FundingScripts(inputs, intent), s);
      && (route == OpReturn <==> intent.isOpReturn(s))
      && (route == Own <==> !intent.isOpReturn(s) && Mine(inputs, intent, s))
      && (route == Requested <==> !intent.isOpReturn(s) && !Mine(inputs, intent, s) && Wanted(intent, s))
      && (route == Leg <==> ShapeOnly(inputs, intent, s))
  {
    var funding := FundingScripts(inputs, intent);
    if s in funding {
      var x :| x in inputs && Funds(x, intent) && x.script.value == s;
      assert x.script == Some(s);
    }
    if x :| x in inputs && x.script == Some(s) && !x.presigned && (x.singleKey || s in intent.nestedScripts) {
      assert Funds(x, intent);
    }
    assert Mine(inputs, intent, s) <==> s in funding || s in intent.changeScripts;
    assert Wanted(intent, s) <==> IsRequested(intent, s);
  }

  // ---- The verdict --------------------------------------------------------------------------------

  /** An input spends this very coin. */
  function SpendsCoin(c: Coin): Input -> nat {
    (x: Input) => if x.script == Some(c.script) && x.value == Some(c.value) then 1 else 0
  }

  ghost function LegOfCoin(inputs: seq<Input>, intent: Intent, c: Coin): Output -> nat {
    (o: Output) => if ShapeOnly(inputs, intent, o.script) && o == Output(c.script, Some(c.value)) then 1 else 0
  }

  ghost function LegValue(inputs: seq<Input>, intent: Intent): Output -> nat {
    (o: Output) => if ShapeOnly(inputs, intent, o.script) then o.value.GetOr(0) else 0
  }

  ghost predicate Under(cap: Cap, total: int) {
    cap != Malformed && forall sats :: cap == Limit(sats) ==> total <= sats
  }

  /** Every input is known, one is still to be signed, and there is an input for every required leg. */
  ghost predicate InputsStand(tx: Tx, intent: Intent) {
    && (forall x :: x in tx.inputs ==> x.trusted && x.script.Some?)
    && (exists x :: x in tx.inputs && !x.presigned)
    && forall c :: multiset(intent.requiredSpends)[c] <= SumBy(SpendsCoin(c), tx.inputs)
  }

  /** Every output carries a known value to a script that may have it; data carries none. */
  ghost predicate OutputsStand(tx: Tx, intent: Intent) {
    forall o :: o in tx.outputs ==>
      && o.value.Some?
      && (intent.isOpReturn(o.script) ==> o.value == Some(0))
      && (intent.isOpReturn(o.script) || Mine(tx.inputs, intent, o.script) || Wanted(intent, o.script)
          || intent.isShaped(o.script))
  }

  /** Requested scripts get no more than was asked for, unless they are the caller's own. */
  ghost predicate RequestsStand(tx: Tx, intent: Intent) {
    forall s :: !intent.isOpReturn(s) && !Mine(tx.inputs, intent, s) && Wanted(intent, s) ==>
      SumBy(PaidTo(s), tx.outputs) <= RequestedFor(intent, s)
  }

  /** The companion, when there is one, spends every leg, and the legs stay under their ceiling. */
  ghost predicate LegsStand(tx: Tx, intent: Intent) {
    && (intent.phaseSpends.Some? ==> forall c ::
          SumBy(LegOfCoin(tx.inputs, intent, c), tx.outputs) <= multiset(intent.phaseSpends.value)[c])
    && Under(intent.maxPhaseFunding, SumBy(LegValue(tx.inputs, intent), tx.outputs))
  }

  ghost predicate KnownValues(tx: Tx) {
    forall x :: x in tx.inputs ==> x.value.Some?
  }

  /** When all input values are known, the fee is not negative, not everything, and under its ceiling. */
  ghost predicate FeeStands(tx: Tx, intent: Intent) {
    KnownValues(tx) ==>
      && TotalOut(tx) <= TotalIn(tx)
      && (TotalOut(tx) > 0 || TotalIn(tx) == 0)
      && Under(intent.maxFee, TotalIn(tx) - TotalOut(tx))
  }

  lemma SpentByCounting(inputs: seq<Input>, legs: seq<Coin>)
    ensures multiset(legs) <= multiset(SpentCoins(inputs)) <==>
            forall c :: multiset(legs)[c] <= SumBy(SpendsCoin(c), inputs)
  {
    forall c ensures multiset(SpentCoins(inputs))[c] == SumBy(SpendsCoin(c), inputs) {
      SpentMultiplicity(inputs, c);
      SumOfPointwise(CountSpent(c), SpendsCoin(c), inputs);
      SumOfPointwise(SpendsCoin(c), CountSpent(c), inputs);
    }
  }

  lemma LegsByCounting(inputs: seq<Input>, intent: Intent, outs: seq<Output>, c: Coin)
    requires forall o :: o in outs ==> o.value.Some?
    ensures multiset(LegsOf(intent, FundingScripts(inputs, intent), outs))[c] == SumBy(LegOfCoin(inputs, intent, c), outs)
  {
    var funding := FundingScripts(inputs, intent);
    LegMultiplicity(intent, funding, outs, c);
    forall i | 0 <= i < |outs| ensures CountLeg(intent, funding, c)(outs[i]) == LegOfCoin(inputs, intent, c)(outs[i]) {
      assert outs[i] in outs;
      RoutesInPlainTerms(inputs, intent, outs[i].script);
    }
    SumOfPointwise(CountLeg(intent, funding, c), LegOfCoin(inputs, intent, c), outs);
    SumOfPointwise(LegOfCoin(inputs, intent, c), CountLeg(intent, funding, c), outs);
  }

  lemma LegsInTotal(inputs: seq<Input>, intent: Intent, outs: seq<Output>)
    ensures FundingTotal(LegsOf(intent, FundingScripts(inputs, intent), outs)) == SumBy(LegValue(inputs, intent), outs)
  {
    var funding := FundingScripts(inputs, intent);
    LegsCarryTheirValue(intent, funding, outs);
    forall i | 0 <= i < |outs| ensures PaidBy(intent, funding, Leg)(outs[i]) == LegValue(inputs, intent)(outs[i]) {
      RoutesInPlainTerms(inputs, intent, outs[i].script);
    }
    SumOfPointwise(PaidBy(intent, funding, Leg), LegValue(inputs, intent), outs);
    SumOfPointwise(LegValue(inputs, intent), PaidBy(intent, funding, Leg), outs);
  }

  lemma OutputsInPlainTerms(tx: Tx, intent: Intent)
    ensures (forall o :: o in tx.outputs ==> OutputOk(intent, FundingScripts(tx.inputs, intent), o))
            <==> OutputsStand(tx, intent)
  {
    var funding := FundingScripts(tx.inputs, intent);
    forall o: Output | o in tx.outputs
      ensures OutputOk(intent, funding, o) <==> (
                && o.value.Some?
                && (intent.isOpReturn(o.script) ==> o.value == Some(0))
                && (intent.isOpReturn(o.script) || Mine(tx.inputs, intent, o.script) || Wanted(intent, o.script)
                    || intent.isShaped(o.script)))
    {
      RoutesInPlainTerms(tx.inputs, intent, o.script);
    }
  }

  lemma RequestsInPlainTerms(tx: Tx, intent: Intent)
    ensures (forall s :: WithinRequest(intent, FundingScripts(tx.inputs, intent), tx.outputs, s))
            <==> RequestsStand(tx, intent)
  {
    var funding := FundingScripts(tx.inputs, intent);
    forall s
      ensures WithinRequest(intent, funding, tx.outputs, s) <==>
              (!intent.isOpReturn(s) && !Mine(tx.inputs, intent, s) && Wanted(intent, s) ==>
                 SumBy(PaidTo(s), tx.outputs) <= RequestedFor(intent, s))
    {
      RoutesInPlainTerms(tx.inputs, intent, s);
    }
  }

  lemma LegsInPlainTerms(tx: Tx, intent: Intent)
    requires OutputsStand(tx, intent)
    ensures
      var legs := PhaseFunding(tx, intent);
      LegsStand(tx, intent) <==> (
        && (intent.phaseSpends.Some? ==> multiset(legs) <= multiset(intent.phaseSpends.value))
        && CapOk(intent.maxPhaseFunding, FundingTotal(legs)))
  {
    LegsInTotal(tx.inputs, intent, tx.outputs);
    forall c ensures multiset(PhaseFunding(tx, intent))[c] == SumBy(LegOfCoin(tx.inputs, intent, c), tx.outputs) {
      LegsByCounting(tx.inputs, intent, tx.outputs, c);
    }
  }

  lemma InputsInPlainTerms(tx: Tx, intent: Intent)
    ensures InputsOk(tx.inputs, intent) <==> InputsStand(tx, intent)
  {
    SpentByCounting(tx.inputs, intent.requiredSpends);
  }

  lemma PaymentsInPlainTerms(tx: Tx, intent: Intent)
    ensures
      (OutputsOk(intent, FundingScripts(tx.inputs, intent), tx.outputs)
       && CapOk(intent.maxPhaseFunding, FundingTotal(PhaseFunding(tx, intent))))
      <==> OutputsStand(tx, intent) && RequestsStand(tx, intent) && LegsStand(tx, intent)
  {
    OutputsInPlainTerms(tx, intent);
    RequestsInPlainTerms(tx, intent);
    if OutputsStand(tx, intent) {
      LegsInPlainTerms(tx, intent);
    }
  }

  lemma FeeInPlainTerms(tx: Tx, intent: Intent)
    ensures (FeeComputable(tx.inputs) ==> FeeOk(intent, TotalIn(tx), TotalOut(tx))) <==> FeeStands(tx, intent)
  {
  }

  /** Exactly these transactions are accepted. */
  lemma AcceptedExactly(tx: Tx, intent: Intent)
    ensures Accepts(tx, intent) <==> (
              && InputsStand(tx, intent) && OutputsStand(tx, intent) && RequestsStand(tx, intent)
              && LegsStand(tx, intent) && FeeStands(tx, intent))
  {
    InputsInPlainTerms(tx, intent);
    PaymentsInPlainTerms(tx, intent);
    FeeInPlainTerms(tx, intent);
  }

  // ---- An honest answer is accepted -----------------------------------------------------------------

  /** Every entry has an address that parses and a value. */
  predicate AllComplete(customs: seq<CustomOutput>) {
    forall i :: 0 <= i < |customs| ==> customs[i].script.Some? && customs[i].value.Some?
  }

  predicate AllPayable(intent: Intent) {
    && AllComplete(intent.customOutputs)
    && forall i :: 0 <= i < |intent.customOutputs| ==> !intent.isOpReturn(intent.customOutputs[i].script.value)
  }

  /** One output for every requested one. */
  function Payments(customs: seq<CustomOutput>): (outs: seq<Output>)
    requires AllComplete(customs)
    ensures |outs| == |customs|
    ensures forall i :: 0 <= i < |outs| ==> outs[i] == Output(customs[i].script.value, customs[i].value)
  {
    if customs == [] then []
    else
      var last := customs[|customs| - 1];
      Payments(customs[..|customs| - 1]) + [Output(last.script.value, last.value)]
  }

  /** Data without value, or change to a script of the caller's. */
  ghost predicate IsReturned(inputs: seq<Input>, intent: Intent, o: Output) {
    o.value.Some? && if intent.isOpReturn(o.script) then o.value == Some(0) else Mine(inputs, intent, o.script)
  }

  lemma {:induction false} PaymentsAreAsked(customs: seq<CustomOutput>, s: Script)
    requires AllComplete(customs)
    ensures SumBy(PaidTo(s), Payments(customs)) == SumBy(AskedFor(s), customs)
  {
    if customs != [] {
      PaymentsAreAsked(customs[..|customs| - 1], s);
      assert Payments(customs)[..|customs| - 1] == Payments(customs[..|customs| - 1]);
    }
  }

  /** Every requested output paid as asked, with change and data in front or behind, is accepted: the gate refuses it only
      for its inputs or its fee. */
  lemma HonestAnswerIsAccepted(tx: Tx, intent: Intent, before: seq<Output>, after: seq<Output>)
    requires InputsStand(tx, intent) && FeeStands(tx, intent) && intent.maxPhaseFunding != Malformed
    requires AllPayable(intent)
    requires forall o :: o in before || o in after ==> IsReturned(tx.inputs, intent, o)
    requires tx.outputs == before + Payments(intent.customOutputs) + after
    ensures Accepts(tx, intent)
  {
    var paid := Payments(intent.customOutputs);
    forall o | o in tx.outputs
      ensures o.value.Some? && !ShapeOnly(tx.inputs, intent, o.script)
      ensures if intent.isOpReturn(o.script) then o.value == Some(0)
              else Mine(tx.inputs, intent, o.script) || Wanted(intent, o.script)
    {
      HonestOutput(tx.inputs, intent, before, after, o);
    }
    forall s | !intent.isOpReturn(s) && !Mine(tx.inputs, intent, s)
      ensures SumBy(PaidTo(s), tx.outputs) == RequestedFor(intent, s)
    {
      SumOfConcat(PaidTo(s), before + paid, after);
      SumOfConcat(PaidTo(s), before, paid);
      NothingReturnedTo(tx.inputs, intent, before, s);
      NothingReturnedTo(tx.inputs, intent, after, s);
      PaymentsAreAsked(intent.customOutputs, s);
    }
    NoLegs(tx, intent);
    AcceptedExactly(tx, intent);
  }

  lemma HonestOutput(inputs: seq<Input>, intent: Intent, before: seq<Output>, after: seq<Output>, o: Output)
    requires AllPayable(intent)
    requires forall o :: o in before || o in after ==> IsReturned(inputs, intent, o)
    requires o in before + Payments(intent.customOutputs) + after
    ensures IsReturned(inputs, intent, o) || (o.value.Some? && !intent.isOpReturn(o.script) && Wanted(intent, o.script))
  {
    var paid := Payments(intent.customOutputs);
    if o !in before && o !in after {
      var i :| 0 <= i < |paid| && paid[i] == o;
      assert intent.customOutputs[i] in intent.customOutputs;
    }
  }

  lemma NothingReturnedTo(inputs: seq<Input>, intent: Intent, outs: seq<Output>, s: Script)
    requires !intent.isOpReturn(s) && !Mine(inputs, intent, s)
    requires forall o :: o in outs ==> IsReturned(inputs, intent, o)
    ensures SumBy(PaidTo(s), outs) == 0
  {
    forall i | 0 <= i < |outs| ensures PaidTo(s)(outs[i]) == 0 {
      assert IsReturned(inputs, intent, outs[i]);
    }
    ZeroSum(PaidTo(s), outs);
  }

  lemma NoLegs(tx: Tx, intent: Intent)
    requires intent.maxPhaseFunding != Malformed
    requires forall o :: o in tx.outputs ==> !ShapeOnly(tx.inputs, intent, o.script)
    ensures LegsStand(tx, intent)
  {
    forall i | 0 <= i < |tx.outputs| ensures !ShapeOnly(tx.inputs, intent, tx.outputs[i].script) {
      assert tx.outputs[i] in tx.outputs;
    }
    ZeroSum(LegValue(tx.inputs, intent), tx.outputs);
    forall c ensures SumBy(LegOfCoin(tx.inputs, intent, c), tx.outputs) == 0 {
      ZeroSum(LegOfCoin(tx.inputs, intent, c), tx.outputs);
    }
  }

  // ---- What acceptance promises ---------------------------------------------------------------------

  lemma {:induction false} SomeTermIsPositive<T>(f: T -> nat, s: seq<T>) returns (i: nat)
    requires SumBy(f, s) > 0
    ensures i < |s| && f(s[i]) > 0
  {
    if f(s[|s| - 1]) > 0 {
      i := |s| - 1;
    } else {
      i := SomeTermIsPositive(f, s[..|s| - 1]);
    }
  }

  lemma {:induction false} TermIsInSum<T>(f: T -> nat, s: seq<T>, i: nat)
    requires i < |s|
    ensures f(s[i]) <= SumBy(f, s)
  {
    if i < |s| - 1 {
      TermIsInSum(f, s[..|s| - 1], i);
    }
  }

  /** When every input value is known and one is positive, some output of an accepted transaction has value: the
      coins are never burnt as fee altogether. */
  lemma CarriedValueComesBack(tx: Tx, intent: Intent)
    requires Accepts(tx, intent) && KnownValues(tx) && exists x :: x in tx.inputs && x.value.value > 0
    ensures exists o :: o in tx.outputs && o.value.Some? && o.value.value > 0
  {
    AcceptedExactly(tx, intent);
    var x :| x in tx.inputs && x.value.value > 0;
    var i :| 0 <= i < |tx.inputs| && tx.inputs[i] == x;
    TermIsInSum(InValue, tx.inputs, i);
    var j := SomeTermIsPositive(OutValue, tx.outputs);
    assert tx.outputs[j] in tx.outputs;
  }

  /** Every output of an accepted transaction is data without value, the caller's own, asked for, or a shaped leg. */
  lemma EveryOutputIsAccountedFor(tx: Tx, intent: Intent, o: Output)
    requires Accepts(tx, intent) && o in tx.outputs
    ensures o.value.Some? && (intent.isOpReturn(o.script) ==> o.value.value == 0)
    ensures !intent.isOpReturn(o.script) && !Wanted(intent, o.script) && !intent.isShaped(o.script) ==>
      || o.script in intent.changeScripts
      || exists x :: x in tx.inputs && x.script == Some(o.script) && !x.presigned
                     && (x.singleKey || o.script in intent.nestedScripts)
  {
    AcceptedExactly(tx, intent);
  }

  /** What an accepted transaction may pay on top of its outputs. */
  ghost predicate MayPay(tx: Tx, intent: Intent, s: Script, value: nat) {
    if intent.isOpReturn(s) then value == 0
    else if Mine(tx.inputs, intent, s) then true
    else if Wanted(intent, s) then SumBy(PaidTo(s), tx.outputs) + value <= RequestedFor(intent, s)
    else
      && intent.isShaped(s)
      && (intent.phaseSpends.Some? ==>
            SumBy(LegOfCoin(tx.inputs, intent, Coin(s, value)), tx.outputs) < multiset(intent.phaseSpends.value)[Coin(s, value)])
      && Under(intent.maxPhaseFunding, SumBy(LegValue(tx.inputs, intent), tx.outputs) + value)
  }

  lemma OneMoreRequest(tx: Tx, intent: Intent, o: Output)
    requires RequestsStand(tx, intent) && o.value.Some?
    ensures RequestsStand(tx.(outputs := tx.outputs + [o]), intent) <==>
            (!intent.isOpReturn(o.script) && !Mine(tx.inputs, intent, o.script) && Wanted(intent, o.script) ==>
               SumBy(PaidTo(o.script), tx.outputs) + o.value.value <= RequestedFor(intent, o.script))
  {
    forall s ensures SumBy(PaidTo(s), tx.outputs + [o]) == SumBy(PaidTo(s), tx.outputs) + if o.script == s then o.value.value else 0 {
      SumAppend(PaidTo(s), tx.outputs, o);
    }
  }

  lemma OneMoreLeg(tx: Tx, intent: Intent, o: Output)
    requires LegsStand(tx, intent) && o.value.Some?
    ensures LegsStand(tx.(outputs := tx.outputs + [o]), intent) <==>
            (ShapeOnly(tx.inputs, intent, o.script) ==> MayPay(tx, intent, o.script, o.value.value))
  {
    var inputs, coin := tx.inputs, Coin(o.script, o.value.value);
    forall c ensures SumBy(LegOfCoin(inputs, intent, c), tx.outputs + [o])
        == SumBy(LegOfCoin(inputs, intent, c), tx.outputs) + if ShapeOnly(inputs, intent, o.script) && c == coin then 1 else 0
    {
      SumAppend(LegOfCoin(inputs, intent, c), tx.outputs, o);
    }
    SumAppend(LegValue(inputs, intent), tx.outputs, o);
  }

  lemma OneMoreStands(tx: Tx, intent: Intent, o: Output)
    requires OutputsStand(tx, intent) && o.value.Some?
    ensures OutputsStand(tx.(outputs := tx.outputs + [o]), intent) <==> (
              && (intent.isOpReturn(o.script) ==> o.value == Some(0))
              && (intent.isOpReturn(o.script) || Mine(tx.inputs, intent, o.script) || Wanted(intent, o.script)
                  || intent.isShaped(o.script)))
  {
    assert o in tx.outputs + [o];
    assert forall x :: x in tx.outputs + [o] <==> x in tx.outputs || x == o;
  }

  lemma OneMoreInFee(tx: Tx, intent: Intent, o: Output)
    requires FeeStands(tx, intent) && o.value.Some?
    ensures FeeStands(tx.(outputs := tx.outputs + [o]), intent) <==>
            (KnownValues(tx) ==> TotalOut(tx) + o.value.value <= TotalIn(tx))
  {
    SumAppend(OutValue, tx.outputs, o);
  }

  /** One more output is refused exactly when it has no value to read, is paid to no one who may have it, exceeds what
      was asked for or the companion takes back, or exceeds what the inputs have left. */
  lemma OneMoreOutput(tx: Tx, intent: Intent, o: Output)
    requires Accepts(tx, intent)
    ensures Accepts(tx.(outputs := tx.outputs + [o]), intent) <==> (
              && o.value.Some? && MayPay(tx, intent, o.script, o.value.value)
              && (KnownValues(tx) ==> TotalOut(tx) + o.value.value <= TotalIn(tx)))
  {
    var more := tx.(outputs := tx.outputs + [o]);
    AcceptedExactly(tx, intent);
    AcceptedExactly(more, intent);
    assert o in more.outputs;
    if o.value.Some? {
      OneMorePayment(tx, intent, o);
      OneMoreInFee(tx, intent, o);
    }
  }

  lemma OneMorePayment(tx: Tx, intent: Intent, o: Output)
    requires OutputsStand(tx, intent) && RequestsStand(tx, intent) && LegsStand(tx, intent) && o.value.Some?
    ensures
      var more := tx.(outputs := tx.outputs + [o]);
      OutputsStand(more, intent) && RequestsStand(more, intent) && LegsStand(more, intent)
      <==> MayPay(tx, intent, o.script, o.value.value)
  {
    OneMoreStands(tx, intent, o);
    OneMoreRequest(tx, intent, o);
    OneMoreLeg(tx, intent, o);
  }

  /** The report's fee is what the outputs leave of the inputs, and is reported when every input value is known. */
  lemma ReportsItsTotals(tx: Tx, intent: Intent)
    requires Accepts(tx, intent)
    ensures
      var report := ReportOf(tx, intent);
      && report.totalOut == SumBy(OutValue, tx.outputs)
      && (report.fee.Some? <==> KnownValues(tx)) && (report.totalIn.Some? <==> KnownValues(tx))
      && (KnownValues(tx) ==> report.fee.value + report.totalOut == report.totalIn.value == SumBy(InValue, tx.inputs))
  {
    AcceptedExactly(tx, intent);
  }
}
