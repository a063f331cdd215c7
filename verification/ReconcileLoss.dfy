/** What the gate's verdict means: conservation of value, and bounds on what can be lost over one transaction
    and over two chained ones. */
module ReconcileLoss {
  import opened Sums
  import opened Reconcile

  // ---- Conservation -----------------------------------------------------------------------------

  /** Value paid to outputs of one route. */
  ghost function Paid(tx: Tx, intent: Intent, route: Route): nat {
    SumBy(PaidBy(intent, FundingScripts(tx.inputs, intent), route), tx.outputs)
  }

  /** Everything the caller asked to send, over all its entries. */
  function AskedInAll(c: CustomOutput): nat {
    if c.script.Some? then c.value.GetOr(0) else 0
  }

  function TotalRequested(intent: Intent): nat {
    SumBy(AskedInAll, intent.customOutputs)
  }

  function FundingTotal(legs: seq<Coin>): nat {
    SumBy(CoinValue, legs)
  }

  lemma {:induction false} EveryOutputHasOneRoute(intent: Intent, funding: set<Script>, outs: seq<Output>)
    requires forall o :: o in outs ==> OutputOk(intent, funding, o)
    ensures SumBy(OutValue, outs) == SumBy(PaidBy(intent, funding, Own), outs)
            + SumBy(PaidBy(intent, funding, Requested), outs) + SumBy(PaidBy(intent, funding, Leg), outs)
  {
    if outs != [] {
      var last := outs[|outs| - 1];
      assert last in outs && OutputOk(intent, funding, last);
      EveryOutputHasOneRoute(intent, funding, outs[..|outs| - 1]);
    }
  }

  lemma {:induction false} LegsCarryTheirValue(intent: Intent, funding: set<Script>, outs: seq<Output>)
    ensures FundingTotal(LegsOf(intent, funding, outs)) == SumBy(PaidBy(intent, funding, Leg), outs)
  {
    if outs != [] {
      var before, last := outs[..|outs| - 1], outs[|outs| - 1];
      LegsCarryTheirValue(intent, funding, before);
      var legs, c := LegsOf(intent, funding, before), Coin(last.script, last.value.GetOr(0));
      if RouteOf(intent, funding, last.script) == Leg {
        SumAppend(CoinValue, legs, c);
      } else {
        assert legs + [] == legs;
      }
    }
  }

  // ---- The cap on requested value, over all requested scripts --------------------------------------

  ghost function PaidWithin(intent: Intent, funding: set<Script>, within: set<Script>): Output -> nat {
    (o: Output) => if RouteOf(intent, funding, o.script) == Requested && o.script in within then o.value.GetOr(0) else 0
  }

  ghost function AskedWithin(within: set<Script>): CustomOutput -> nat {
    (c: CustomOutput) => if c.script.Some? && c.script.value in within then c.value.GetOr(0) else 0
  }

  lemma {:induction false} ZeroSum<T>(f: T -> nat, s: seq<T>)
    requires forall i :: 0 <= i < |s| ==> f(s[i]) == 0
    ensures SumBy(f, s) == 0
  {
    if s != [] { ZeroSum(f, s[..|s| - 1]); }
  }

  lemma {:induction false} CapsAddUp(intent: Intent, funding: set<Script>, outs: seq<Output>, within: set<Script>)
    requires forall s :: WithinRequest(intent, funding, outs, s)
    ensures SumBy(PaidWithin(intent, funding, within), outs) <= SumBy(AskedWithin(within), intent.customOutputs)
    decreases |within|
  {
    if within == {} {
      ZeroSum(PaidWithin(intent, funding, {}), outs);
    } else {
      var s :| s in within;
      var rest := within - {s};
      CapsAddUp(intent, funding, outs, rest);
      assert WithinRequest(intent, funding, outs, s);
      SumOfSum(AskedWithin(rest), AskedFor(s), AskedWithin(within), intent.customOutputs);
      if RouteOf(intent, funding, s) == Requested {
        SumOfSum(PaidWithin(intent, funding, rest), PaidTo(s), PaidWithin(intent, funding, within), outs);
      } else {
        SumOfPointwise(PaidWithin(intent, funding, within), PaidWithin(intent, funding, rest), outs);
      }
    }
  }

  ghost function RequestedScripts(intent: Intent): set<Script> {
    set c | c in intent.customOutputs && c.script.Some? :: c.script.value
  }

  lemma RequestedValueIsCapped(intent: Intent, funding: set<Script>, outs: seq<Output>)
    requires forall s :: WithinRequest(intent, funding, outs, s)
    ensures SumBy(PaidBy(intent, funding, Requested), outs) <= TotalRequested(intent)
  {
    var all := RequestedScripts(intent);
    CapsAddUp(intent, funding, outs, all);
    SumOfPointwise(PaidBy(intent, funding, Requested), PaidWithin(intent, funding, all), outs);
    forall i | 0 <= i < |intent.customOutputs|
      ensures AskedWithin(all)(intent.customOutputs[i]) <= AskedInAll(intent.customOutputs[i])
    {
    }
    SumOfPointwise(AskedWithin(all), AskedInAll, intent.customOutputs);
  }

  // ---- One transaction --------------------------------------------------------------------------

  ghost function Fee(tx: Tx): int {
    TotalIn(tx) - TotalOut(tx)
  }

  /** Every satoshi of an accepted transaction is fee, or goes to the caller's own scripts, to a
      script the caller asked for, or into a phase leg. */
  lemma ValueIsConserved(tx: Tx, intent: Intent)
    requires Accepts(tx, intent)
    ensures TotalIn(tx) == Fee(tx) + Paid(tx, intent, Own) + Paid(tx, intent, Requested)
                           + FundingTotal(PhaseFunding(tx, intent))
  {
    var funding := FundingScripts(tx.inputs, intent);
    EveryOutputHasOneRoute(intent, funding, tx.outputs);
    LegsCarryTheirValue(intent, funding, tx.outputs);
  }

  /** What does not come back to the caller's own scripts is bounded by what was asked for, the
      phase legs and the fee, each under its cap; a requested script is capped on its total. */
  lemma LossIsBounded(tx: Tx, intent: Intent)
    requires Accepts(tx, intent) && FeeComputable(tx.inputs)
    ensures 0 <= Fee(tx) && CapOk(intent.maxFee, Fee(tx))
    ensures CapOk(intent.maxPhaseFunding, FundingTotal(PhaseFunding(tx, intent)))
    ensures TotalIn(tx) - Paid(tx, intent, Own) <=
            TotalRequested(intent) + FundingTotal(PhaseFunding(tx, intent)) + Fee(tx)
    ensures forall s :: RouteOf(intent, FundingScripts(tx.inputs, intent), s) == Requested ==>
      SumBy(PaidTo(s), tx.outputs) <= RequestedFor(intent, s)
  {
    ValueIsConserved(tx, intent);
    RequestedValueIsCapped(intent, FundingScripts(tx.inputs, intent), tx.outputs);
    forall s | RouteOf(intent, FundingScripts(tx.inputs, intent), s) == Requested
      ensures SumBy(PaidTo(s), tx.outputs) <= RequestedFor(intent, s)
    {
      assert WithinRequest(intent, FundingScripts(tx.inputs, intent), tx.outputs, s);
    }
  }

  // ---- Two chained transactions -------------------------------------------------------------------

  lemma {:induction false} SpentCoinsTotal(inputs: seq<Input>)
    requires AllTrusted(inputs) && FeeComputable(inputs)
    ensures FundingTotal(SpentCoins(inputs)) == SumBy(InValue, inputs)
  {
    if inputs != [] {
      var before, last := inputs[..|inputs| - 1], inputs[|inputs| - 1];
      assert last in inputs && HasCoin(last);
      SpentCoinsTotal(before);
      var coins := SpentCoins(before);
      assert (coins + [CoinOf(last)])[..|coins|] == coins;
    }
  }

  /** Phase 2 must spend every leg phase 1 paid. Over both transactions nothing stays parked in those
      legs: what the caller's scripts do not get back is both fees, both requested totals and
      phase 2's own legs. */
  lemma TwoPhaseLossIsBounded(tx1: Tx, intent1: Intent, tx2: Tx, intent2: Intent)
    requires Accepts(tx1, intent1) && FeeComputable(tx1.inputs)
    requires Accepts(tx2, intent2) && FeeComputable(tx2.inputs)
    requires intent2.requiredSpends == ReportOf(tx1, intent1).phaseFunding
    ensures FundingTotal(PhaseFunding(tx1, intent1)) <= TotalIn(tx2)
    ensures
      var legs1 := FundingTotal(PhaseFunding(tx1, intent1));
      var walletIn := TotalIn(tx1) + (TotalIn(tx2) - legs1);
      var loss := walletIn - Paid(tx1, intent1, Own) - Paid(tx2, intent2, Own);
      && loss == Fee(tx1) + Fee(tx2) + Paid(tx1, intent1, Requested) + Paid(tx2, intent2, Requested)
                 + FundingTotal(PhaseFunding(tx2, intent2))
      && loss <= Fee(tx1) + Fee(tx2) + TotalRequested(intent1) + TotalRequested(intent2)
                 + FundingTotal(PhaseFunding(tx2, intent2))
  {
    ValueIsConserved(tx1, intent1);
    ValueIsConserved(tx2, intent2);
    RequestedValueIsCapped(intent1, FundingScripts(tx1.inputs, intent1), tx1.outputs);
    RequestedValueIsCapped(intent2, FundingScripts(tx2.inputs, intent2), tx2.outputs);
    SpentCoinsTotal(tx2.inputs);
    SumOfPart(CoinValue, PhaseFunding(tx1, intent1), SpentCoins(tx2.inputs));
  }

  ghost predicate DistinctIndices(at: seq<nat>) {
    forall j, k :: 0 <= j < k < |at| ==> at[j] != at[k]
  }

  /** Each leg is matched by an input of its own. */
  ghost predicate MatchedBy(legs: seq<Coin>, coins: seq<Coin>, at: seq<nat>) {
    |at| == |legs| && DistinctIndices(at)
    && forall j :: 0 <= j < |legs| ==> at[j] < |coins| && coins[at[j]] == legs[j]
  }

  lemma {:induction false} InclusionIsMatching(legs: seq<Coin>, coins: seq<Coin>) returns (at: seq<nat>)
    requires multiset(legs) <= multiset(coins)
    ensures MatchedBy(legs, coins, at)
    decreases |legs|
  {
    if legs == [] {
      at := [];
    } else {
      var c, rest := legs[|legs| - 1], legs[..|legs| - 1];
      assert legs == rest + [c];
      assert c in multiset(legs) && c in multiset(coins);
      var i :| 0 <= i < |coins| && coins[i] == c;
      var others := coins[..i] + coins[i + 1..];
      SumWithout(CoinValue, coins, i);
      CancelOne(multiset(rest), multiset(others), c);
      var before := InclusionIsMatching(rest, others);
      ExtendMatching(rest, coins, i, before);
      at := Widened(before, i);
    }
  }

  lemma ExtendMatching(legs: seq<Coin>, coins: seq<Coin>, i: nat, at: seq<nat>)
    requires i < |coins| && MatchedBy(legs, coins[..i] + coins[i + 1..], at)
    ensures MatchedBy(legs + [coins[i]], coins, Widened(at, i))
  {
    var others, wider := coins[..i] + coins[i + 1..], Widened(at, i);
    forall j | 0 <= j < |legs| ensures wider[j] < |coins| && coins[wider[j]] == legs[j] && wider[j] != i {
      assert wider[j] == ShiftOver(at[j], i) && others[at[j]] == legs[j];
    }
    forall j, k | 0 <= j < k < |wider| ensures wider[j] != wider[k] {
      if k < |at| {
        assert at[j] != at[k] && wider[j] == ShiftOver(at[j], i) && wider[k] == ShiftOver(at[k], i);
      }
    }
  }

  function ShiftOver(k: nat, i: nat): nat {
    if k < i then k else k + 1
  }

  function Widened(at: seq<nat>, i: nat): (r: seq<nat>)
    ensures |r| == |at| + 1 && r[|at|] == i && forall j :: 0 <= j < |at| ==> r[j] == ShiftOver(at[j], i)
  {
    Shifted(at, i) + [i]
  }

  function Shifted(at: seq<nat>, i: nat): (r: seq<nat>)
    ensures |r| == |at| && forall j :: 0 <= j < |at| ==> r[j] == ShiftOver(at[j], i)
  {
    if at == [] then [] else Shifted(at[..|at| - 1], i) + [ShiftOver(at[|at| - 1], i)]
  }

  /** Where in the inputs a spent coin comes from. */
  function PositionOf(inputs: seq<Input>, j: nat): (i: nat)
    requires j < |SpentCoins(inputs)|
    ensures i < |inputs| && HasCoin(inputs[i]) && CoinOf(inputs[i]) == SpentCoins(inputs)[j]
  {
    var front := inputs[..|inputs| - 1];
    if j < |SpentCoins(front)| then PositionOf(front, j) else |inputs| - 1
  }

  lemma {:induction false} PositionsAscend(inputs: seq<Input>, j: nat, k: nat)
    requires j < k < |SpentCoins(inputs)|
    ensures PositionOf(inputs, j) < PositionOf(inputs, k)
  {
    var front := inputs[..|inputs| - 1];
    if k < |SpentCoins(front)| {
      PositionsAscend(front, j, k);
    }
  }

  function Positions(inputs: seq<Input>, at: seq<nat>): (r: seq<nat>)
    requires forall j :: 0 <= j < |at| ==> at[j] < |SpentCoins(inputs)|
    ensures |r| == |at| && forall j :: 0 <= j < |at| ==> r[j] == PositionOf(inputs, at[j])
  {
    if at == [] then []
    else Positions(inputs, at[..|at| - 1]) + [PositionOf(inputs, at[|at| - 1])]
  }

  lemma PositionsAreDistinct(inputs: seq<Input>, at: seq<nat>)
    requires (forall j :: 0 <= j < |at| ==> at[j] < |SpentCoins(inputs)|) && DistinctIndices(at)
    ensures DistinctIndices(Positions(inputs, at))
  {
    forall j, k | 0 <= j < k < |at| ensures PositionOf(inputs, at[j]) != PositionOf(inputs, at[k]) {
      if at[j] < at[k] {
        PositionsAscend(inputs, at[j], at[k]);
      } else {
        PositionsAscend(inputs, at[k], at[j]);
      }
    }
  }

  /** Every leg of phase 1 is consumed by its own distinct input of an accepted phase 2. */
  lemma EveryLegHasItsOwnInput(tx1: Tx, intent1: Intent, tx2: Tx, intent2: Intent) returns (at: seq<nat>)
    requires Accepts(tx1, intent1) && Accepts(tx2, intent2)
    requires intent2.requiredSpends == ReportOf(tx1, intent1).phaseFunding
    ensures
      var legs := PhaseFunding(tx1, intent1);
      && |at| == |legs| && DistinctIndices(at)
      && forall j :: 0 <= j < |legs| ==>
          at[j] < |tx2.inputs| && HasCoin(tx2.inputs[at[j]]) && CoinOf(tx2.inputs[at[j]]) == legs[j]
  {
    at := InclusionHasInputs(PhaseFunding(tx1, intent1), tx2.inputs);
  }

  lemma InclusionHasInputs(legs: seq<Coin>, inputs: seq<Input>) returns (at: seq<nat>)
    requires multiset(legs) <= multiset(SpentCoins(inputs))
    ensures |at| == |legs| && DistinctIndices(at)
    ensures forall j :: 0 <= j < |legs| ==> at[j] < |inputs| && HasCoin(inputs[at[j]]) && CoinOf(inputs[at[j]]) == legs[j]
  {
    var coins := InclusionIsMatching(legs, SpentCoins(inputs));
    at := Positions(inputs, coins);
    PositionsAreDistinct(inputs, coins);
  }
}
