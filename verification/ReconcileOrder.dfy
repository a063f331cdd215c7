/** Neither the order of inputs and outputs nor the way requests are listed moves the verdict. */
module ReconcileOrder {
  import opened Options
  import opened Sums
  import opened Reconcile
  import opened ReconcileLoss

  ghost function CountLeg(intent: Intent, funding: set<Script>, c: Coin): Output -> nat {
    (o: Output) => if RouteOf(intent, funding, o.script) == Leg && Coin(o.script, o.value.GetOr(0)) == c then 1 else 0
  }

  lemma {:induction false} LegMultiplicity(intent: Intent, funding: set<Script>, outs: seq<Output>, c: Coin)
    ensures multiset(LegsOf(intent, funding, outs))[c] == SumBy(CountLeg(intent, funding, c), outs)
  {
    if outs != [] {
      LegMultiplicity(intent, funding, outs[..|outs| - 1], c);
    }
  }

  lemma LegsIgnoreOrder(intent: Intent, funding: set<Script>, outs: seq<Output>, outs': seq<Output>)
    requires multiset(outs) == multiset(outs')
    ensures multiset(LegsOf(intent, funding, outs)) == multiset(LegsOf(intent, funding, outs'))
  {
    forall c ensures multiset(LegsOf(intent, funding, outs))[c] == multiset(LegsOf(intent, funding, outs'))[c] {
      LegMultiplicity(intent, funding, outs, c);
      LegMultiplicity(intent, funding, outs', c);
      SumIsOrderFree(CountLeg(intent, funding, c), outs, outs');
    }
  }

  function CountSpent(c: Coin): Input -> nat {
    (x: Input) => if HasCoin(x) && CoinOf(x) == c then 1 else 0
  }

  lemma {:induction false} SpentMultiplicity(inputs: seq<Input>, c: Coin)
    ensures multiset(SpentCoins(inputs))[c] == SumBy(CountSpent(c), inputs)
  {
    if inputs != [] {
      SpentMultiplicity(inputs[..|inputs| - 1], c);
    }
  }

  lemma SpentIgnoresOrder(inputs: seq<Input>, inputs': seq<Input>)
    requires multiset(inputs) == multiset(inputs')
    ensures multiset(SpentCoins(inputs)) == multiset(SpentCoins(inputs'))
  {
    forall c ensures multiset(SpentCoins(inputs))[c] == multiset(SpentCoins(inputs'))[c] {
      SpentMultiplicity(inputs, c);
      SpentMultiplicity(inputs', c);
      SumIsOrderFree(CountSpent(c), inputs, inputs');
    }
  }

  /** Intents that ask for the same scripts with the same totals, and agree in everything else. */
  ghost predicate SameRequests(a: Intent, b: Intent) {
    && b == a.(customOutputs := b.customOutputs)
    && forall s :: (IsRequested(a, s) <==> IsRequested(b, s)) && RequestedFor(a, s) == RequestedFor(b, s)
  }

  lemma SameRoutes(a: Intent, b: Intent, funding: set<Script>)
    requires SameRequests(a, b)
    ensures forall s :: RouteOf(a, funding, s) == RouteOf(b, funding, s)
  {
    forall s ensures RouteOf(a, funding, s) == RouteOf(b, funding, s) {
      assert IsRequested(a, s) <==> IsRequested(b, s);
    }
  }

  lemma {:induction false} LegsOfSameRequests(a: Intent, b: Intent, funding: set<Script>, outs: seq<Output>)
    requires SameRequests(a, b)
    ensures LegsOf(a, funding, outs) == LegsOf(b, funding, outs)
  {
    SameRoutes(a, b, funding);
    if outs != [] {
      LegsOfSameRequests(a, b, funding, outs[..|outs| - 1]);
    }
  }

  lemma OutputsOkIgnoresOrder(a: Intent, b: Intent, funding: set<Script>, outs: seq<Output>, outs': seq<Output>)
    requires SameRequests(a, b) && multiset(outs) == multiset(outs')
    requires OutputsOk(a, funding, outs)
    ensures OutputsOk(b, funding, outs')
  {
    SameRoutes(a, b, funding);
    forall o | o in outs' ensures OutputOk(b, funding, o) {
      assert o in multiset(outs') && o in multiset(outs);
      assert OutputOk(a, funding, o);
    }
    forall s ensures WithinRequest(b, funding, outs', s) {
      assert WithinRequest(a, funding, outs, s);
      SumIsOrderFree(PaidTo(s), outs, outs');
      assert RequestedFor(a, s) == RequestedFor(b, s);
    }
    LegsIgnoreOrder(a, funding, outs, outs');
    LegsOfSameRequests(a, b, funding, outs');
  }

  ghost predicate SameUpToOrder(tx: Tx, tx': Tx) {
    multiset(tx.inputs) == multiset(tx'.inputs) && multiset(tx.outputs) == multiset(tx'.outputs)
  }

  lemma SameMembers<T>(a: seq<T>, b: seq<T>)
    requires multiset(a) == multiset(b)
    ensures forall x :: x in a <==> x in b
  {
    forall x ensures x in a <==> x in b {
      assert x in a <==> x in multiset(a);
      assert x in b <==> x in multiset(b);
    }
  }

  lemma AcceptanceTransfers(tx: Tx, tx': Tx, a: Intent, b: Intent)
    requires SameUpToOrder(tx, tx') && SameRequests(a, b) && Accepts(tx, a)
    ensures Accepts(tx', b)
    ensures FeeComputable(tx.inputs) <==> FeeComputable(tx'.inputs)
    ensures TotalIn(tx) == TotalIn(tx') && TotalOut(tx) == TotalOut(tx')
    ensures multiset(PhaseFunding(tx, a)) == multiset(PhaseFunding(tx', b))
  {
    var funding := FundingScripts(tx.inputs, a);
    SameMembers(tx.inputs, tx'.inputs);
    assert FundingScripts(tx'.inputs, b) == funding;
    SpentIgnoresOrder(tx.inputs, tx'.inputs);
    SumIsOrderFree(InValue, tx.inputs, tx'.inputs);
    SumIsOrderFree(OutValue, tx.outputs, tx'.outputs);
    OutputsOkIgnoresOrder(a, b, funding, tx.outputs, tx'.outputs);
    LegsIgnoreOrder(a, funding, tx.outputs, tx'.outputs);
    LegsOfSameRequests(a, b, funding, tx'.outputs);
    SumIsOrderFree(CoinValue, PhaseFunding(tx, a), PhaseFunding(tx', b));
  }

  lemma SameRequestsIsSymmetric(a: Intent, b: Intent)
    requires SameRequests(a, b)
    ensures SameRequests(b, a)
  {
    forall s ensures (IsRequested(b, s) <==> IsRequested(a, s)) && RequestedFor(b, s) == RequestedFor(a, s) {
      assert IsRequested(a, s) <==> IsRequested(b, s);
    }
    assert a == b.(customOutputs := a.customOutputs);
  }

  ghost predicate SameReport(r: Report, r': Report) {
    && r.fee == r'.fee && r.totalIn == r'.totalIn && r.totalOut == r'.totalOut
    && multiset(r.phaseFunding) == multiset(r'.phaseFunding)
  }

  lemma ReportTransfers(tx: Tx, tx': Tx, a: Intent, b: Intent)
    requires SameUpToOrder(tx, tx') && SameRequests(a, b) && Accepts(tx, a)
    ensures Accepts(tx', b) && SameReport(ReportOf(tx, a), ReportOf(tx', b))
  {
    AcceptanceTransfers(tx, tx', a, b);
    var c, i, o := FeeComputable(tx.inputs), TotalIn(tx), TotalOut(tx);
    assert SameReport(Reported(c, i, o, PhaseFunding(tx, a)), Reported(c, i, o, PhaseFunding(tx', b)));
  }

  /** Neither the order of inputs or outputs nor the way the requests are listed moves the verdict,
      the fee or the totals; the reported legs are the same up to order. */
  lemma VerdictIgnoresOrder(tx: Tx, tx': Tx, a: Intent, b: Intent)
    requires SameUpToOrder(tx, tx') && SameRequests(a, b)
    ensures Accepts(tx, a) <==> Accepts(tx', b)
    ensures Accepts(tx, a) ==> SameReport(ReportOf(tx, a), ReportOf(tx', b))
  {
    if Accepts(tx, a) {
      ReportTransfers(tx, tx', a, b);
    }
    SameRequestsIsSymmetric(a, b);
    if Accepts(tx', b) {
      AcceptanceTransfers(tx', tx, b, a);
    }
  }

  /** Listing the requested outputs in another order asks for the same. */
  lemma PermutedRequests(a: Intent, customs: seq<CustomOutput>)
    requires multiset(a.customOutputs) == multiset(customs)
    ensures SameRequests(a, a.(customOutputs := customs))
  {
    SameMembers(a.customOutputs, customs);
    forall s ensures RequestedFor(a, s) == RequestedFor(a.(customOutputs := customs), s) {
      SumIsOrderFree(AskedFor(s), a.customOutputs, customs);
    }
  }

  /** So does splitting one requested output into several to the same script with the same total. */
  lemma SplitRequests(a: Intent, before: seq<CustomOutput>, c: CustomOutput, parts: seq<CustomOutput>, after: seq<CustomOutput>)
    requires a.customOutputs == before + [c] + after && c.script.Some? && parts != []
    requires forall i :: 0 <= i < |parts| ==> parts[i].script == c.script
    requires SumBy(AskedInAll, parts) == AskedInAll(c)
    ensures SameRequests(a, a.(customOutputs := before + parts + after))
  {
    var b := a.(customOutputs := before + parts + after);
    forall s ensures (IsRequested(a, s) <==> IsRequested(b, s)) && RequestedFor(a, s) == RequestedFor(b, s) {
      SplitRequestedFor(s, before, [c], after);
      SplitRequestedFor(s, before, parts, after);
      assert [c][..0] == [];
      SplitPartsTotal(s, c, parts);
      SplitPartsAsked(s, before, c, parts, after);
    }
  }

  lemma SplitPartsAsked(s: Script, before: seq<CustomOutput>, c: CustomOutput, parts: seq<CustomOutput>, after: seq<CustomOutput>)
    requires parts != [] && forall i :: 0 <= i < |parts| ==> parts[i].script == c.script
    ensures (exists x :: x in before + [c] + after && x.script == Some(s)) <==>
            (exists x :: x in before + parts + after && x.script == Some(s))
  {
    assert forall x :: x in before + [c] + after <==> x in before || x == c || x in after;
    assert forall x :: x in before + parts + after <==> x in before || x in parts || x in after;
    assert parts[0] in parts;
  }

  lemma SplitRequestedFor(s: Script, before: seq<CustomOutput>, middle: seq<CustomOutput>, after: seq<CustomOutput>)
    ensures SumBy(AskedFor(s), before + middle + after) ==
            SumBy(AskedFor(s), before) + SumBy(AskedFor(s), middle) + SumBy(AskedFor(s), after)
  {
    SumOfConcat(AskedFor(s), before + middle, after);
    SumOfConcat(AskedFor(s), before, middle);
  }

  lemma {:induction false} SplitPartsTotal(s: Script, c: CustomOutput, parts: seq<CustomOutput>)
    requires c.script.Some? && forall i :: 0 <= i < |parts| ==> parts[i].script == c.script
    ensures SumBy(AskedFor(s), parts) == if c.script == Some(s) then SumBy(AskedInAll, parts) else 0
  {
    if parts != [] {
      SplitPartsTotal(s, c, parts[..|parts| - 1]);
    }
  }
}
