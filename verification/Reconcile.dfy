/** The pre-signature gate: what a remote encoder's transaction must satisfy before it is signed.

    Inputs and outputs are taken as already parsed. `Accepts` states the gate's verdict on whole
    transactions, without an order of evaluation; ReconcileGate.dfy proves the running code against it. */
module Reconcile {
  import opened Options
  import opened Sums

  type Script = seq<bv8>

  datatype Coin = Coin(script: Script, value: nat)

  /** `trusted`: the prevout fields agree. A value is absent when it is not an exact integer. */
  datatype Input = Input(trusted: bool, script: Option<Script>, value: Option<nat>, presigned: bool, singleKey: bool)
  datatype Output = Output(script: Script, value: Option<nat>)
  datatype Tx = Tx(inputs: seq<Input>, outputs: seq<Output>)

  /** A destination the caller asked for; an address that does not parse has no script. */
  datatype CustomOutput = CustomOutput(script: Option<Script>, value: Option<nat>)

  /** An optional ceiling. A ceiling that cannot be parsed is not the same as none. */
  datatype Cap = NoCap | Malformed | Limit(sats: nat)

  datatype Intent = Intent(
    customOutputs: seq<CustomOutput>,
    changeScripts: seq<Script>,      // submitted change addresses and the caller's own scripts
    nestedScripts: seq<Script>,      // the caller's P2SH-P2WPKH scripts
    isOpReturn: Script -> bool,
    isShaped: Script -> bool,        // matches one of this phase's script shapes
    phaseSpends: Option<seq<Coin>>,  // prevouts of the companion transaction, when there is one
    requiredSpends: seq<Coin>,       // legs an earlier phase paid
    maxFee: Cap,
    maxPhaseFunding: Cap)

  datatype Report = Report(fee: Option<nat>, totalIn: Option<nat>, totalOut: nat, phaseFunding: seq<Coin>)

  // ---- Inputs -----------------------------------------------------------------------------------

  predicate Funds(x: Input, intent: Intent) {
    x.script.Some? && !x.presigned && (x.singleKey || x.script.value in intent.nestedScripts)
  }

  /** Scripts that may receive change because the signer alone controls them. */
  ghost function FundingScripts(inputs: seq<Input>, intent: Intent): set<Script> {
    set x | x in inputs && Funds(x, intent) :: x.script.value
  }

  ghost predicate AllTrusted(inputs: seq<Input>) {
    forall x :: x in inputs ==> x.trusted && x.script.Some?
  }

  ghost predicate AnyUnsigned(inputs: seq<Input>) {
    exists x :: x in inputs && !x.presigned
  }

  ghost predicate FeeComputable(inputs: seq<Input>) {
    forall x :: x in inputs ==> x.value.Some?
  }

  function InValue(x: Input): nat {
    x.value.GetOr(0)
  }

  function TotalIn(tx: Tx): nat {
    SumBy(InValue, tx.inputs)
  }

  predicate HasCoin(x: Input) {
    x.script.Some? && x.value.Some?
  }

  function CoinOf(x: Input): Coin
    requires HasCoin(x)
  {
    Coin(x.script.value, x.value.value)
  }

  /** The coins the inputs spend, those of known value. */
  function SpentCoins(inputs: seq<Input>): seq<Coin> {
    if inputs == [] then []
    else
      var last := inputs[|inputs| - 1];
      SpentCoins(inputs[..|inputs| - 1]) + if HasCoin(last) then [CoinOf(last)] else []
  }

  // ---- Outputs ----------------------------------------------------------------------------------

  datatype Route = OpReturn | Own | Requested | Leg | Unknown

  predicate IsRequested(intent: Intent, s: Script) {
    exists c :: c in intent.customOutputs && c.script == Some(s)
  }

  /** Which rule an output falls under, in the order the gate tries them. */
  ghost function RouteOf(intent: Intent, funding: set<Script>, s: Script): Route {
    if intent.isOpReturn(s) then OpReturn
    else if s in funding || s in intent.changeScripts then Own
    else if IsRequested(intent, s) then Requested
    else if intent.isShaped(s) then Leg
    else Unknown
  }

  function AskedFor(s: Script): CustomOutput -> nat {
    (c: CustomOutput) => if c.script == Some(s) then c.value.GetOr(0) else 0
  }

  /** The total the caller asked to send to a script, over repeated entries. */
  function RequestedFor(intent: Intent, s: Script): nat {
    SumBy(AskedFor(s), intent.customOutputs)
  }

  function OutValue(o: Output): nat {
    o.value.GetOr(0)
  }

  function PaidTo(s: Script): Output -> nat {
    (o: Output) => if o.script == s then o.value.GetOr(0) else 0
  }

  ghost function PaidBy(intent: Intent, funding: set<Script>, route: Route): Output -> nat {
    (o: Output) => if RouteOf(intent, funding, o.script) == route then o.value.GetOr(0) else 0
  }

  /** The shaped legs among the outputs, in order. */
  ghost function LegsOf(intent: Intent, funding: set<Script>, outs: seq<Output>): seq<Coin> {
    if outs == [] then []
    else
      var last := outs[|outs| - 1];
      LegsOf(intent, funding, outs[..|outs| - 1])
      + if RouteOf(intent, funding, last.script) == Leg then [Coin(last.script, last.value.GetOr(0))] else []
  }

  function CoinValue(c: Coin): nat {
    c.value
  }

  ghost predicate OutputOk(intent: Intent, funding: set<Script>, o: Output) {
    && o.value.Some?
    && RouteOf(intent, funding, o.script) != Unknown
    && (RouteOf(intent, funding, o.script) == OpReturn ==> o.value.value == 0)
  }

  ghost predicate WithinRequest(intent: Intent, funding: set<Script>, outs: seq<Output>, s: Script) {
    RouteOf(intent, funding, s) == Requested ==> SumBy(PaidTo(s), outs) <= RequestedFor(intent, s)
  }

  ghost predicate OutputsOk(intent: Intent, funding: set<Script>, outs: seq<Output>) {
    && (forall o :: o in outs ==> OutputOk(intent, funding, o))
    && (forall s :: WithinRequest(intent, funding, outs, s))
    && (intent.phaseSpends.Some? ==> multiset(LegsOf(intent, funding, outs)) <= multiset(intent.phaseSpends.value))
  }

  predicate CapOk(cap: Cap, total: nat) {
    match cap
    case NoCap => true
    case Malformed => false
    case Limit(sats) => total <= sats
  }

  function TotalOut(tx: Tx): nat {
    SumBy(OutValue, tx.outputs)
  }

  predicate FeeOk(intent: Intent, totalIn: nat, totalOut: nat) {
    && totalOut <= totalIn
    && !(totalIn > 0 && totalOut == 0)
    && CapOk(intent.maxFee, totalIn - totalOut)
  }

  // ---- The verdict ------------------------------------------------------------------------------

  ghost function PhaseFunding(tx: Tx, intent: Intent): seq<Coin> {
    LegsOf(intent, FundingScripts(tx.inputs, intent), tx.outputs)
  }

  ghost predicate InputsOk(inputs: seq<Input>, intent: Intent) {
    && AllTrusted(inputs) && AnyUnsigned(inputs)
    && multiset(intent.requiredSpends) <= multiset(SpentCoins(inputs))
  }

  ghost predicate Accepts(tx: Tx, intent: Intent) {
    && InputsOk(tx.inputs, intent)
    && OutputsOk(intent, FundingScripts(tx.inputs, intent), tx.outputs)
    && CapOk(intent.maxPhaseFunding, SumBy(CoinValue, PhaseFunding(tx, intent)))
    && (FeeComputable(tx.inputs) ==> FeeOk(intent, TotalIn(tx), TotalOut(tx)))
  }

  /** What an accepted transaction reports. */
  ghost function ReportOf(tx: Tx, intent: Intent): Report
    requires Accepts(tx, intent)
  {
    Reported(FeeComputable(tx.inputs), TotalIn(tx), TotalOut(tx), PhaseFunding(tx, intent))
  }

  /** Without all input values known there is no fee to report. */
  function Reported(computable: bool, totalIn: nat, totalOut: nat, legs: seq<Coin>): Report
    requires computable ==> totalOut <= totalIn
  {
    if computable then Report(Some(totalIn - totalOut), Some(totalIn), totalOut, legs)
    else Report(None, None, totalOut, legs)
  }
}
