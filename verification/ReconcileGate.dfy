/** The gate as it runs: one pass over the inputs, one over the outputs, with running accumulators. */
module ReconcileGate {
  import opened Collections
  import opened Options
  import opened Sums
  import opened Reconcile

  /** An entry of a list that matches are consumed from. */
  datatype PoolEntry = PoolEntry(script: Script, value: Option<nat>, taken: bool)

  /** A requested script with the cap on its total and what has been paid to it so far. */
  datatype Allowance = Allowance(script: Script, maxValue: nat, spent: nat)

  // ---- Pools ------------------------------------------------------------------------------------

  /** The coins still to be consumed. */
  function Free(pool: seq<PoolEntry>): multiset<Coin> {
    if pool == [] then multiset{}
    else
      var last := pool[|pool| - 1];
      Free(pool[..|pool| - 1]) + FreeIn(last)
  }

  function FreeIn(p: PoolEntry): multiset<Coin> {
    if p.value.Some? && !p.taken then multiset{Coin(p.script, p.value.value)} else multiset{}
  }

  predicate IsMatch(p: PoolEntry, script: Script, value: nat) {
    !p.taken && p.script == script && p.value == Some(value)
  }

  lemma {:induction false} TakingOne(pool: seq<PoolEntry>, i: nat, c: Coin)
    requires i < |pool| && IsMatch(pool[i], c.script, c.value)
    ensures Free(pool) == Free(pool[i := pool[i].(taken := true)]) + multiset{c}
    decreases |pool|
  {
    var front, last := pool[..|pool| - 1], pool[|pool| - 1];
    var took := pool[i].(taken := true);
    if i < |front| {
      TakingOne(front, i, c);
      UpdateInFront(pool, i, took);
      FreeAppend(front, last);
      FreeAppend(front[i := took], last);
      SwapLast(Free(front[i := took]), multiset{c}, FreeIn(last));
    } else {
      TakingLast(front, last, c);
      UpdateLast(pool, took);
    }
  }

  lemma UpdateLast(pool: seq<PoolEntry>, e: PoolEntry)
    requires pool != []
    ensures
      var front := pool[..|pool| - 1];
      pool == front + [pool[|pool| - 1]] && pool[|pool| - 1 := e] == front + [e]
  {
  }

  lemma TakingLast(front: seq<PoolEntry>, last: PoolEntry, c: Coin)
    requires IsMatch(last, c.script, c.value)
    ensures Free(front + [last]) == Free(front + [last.(taken := true)]) + multiset{c}
  {
    FreeAppend(front, last);
    FreeAppend(front, last.(taken := true));
  }

  lemma UpdateInFront(pool: seq<PoolEntry>, i: nat, e: PoolEntry)
    requires i < |pool| - 1
    ensures
      var front, last := pool[..|pool| - 1], pool[|pool| - 1];
      pool == front + [last] && pool[i := e] == front[i := e] + [last]
  {
  }

  lemma SwapLast(a: multiset<Coin>, b: multiset<Coin>, c: multiset<Coin>)
    ensures a + b + c == a + c + b
  {
  }

  lemma {:induction false} NoneToTake(pool: seq<PoolEntry>, c: Coin)
    requires forall i :: 0 <= i < |pool| ==> !IsMatch(pool[i], c.script, c.value)
    ensures c !in Free(pool)
  {
    if pool != [] {
      NoneToTake(pool[..|pool| - 1], c);
    }
  }

  /** Marks the first free entry with this script and value, if there is one. */
  method TakeMatch(pool: seq<PoolEntry>, script: Script, value: nat) returns (found: bool, pool': seq<PoolEntry>)
    ensures found <==> Coin(script, value) in Free(pool)
    ensures found ==> Free(pool) == Free(pool') + multiset{Coin(script, value)}
    ensures !found ==> pool' == pool
  {
    pool' := pool;
    for i := 0 to |pool|
      invariant forall j :: 0 <= j < i ==> !IsMatch(pool[j], script, value)
    {
      if IsMatch(pool[i], script, value) {
        TakingOne(pool, i, Coin(script, value));
        return true, pool[i := pool[i].(taken := true)];
      }
    }
    NoneToTake(pool, Coin(script, value));
    return false, pool;
  }

  function PoolOf(coins: seq<Coin>): (pool: seq<PoolEntry>)
    ensures Free(pool) == multiset(coins)
  {
    if coins == [] then []
    else
      var last := coins[|coins| - 1];
      assert coins == coins[..|coins| - 1] + [last];
      PoolOf(coins[..|coins| - 1]) + [PoolEntry(last.script, Some(last.value), false)]
  }

  // ---- Step lemmas ------------------------------------------------------------------------------

  lemma LegsStep(intent: Intent, funding: set<Script>, outs: seq<Output>, i: nat)
    requires i < |outs|
    ensures LegsOf(intent, funding, outs[..i + 1]) == LegsOf(intent, funding, outs[..i])
            + if RouteOf(intent, funding, outs[i].script) == Leg then [Coin(outs[i].script, outs[i].value.GetOr(0))] else []
  {
    assert outs[..i + 1][..i] == outs[..i];
  }

  lemma {:induction false} LegsOfPrefix(intent: Intent, funding: set<Script>, outs: seq<Output>, i: nat)
    requires i <= |outs|
    ensures multiset(LegsOf(intent, funding, outs[..i])) <= multiset(LegsOf(intent, funding, outs))
    decreases |outs| - i
  {
    if i == |outs| {
      assert outs[..i] == outs;
    } else {
      LegsStep(intent, funding, outs, i);
      LegsOfPrefix(intent, funding, outs, i + 1);
    }
  }

  /** A refused prefix refuses the whole: no later output can repair an earlier one. */
  lemma OutputsOkOfPrefix(intent: Intent, funding: set<Script>, outs: seq<Output>, i: nat)
    requires i <= |outs| && OutputsOk(intent, funding, outs)
    ensures OutputsOk(intent, funding, outs[..i])
  {
    forall s ensures WithinRequest(intent, funding, outs[..i], s) {
      SumOfPrefix(PaidTo(s), outs, i);
      assert WithinRequest(intent, funding, outs, s);
    }
    LegsOfPrefix(intent, funding, outs, i);
  }

  lemma RefusedPrefix(intent: Intent, funding: set<Script>, outs: seq<Output>, i: nat)
    requires i <= |outs| && !OutputsOk(intent, funding, outs[..i])
    ensures !OutputsOk(intent, funding, outs)
  {
    if OutputsOk(intent, funding, outs) {
      OutputsOkOfPrefix(intent, funding, outs, i);
    }
  }

  lemma FreeAppend(pool: seq<PoolEntry>, e: PoolEntry)
    ensures Free(pool + [e]) == Free(pool) + FreeIn(e)
  {
    assert (pool + [e])[..|pool|] == pool;
  }

  lemma SetOfAppend(scripts: seq<Script>, s: Script)
    ensures SetOf(scripts + [s]) == SetOf(scripts) + {s}
  {
  }

  /** The four results of reading some inputs. */
  ghost predicate InputsRead(
    intent: Intent, inputs: seq<Input>, funding: seq<Script>, coins: seq<PoolEntry>, total: nat, computable: bool)
  {
    && SetOf(funding) == FundingScripts(inputs, intent)
    && Free(coins) == multiset(SpentCoins(inputs))
    && total == SumBy(InValue, inputs)
    && (computable <==> FeeComputable(inputs))
  }

  lemma TrustStep(inputs: seq<Input>, i: nat)
    requires i < |inputs|
    ensures AllTrusted(inputs[..i + 1]) <==> AllTrusted(inputs[..i]) && inputs[i].trusted && inputs[i].script.Some?
    ensures AnyUnsigned(inputs[..i + 1]) <==> AnyUnsigned(inputs[..i]) || !inputs[i].presigned
    ensures AllTrusted(inputs) ==> inputs[i].trusted && inputs[i].script.Some?
  {
    assert inputs[..i + 1] == inputs[..i] + [inputs[i]];
  }

  /** Adds one trusted input to what has been read. */
  method ReadInput(
    intent: Intent, x: Input, funding: seq<Script>, coins: seq<PoolEntry>, total: nat, computable: bool,
    ghost before: seq<Input>)
    returns (funding': seq<Script>, coins': seq<PoolEntry>, total': nat, computable': bool)
    requires x.script.Some? && InputsRead(intent, before, funding, coins, total, computable)
    ensures InputsRead(intent, before + [x], funding', coins', total', computable')
  {
    assert (before + [x])[..|before|] == before;
    SetOfAppend(funding, x.script.value);
    FreeAppend(coins, PoolEntry(x.script.value, x.value, false));
    FundingAppend(before, x, intent);
    funding', total', computable' := funding, total, computable;
    if !x.presigned && (x.singleKey || x.script.value in intent.nestedScripts) {
      funding' := funding + [x.script.value];
    }
    if x.value.None? {
      computable' := false;
    } else {
      total' := total + x.value.value;
    }
    coins' := coins + [PoolEntry(x.script.value, x.value, false)];
  }

  lemma FundingAppend(before: seq<Input>, x: Input, intent: Intent)
    ensures FundingScripts(before + [x], intent)
            == FundingScripts(before, intent) + (if Funds(x, intent) then {x.script.value} else {})
  {
    assert forall y :: y in before + [x] <==> y in before || y == x;
  }

  // ---- Allowances -------------------------------------------------------------------------------

  /** One allowance per requested script, capped at that script's total over the entries read. */
  ghost predicate Allows(list: seq<Allowance>, customs: seq<CustomOutput>) {
    && (forall i, j :: 0 <= i < j < |list| ==> list[i].script != list[j].script)
    && (forall i :: 0 <= i < |list| ==> list[i].spent == 0 && list[i].maxValue == SumBy(AskedFor(list[i].script), customs))
    && (forall s :: Asked(customs, s) <==> Listed(list, s))
  }

  ghost predicate Asked(customs: seq<CustomOutput>, s: Script) {
    exists c :: c in customs && c.script == Some(s)
  }

  ghost predicate Listed(list: seq<Allowance>, s: Script) {
    exists i :: 0 <= i < |list| && list[i].script == s
  }

  lemma AskedAppend(customs: seq<CustomOutput>, c: CustomOutput, s: Script)
    ensures Asked(customs + [c], s) <==> Asked(customs, s) || c.script == Some(s)
    ensures SumBy(AskedFor(s), customs + [c]) ==
            SumBy(AskedFor(s), customs) + if c.script == Some(s) then c.value.GetOr(0) else 0
  {
    assert (customs + [c])[..|customs|] == customs;
    assert forall d :: d in customs + [c] <==> d in customs || d == c;
  }

  lemma {:induction false} NeverAsked(customs: seq<CustomOutput>, s: Script)
    requires !Asked(customs, s)
    ensures SumBy(AskedFor(s), customs) == 0
  {
    if customs != [] {
      assert customs[|customs| - 1] in customs;
      assert !Asked(customs[..|customs| - 1], s);
      NeverAsked(customs[..|customs| - 1], s);
    }
  }

  lemma SkipAllowance(list: seq<Allowance>, customs: seq<CustomOutput>, c: CustomOutput)
    requires Allows(list, customs) && c.script.None?
    ensures Allows(list, customs + [c])
  {
    forall s {:trigger Asked(customs, s)}
      ensures Asked(customs + [c], s) <==> Asked(customs, s)
      ensures SumBy(AskedFor(s), customs + [c]) == SumBy(AskedFor(s), customs)
    {
      AskedAppend(customs, c, s);
    }
  }

  lemma RaiseAllowance(list: seq<Allowance>, customs: seq<CustomOutput>, c: CustomOutput, at: nat)
    requires Allows(list, customs) && at < |list| && c.script == Some(list[at].script)
    ensures Allows(list[at := list[at].(maxValue := list[at].maxValue + c.value.GetOr(0))], customs + [c])
  {
    var list' := list[at := list[at].(maxValue := list[at].maxValue + c.value.GetOr(0))];
    forall i | 0 <= i < |list| ensures list'[i].maxValue == SumBy(AskedFor(list'[i].script), customs + [c]) {
      AskedAppend(customs, c, list[i].script);
    }
    assert forall i :: 0 <= i < |list| ==> list'[i].script == list[i].script;
    forall s ensures Asked(customs + [c], s) <==> Listed(list', s) {
      AskedAppend(customs, c, s);
      assert Listed(list', s) <==> Listed(list, s);
      assert Listed(list, list[at].script);
    }
  }

  /** A new entry for another script moves no earlier cap. */
  lemma CapStays(list: seq<Allowance>, customs: seq<CustomOutput>, c: CustomOutput, i: nat)
    requires Allows(list, customs) && i < |list| && c.script.Some? && !Listed(list, c.script.value)
    ensures list[i].script != c.script.value
    ensures list[i].spent == 0 && list[i].maxValue == SumBy(AskedFor(list[i].script), customs + [c])
  {
    assert Listed(list, list[i].script);
    AskedAppend(customs, c, list[i].script);
  }

  lemma AddAllowance(list: seq<Allowance>, customs: seq<CustomOutput>, c: CustomOutput)
    requires Allows(list, customs) && c.script.Some? && !Listed(list, c.script.value)
    ensures Allows(list + [Allowance(c.script.value, c.value.GetOr(0), 0)], customs + [c])
  {
    var added := Allowance(c.script.value, c.value.GetOr(0), 0);
    NeverAsked(customs, added.script);
    AskedAppend(customs, c, added.script);
    forall i | 0 <= i < |list|
      ensures list[i].script != added.script && list[i].spent == 0
      ensures list[i].maxValue == SumBy(AskedFor(list[i].script), customs + [c])
    {
      CapStays(list, customs, c, i);
    }
    forall s ensures Asked(customs + [c], s) <==> Listed(list + [added], s) {
      AskedAppend(customs, c, s);
      ListedAppend(list, added, s);
    }
  }

  lemma ListedAppend(list: seq<Allowance>, a: Allowance, s: Script)
    ensures Listed(list + [a], s) <==> Listed(list, s) || a.script == s
  {
    if Listed(list, s) {
      var i :| 0 <= i < |list| && list[i].script == s;
      assert (list + [a])[i].script == s;
    }
    if a.script == s {
      assert (list + [a])[|list|].script == s;
    }
  }

  // ---- Outputs ----------------------------------------------------------------------------------

  /** What the accumulators hold after some outputs have passed. */
  ghost predicate Accounts(
    intent: Intent, funding: set<Script>, outs: seq<Output>, totalOut: nat, pool: Option<seq<PoolEntry>>,
    legs: seq<Coin>, legTotal: nat)
  {
    && totalOut == SumBy(OutValue, outs)
    && legs == LegsOf(intent, funding, outs) && legTotal == SumBy(CoinValue, legs)
    && (pool.Some? <==> intent.phaseSpends.Some?)
    && (pool.Some? ==> Free(pool.value) + multiset(legs) == multiset(intent.phaseSpends.value))
  }

  /** Each allowance carries its cap and what the passed outputs have paid to its script. */
  ghost predicate Tallies(intent: Intent, funding: set<Script>, list: seq<Allowance>, outs: seq<Output>) {
    && (forall i, j :: 0 <= i < j < |list| ==> list[i].script != list[j].script)
    && (forall i :: 0 <= i < |list| ==> Tally(intent, funding, list[i], outs))
    && (forall s :: Asked(intent.customOutputs, s) <==> Listed(list, s))
  }

  ghost predicate Tally(intent: Intent, funding: set<Script>, a: Allowance, outs: seq<Output>) {
    && a.maxValue == RequestedFor(intent, a.script)
    && (RouteOf(intent, funding, a.script) == Requested ==> a.spent == SumBy(PaidTo(a.script), outs))
  }

  lemma LegsAppend(intent: Intent, funding: set<Script>, outs: seq<Output>, o: Output)
    ensures LegsOf(intent, funding, outs + [o]) == LegsOf(intent, funding, outs)
            + if RouteOf(intent, funding, o.script) == Leg then [Coin(o.script, o.value.GetOr(0))] else []
  {
    assert (outs + [o])[..|outs|] == outs;
  }

  /** One more output keeps the verdict exactly when it passes its own rule. */
  lemma OutputsOkAppend(intent: Intent, funding: set<Script>, outs: seq<Output>, o: Output)
    requires OutputsOk(intent, funding, outs)
    ensures OutputsOk(intent, funding, outs + [o]) <==>
      && OutputOk(intent, funding, o)
      && (RouteOf(intent, funding, o.script) == Requested ==>
            SumBy(PaidTo(o.script), outs) + o.value.value <= RequestedFor(intent, o.script))
      && (RouteOf(intent, funding, o.script) == Leg && intent.phaseSpends.Some? ==>
            multiset(LegsOf(intent, funding, outs)) + multiset{Coin(o.script, o.value.value)}
            <= multiset(intent.phaseSpends.value))
  {
    var outs' := outs + [o];
    assert o in outs' && forall x :: x in outs' <==> x in outs || x == o;
    forall s ensures SumBy(PaidTo(s), outs') == SumBy(PaidTo(s), outs) + if o.script == s then o.value.GetOr(0) else 0 {
      SumAppend(PaidTo(s), outs, o);
    }
    forall s ensures WithinRequest(intent, funding, outs', s) <==>
      (s == o.script && RouteOf(intent, funding, s) == Requested ==>
         SumBy(PaidTo(s), outs) + o.value.GetOr(0) <= RequestedFor(intent, s))
    {
      assert WithinRequest(intent, funding, outs, s);
    }
    LegsAppend(intent, funding, outs, o);
  }

  /** A coin was consumed, if there is a pool to consume from. */
  ghost predicate TookOne(pool: Option<seq<PoolEntry>>, rest: Option<seq<PoolEntry>>, c: Coin) {
    && (pool.Some? <==> rest.Some?)
    && (pool.Some? ==> Free(pool.value) == Free(rest.value) + multiset{c})
  }

  lemma TalliesSkip(intent: Intent, funding: set<Script>, list: seq<Allowance>, outs: seq<Output>, o: Output)
    requires Tallies(intent, funding, list, outs) && RouteOf(intent, funding, o.script) != Requested
    ensures Tallies(intent, funding, list, outs + [o])
  {
    forall i | 0 <= i < |list| ensures Tally(intent, funding, list[i], outs + [o]) {
      assert Tally(intent, funding, list[i], outs);
      SumAppend(PaidTo(list[i].script), outs, o);
    }
  }

  lemma TalliesPay(intent: Intent, funding: set<Script>, list: seq<Allowance>, outs: seq<Output>, o: Output, at: nat)
    requires Tallies(intent, funding, list, outs) && o.value.Some? && at < |list| && list[at].script == o.script
    ensures Tallies(intent, funding, list[at := list[at].(spent := list[at].spent + o.value.value)], outs + [o])
  {
    var list' := list[at := list[at].(spent := list[at].spent + o.value.value)];
    forall i | 0 <= i < |list'| ensures Tally(intent, funding, list'[i], outs + [o]) {
      assert Tally(intent, funding, list[i], outs);
      SumAppend(PaidTo(list[i].script), outs, o);
    }
    assert forall i :: 0 <= i < |list| ==> list'[i].script == list[i].script;
    forall s ensures Listed(list', s) <==> Listed(list, s) {
      if Listed(list, s) {
        var i :| 0 <= i < |list| && list[i].script == s;
        assert list'[i].script == s;
      }
    }
  }

  // ---- One output, by route ---------------------------------------------------------------------

  /** Everything the gate holds after some outputs have passed. */
  ghost predicate Graded(
    intent: Intent, funding: set<Script>, outs: seq<Output>, totalOut: nat, list: seq<Allowance>,
    pool: Option<seq<PoolEntry>>, legs: seq<Coin>, legTotal: nat)
  {
    && OutputsOk(intent, funding, outs)
    && Accounts(intent, funding, outs, totalOut, pool, legs, legTotal)
    && Tallies(intent, funding, list, outs)
  }

  /** An output that is no leg moves the total only. */
  lemma AccountOther(
    intent: Intent, funding: set<Script>, outs: seq<Output>, o: Output, totalOut: nat, pool: Option<seq<PoolEntry>>,
    legs: seq<Coin>, legTotal: nat, totalOut': nat)
    requires Accounts(intent, funding, outs, totalOut, pool, legs, legTotal)
    requires o.value.Some? && totalOut' == totalOut + o.value.value && RouteOf(intent, funding, o.script) != Leg
    ensures Accounts(intent, funding, outs + [o], totalOut', pool, legs, legTotal)
  {
    SumAppend(OutValue, outs, o);
    LegsAppend(intent, funding, outs, o);
    assert LegsOf(intent, funding, outs) + [] == LegsOf(intent, funding, outs);
  }

  lemma RequestVerdict(
    intent: Intent, funding: set<Script>, list: seq<Allowance>, outs: seq<Output>, o: Output, at: nat)
    requires OutputsOk(intent, funding, outs) && Tallies(intent, funding, list, outs) && o.value.Some?
    requires RouteOf(intent, funding, o.script) == Requested && at < |list| && list[at].script == o.script
    ensures OutputsOk(intent, funding, outs + [o]) <==> list[at].spent + o.value.value <= list[at].maxValue
  {
    OutputsOkAppend(intent, funding, outs, o);
    assert Tally(intent, funding, list[at], outs);
  }

  lemma PassUncapped(
    intent: Intent, funding: set<Script>, outs: seq<Output>, o: Output, totalOut: nat, list: seq<Allowance>,
    pool: Option<seq<PoolEntry>>, legs: seq<Coin>, legTotal: nat, totalOut': nat)
    requires Graded(intent, funding, outs, totalOut, list, pool, legs, legTotal)
    requires o.value.Some? && totalOut' == totalOut + o.value.value
    requires RouteOf(intent, funding, o.script) == OpReturn || RouteOf(intent, funding, o.script) == Own
    ensures OutputsOk(intent, funding, outs + [o]) <==>
            (RouteOf(intent, funding, o.script) == OpReturn ==> o.value.value == 0)
    ensures OutputsOk(intent, funding, outs + [o]) ==>
            Graded(intent, funding, outs + [o], totalOut', list, pool, legs, legTotal)
  {
    OutputsOkAppend(intent, funding, outs, o);
    AccountOther(intent, funding, outs, o, totalOut, pool, legs, legTotal, totalOut');
    TalliesSkip(intent, funding, list, outs, o);
  }

  lemma PassRequested(
    intent: Intent, funding: set<Script>, outs: seq<Output>, o: Output, totalOut: nat, list: seq<Allowance>,
    pool: Option<seq<PoolEntry>>, legs: seq<Coin>, legTotal: nat, at: nat, totalOut': nat, list': seq<Allowance>)
    requires Graded(intent, funding, outs, totalOut, list, pool, legs, legTotal)
    requires o.value.Some? && totalOut' == totalOut + o.value.value
    requires RouteOf(intent, funding, o.script) == Requested && at < |list| && list[at].script == o.script
    requires list' == list[at := list[at].(spent := list[at].spent + o.value.value)]
    ensures OutputsOk(intent, funding, outs + [o]) <==> list'[at].spent <= list'[at].maxValue
    ensures OutputsOk(intent, funding, outs + [o]) ==>
            Graded(intent, funding, outs + [o], totalOut', list', pool, legs, legTotal)
  {
    RequestVerdict(intent, funding, list, outs, o, at);
    AccountOther(intent, funding, outs, o, totalOut, pool, legs, legTotal, totalOut');
    TalliesPay(intent, funding, list, outs, o, at);
  }

  lemma LegVerdict(
    intent: Intent, funding: set<Script>, outs: seq<Output>, o: Output, totalOut: nat, list: seq<Allowance>,
    pool: Option<seq<PoolEntry>>, legs: seq<Coin>, legTotal: nat)
    requires Graded(intent, funding, outs, totalOut, list, pool, legs, legTotal) && o.value.Some?
    requires RouteOf(intent, funding, o.script) == Leg
    ensures OutputsOk(intent, funding, outs + [o]) <==>
            (pool.Some? ==> Coin(o.script, o.value.value) in Free(pool.value))
  {
    OutputsOkAppend(intent, funding, outs, o);
    if pool.Some? {
      PoolLimit(Free(pool.value), multiset(legs), Coin(o.script, o.value.value));
    }
  }

  lemma AccountLeg(
    intent: Intent, funding: set<Script>, outs: seq<Output>, o: Output, totalOut: nat, pool: Option<seq<PoolEntry>>,
    legs: seq<Coin>, legTotal: nat, totalOut': nat, rest: Option<seq<PoolEntry>>)
    requires Accounts(intent, funding, outs, totalOut, pool, legs, legTotal)
    requires o.value.Some? && totalOut' == totalOut + o.value.value
    requires RouteOf(intent, funding, o.script) == Leg && TookOne(pool, rest, Coin(o.script, o.value.value))
    ensures Accounts(intent, funding, outs + [o], totalOut', rest,
                     legs + [Coin(o.script, o.value.value)], legTotal + o.value.value)
  {
    SumAppend(OutValue, outs, o);
    LegsAppend(intent, funding, outs, o);
    SumAppend(CoinValue, legs, Coin(o.script, o.value.value));
  }

  lemma PassLeg(
    intent: Intent, funding: set<Script>, outs: seq<Output>, o: Output, totalOut: nat, list: seq<Allowance>,
    pool: Option<seq<PoolEntry>>, legs: seq<Coin>, legTotal: nat, totalOut': nat, rest: Option<seq<PoolEntry>>)
    requires Graded(intent, funding, outs, totalOut, list, pool, legs, legTotal)
    requires o.value.Some? && totalOut' == totalOut + o.value.value
    requires RouteOf(intent, funding, o.script) == Leg && TookOne(pool, rest, Coin(o.script, o.value.value))
    ensures Graded(intent, funding, outs + [o], totalOut', list, rest,
                   legs + [Coin(o.script, o.value.value)], legTotal + o.value.value)
  {
    LegVerdict(intent, funding, outs, o, totalOut, list, pool, legs, legTotal);
    AccountLeg(intent, funding, outs, o, totalOut, pool, legs, legTotal, totalOut', rest);
    TalliesSkip(intent, funding, list, outs, o);
  }

  lemma PoolLimit(free: multiset<Coin>, used: multiset<Coin>, c: Coin)
    ensures c in free <==> used + multiset{c} <= free + used
  {
    if c in free {
      forall x ensures (used + multiset{c})[x] <= (free + used)[x] {
      }
    } else {
      assert (used + multiset{c})[c] > (free + used)[c];
    }
  }

  /** Consumes the leg's match, when there is a companion to consume it from. */
  method TakeLeg(pool: Option<seq<PoolEntry>>, script: Script, value: nat)
    returns (found: bool, rest: Option<seq<PoolEntry>>)
    ensures found <==> (pool.Some? ==> Coin(script, value) in Free(pool.value))
    ensures found ==> TookOne(pool, rest, Coin(script, value))
  {
    if pool.None? { return true, None; }
    var left;
    found, left := TakeMatch(pool.value, script, value);
    rest := Some(left);
  }

  /** The position of a script's allowance, or the length when it has none. */
  method FindAllowance(list: seq<Allowance>, script: Script) returns (at: nat)
    ensures at <= |list| && (at < |list| <==> Listed(list, script))
    ensures at < |list| ==> list[at].script == script
  {
    at := 0;
    while at < |list| && list[at].script != script
      invariant at <= |list|
      invariant forall i :: 0 <= i < at ==> list[i].script != script
    {
      at := at + 1;
    }
  }

  lemma LegIsTaken(legs: seq<Coin>, i: nat, free: multiset<Coin>, rest: multiset<Coin>, coins: multiset<Coin>)
    requires i < |legs| && multiset(legs[..i]) + free == coins && free == rest + multiset{legs[i]}
    ensures multiset(legs[..i + 1]) + rest == coins
  {
    OneMore(legs, i);
  }

  lemma LegIsMissing(legs: seq<Coin>, i: nat, free: multiset<Coin>, coins: multiset<Coin>)
    requires i < |legs| && multiset(legs[..i]) + free == coins && legs[i] !in free
    ensures !(multiset(legs) <= coins)
  {
    OneMore(legs, i);
    assert legs == legs[..i + 1] + legs[i + 1..];
    assert multiset(legs)[legs[i]] >= multiset(legs[..i + 1])[legs[i]] == multiset(legs[..i])[legs[i]] + 1;
    assert coins[legs[i]] == multiset(legs[..i])[legs[i]];
  }

  // ---- The object the checks share --------------------------------------------------------------

  class Reconciliation {
    const intent: Intent
    var fundingScripts: seq<Script>
    var spent: seq<PoolEntry>
    var totalIn: nat
    var feeComputable: bool
    var authorized: seq<Allowance>
    var totalOut: nat
    var phaseSpends: Option<seq<PoolEntry>>
    var phaseFunding: seq<Coin>
    var phaseFundingTotal: nat

    constructor (intent: Intent)
      ensures this.intent == intent
    {
      this.intent := intent;
      fundingScripts, spent, totalIn, feeComputable := [], [], 0, true;
      authorized, totalOut, phaseSpends, phaseFunding, phaseFundingTotal := [], 0, None, [], 0;
    }

    // ---- Inputs ---------------------------------------------------------------------------------

    method ReadInputs(tx: Tx) returns (ok: bool)
      modifies this
      ensures ok <==> AllTrusted(tx.inputs) && AnyUnsigned(tx.inputs)
      ensures ok ==> InputsRead(intent, tx.inputs, fundingScripts, spent, totalIn, feeComputable)
    {
      var funding, coins, computable, unsigned := [], [], true, 0;
      var total: nat := 0;
      for i := 0 to |tx.inputs|
        invariant InputsRead(intent, tx.inputs[..i], funding, coins, total, computable)
        invariant AllTrusted(tx.inputs[..i]) && (unsigned > 0 <==> AnyUnsigned(tx.inputs[..i]))
      {
        var x := tx.inputs[i];
        TrustStep(tx.inputs, i);
        if !x.trusted || x.script.None? { return false; }
        if !x.presigned { unsigned := unsigned + 1; }
        OneMore(tx.inputs, i);
        funding, coins, total, computable := ReadInput(intent, x, funding, coins, total, computable, tx.inputs[..i]);
      }
      assert tx.inputs[..|tx.inputs|] == tx.inputs;
      fundingScripts, spent, totalIn, feeComputable := funding, coins, total, computable;
      return unsigned > 0;
    }

    /** Both checks on the inputs. */
    method CheckInputs(tx: Tx) returns (ok: bool)
      modifies this
      ensures ok <==> InputsOk(tx.inputs, intent)
      ensures ok ==> SetOf(fundingScripts) == FundingScripts(tx.inputs, intent)
      ensures ok ==> totalIn == SumBy(InValue, tx.inputs) && (feeComputable <==> FeeComputable(tx.inputs))
    {
      ok := ReadInputs(tx);
      if ok { ok := CheckRequiredSpends(multiset(SpentCoins(tx.inputs))); }
    }

    method CheckRequiredSpends(ghost coins: multiset<Coin>) returns (ok: bool)
      requires Free(spent) == coins
      modifies this`spent
      ensures ok <==> multiset(intent.requiredSpends) <= coins
    {
      var legs := intent.requiredSpends;
      for i := 0 to |legs|
        invariant multiset(legs[..i]) + Free(spent) == coins
      {
        var found, pool := TakeMatch(spent, legs[i].script, legs[i].value);
        if !found {
          LegIsMissing(legs, i, Free(spent), coins);
          return false;
        }
        LegIsTaken(legs, i, Free(spent), Free(pool), coins);
        spent := pool;
      }
      assert legs[..|legs|] == legs;
      return true;
    }

    // ---- Requested destinations -----------------------------------------------------------------

    method ReadAuthorizedOutputs()
      modifies this`authorized
      ensures Allows(authorized, intent.customOutputs)
    {
      var list: seq<Allowance>, customs := [], intent.customOutputs;
      for k := 0 to |customs|
        invariant Allows(list, customs[..k])
      {
        var out := customs[k];
        OneMore(customs, k);
        if out.script.None? {
          SkipAllowance(list, customs[..k], out);
        } else {
          var value := out.value.GetOr(0);
          var at := FindAllowance(list, out.script.value);
          if at < |list| {
            RaiseAllowance(list, customs[..k], out, at);
            list := list[at := list[at].(maxValue := list[at].maxValue + value)];
          } else {
            AddAllowance(list, customs[..k], out);
            list := list + [Allowance(out.script.value, value, 0)];
          }
        }
      }
      assert customs[..|customs|] == customs;
      authorized := list;
    }

    // ---- Outputs --------------------------------------------------------------------------------

    ghost predicate Holds(funding: set<Script>, outs: seq<Output>)
      reads this
    {
      && SetOf(fundingScripts) == funding
      && Graded(intent, funding, outs, totalOut, authorized, phaseSpends, phaseFunding, phaseFundingTotal)
    }

    /** Grades one output; on refusal the accumulators no longer matter. */
    method ReconcileOutput(out: Output, ghost funding: set<Script>, ghost outs: seq<Output>) returns (ok: bool)
      requires Holds(funding, outs)
      modifies this`totalOut, this`authorized, this`phaseSpends, this`phaseFunding, this`phaseFundingTotal
      ensures ok <==> OutputsOk(intent, funding, outs + [out])
      ensures ok ==> Holds(funding, outs + [out])
    {
      OutputsOkAppend(intent, funding, outs, out);
      if out.value.None? { return false; }
      var value, script := out.value.value, out.script;
      ghost var before := totalOut;
      totalOut := totalOut + value;
      if intent.isOpReturn(script) || script in fundingScripts || script in intent.changeScripts {
        PassUncapped(intent, funding, outs, out, before, authorized, phaseSpends, phaseFunding, phaseFundingTotal, totalOut);
        return !intent.isOpReturn(script) || value == 0;
      }
      var at := FindAllowance(authorized, script);
      if at < |authorized| {
        ok := PayRequest(out, at, funding, outs, before);
        return;
      }
      if intent.isShaped(script) {
        ok := PayLeg(out, funding, outs, before);
        return;
      }
      return false;
    }

    /** The rule for a requested script, split off the branch it belongs to. */
    method PayRequest(out: Output, at: nat, ghost funding: set<Script>, ghost outs: seq<Output>, ghost before: nat)
      returns (ok: bool)
      requires SetOf(fundingScripts) == funding && out.value.Some? && totalOut == before + out.value.value
      requires Graded(intent, funding, outs, before, authorized, phaseSpends, phaseFunding, phaseFundingTotal)
      requires RouteOf(intent, funding, out.script) == Requested && at < |authorized| && authorized[at].script == out.script
      modifies this`authorized
      ensures ok <==> OutputsOk(intent, funding, outs + [out])
      ensures ok ==> Holds(funding, outs + [out])
    {
      var list := authorized[at := authorized[at].(spent := authorized[at].spent + out.value.value)];
      PassRequested(intent, funding, outs, out, before, authorized, phaseSpends, phaseFunding, phaseFundingTotal, at,
                    totalOut, list);
      authorized := list;
      return list[at].spent <= list[at].maxValue;
    }

    /** The shaped-leg rule, split off the branch it belongs to. */
    method PayLeg(out: Output, ghost funding: set<Script>, ghost outs: seq<Output>, ghost before: nat) returns (ok: bool)
      requires SetOf(fundingScripts) == funding && out.value.Some? && totalOut == before + out.value.value
      requires Graded(intent, funding, outs, before, authorized, phaseSpends, phaseFunding, phaseFundingTotal)
      requires RouteOf(intent, funding, out.script) == Leg
      modifies this`phaseSpends, this`phaseFunding, this`phaseFundingTotal
      ensures ok <==> OutputsOk(intent, funding, outs + [out])
      ensures ok ==> Holds(funding, outs + [out])
    {
      var value, script := out.value.value, out.script;
      LegVerdict(intent, funding, outs, out, before, authorized, phaseSpends, phaseFunding, phaseFundingTotal);
      var found, rest := TakeLeg(phaseSpends, script, value);
      if !found { return false; }
      PassLeg(intent, funding, outs, out, before, authorized, phaseSpends, phaseFunding, phaseFundingTotal, totalOut,
              rest);
      phaseSpends := rest;
      phaseFunding := phaseFunding + [Coin(script, value)];
      phaseFundingTotal := phaseFundingTotal + value;
      return true;
    }

    method ReconcileOutputs(outs: seq<Output>, ghost funding: set<Script>) returns (ok: bool)
      requires SetOf(fundingScripts) == funding && Allows(authorized, intent.customOutputs)
      modifies this`totalOut, this`authorized, this`phaseSpends, this`phaseFunding, this`phaseFundingTotal
      ensures ok <==> OutputsOk(intent, funding, outs)
      ensures ok ==> Holds(funding, outs)
    {
      totalOut, phaseFunding, phaseFundingTotal := 0, [], 0;
      phaseSpends := if intent.phaseSpends.Some? then Some(PoolOf(intent.phaseSpends.value)) else None;
      NothingPassedYet(intent, funding, authorized, phaseSpends);
      ok := GradeOutputs(outs, funding);
    }

    method GradeOutputs(outs: seq<Output>, ghost funding: set<Script>) returns (ok: bool)
      requires Holds(funding, [])
      modifies this`totalOut, this`authorized, this`phaseSpends, this`phaseFunding, this`phaseFundingTotal
      ensures ok <==> OutputsOk(intent, funding, outs)
      ensures ok ==> Holds(funding, outs)
    {
      assert outs[..0] == [];
      for i := 0 to |outs|
        invariant Holds(funding, outs[..i])
      {
        OneMore(outs, i);
        var passed := ReconcileOutput(outs[i], funding, outs[..i]);
        if !passed {
          RefusedPrefix(intent, funding, outs, i + 1);
          return false;
        }
      }
      assert outs[..|outs|] == outs;
      return true;
    }

    method CheckPhaseFundingCap() returns (ok: bool)
      ensures ok <==> CapOk(intent.maxPhaseFunding, phaseFundingTotal)
    {
      if intent.maxPhaseFunding.Malformed? { return false; }
      return intent.maxPhaseFunding.NoCap? || phaseFundingTotal <= intent.maxPhaseFunding.sats;
    }

    method ReconcileFee() returns (r: Result<Report>)
      ensures r.Ok? <==> (feeComputable ==> FeeOk(intent, totalIn, totalOut))
      ensures r.Ok? && feeComputable ==>
        totalOut <= totalIn && r.value == Report(Some(totalIn - totalOut), Some(totalIn), totalOut, phaseFunding)
      ensures r.Ok? && !feeComputable ==> r.value == Report(None, None, totalOut, phaseFunding)
    {
      if !feeComputable { return Ok(Report(None, None, totalOut, phaseFunding)); }
      if totalOut > totalIn { return Refused; }
      if totalIn > 0 && totalOut == 0 { return Refused; }
      var fee: nat := totalIn - totalOut;
      if intent.maxFee.Malformed? { return Refused; }
      if intent.maxFee.Limit? && fee > intent.maxFee.sats { return Refused; }
      return Ok(Report(Some(fee), Some(totalIn), totalOut, phaseFunding));
    }

    /** The checks on the totals, once inputs and outputs have passed. */
    method CheckTotals(ghost tx: Tx, ghost funding: set<Script>) returns (r: Result<Report>)
      requires InputsOk(tx.inputs, intent) && funding == FundingScripts(tx.inputs, intent) && Holds(funding, tx.outputs)
      requires totalIn == SumBy(InValue, tx.inputs) && (feeComputable <==> FeeComputable(tx.inputs))
      ensures r.Ok? <==> Accepts(tx, intent)
      ensures r.Ok? ==> r.value == ReportOf(tx, intent)
    {
      var ok := CheckPhaseFundingCap();
      if !ok { return Refused; }
      r := ReconcileFee();
      LastCheckDecides(tx, intent, funding, totalIn, totalOut, phaseFunding, feeComputable, r);
    }
  }

  lemma NothingPassedYet(intent: Intent, funding: set<Script>, list: seq<Allowance>, pool: Option<seq<PoolEntry>>)
    requires Allows(list, intent.customOutputs) && (pool.Some? <==> intent.phaseSpends.Some?)
    requires pool.Some? ==> Free(pool.value) == multiset(intent.phaseSpends.value)
    ensures Graded(intent, funding, [], 0, list, pool, [], 0)
  {
    assert forall s :: SumBy(PaidTo(s), []) == 0;
  }

  /** What the last check says once all others have passed. */
  lemma LastCheckDecides(
    tx: Tx, intent: Intent, funding: set<Script>, totalIn: nat, totalOut: nat, legs: seq<Coin>, computable: bool,
    r: Result<Report>)
    requires InputsOk(tx.inputs, intent) && funding == FundingScripts(tx.inputs, intent)
    requires OutputsOk(intent, funding, tx.outputs) && totalOut == SumBy(OutValue, tx.outputs)
    requires legs == LegsOf(intent, funding, tx.outputs) && CapOk(intent.maxPhaseFunding, SumBy(CoinValue, legs))
    requires totalIn == SumBy(InValue, tx.inputs) && (computable <==> FeeComputable(tx.inputs))
    requires r.Ok? <==> (computable ==> FeeOk(intent, totalIn, totalOut))
    requires r.Ok? && computable ==>
      totalOut <= totalIn && r.value == Report(Some(totalIn - totalOut), Some(totalIn), totalOut, legs)
    requires r.Ok? && !computable ==> r.value == Report(None, None, totalOut, legs)
    ensures r.Ok? <==> Accepts(tx, intent)
    ensures r.Ok? ==> r.value == ReportOf(tx, intent)
  {
    AcceptsInTotals(tx, intent, funding, legs);
    assert r.Ok? ==> r.value == Reported(computable, totalIn, totalOut, legs);
  }

  /** The verdict once inputs and outputs have passed: only the totals are left. */
  lemma AcceptsInTotals(tx: Tx, intent: Intent, funding: set<Script>, legs: seq<Coin>)
    requires InputsOk(tx.inputs, intent) && funding == FundingScripts(tx.inputs, intent)
    requires OutputsOk(intent, funding, tx.outputs) && legs == LegsOf(intent, funding, tx.outputs)
    requires CapOk(intent.maxPhaseFunding, SumBy(CoinValue, legs))
    ensures Accepts(tx, intent) <==> (FeeComputable(tx.inputs) ==> FeeOk(intent, TotalIn(tx), TotalOut(tx)))
    ensures PhaseFunding(tx, intent) == legs
  {
  }

  /** The whole gate: it accepts exactly the acceptable transactions and reports their totals. */
  method ReconcileEncoded(tx: Tx, intent: Intent) returns (r: Result<Report>)
    ensures r.Ok? <==> Accepts(tx, intent)
    ensures r.Ok? ==> r.value == ReportOf(tx, intent)
  {
    var gate := new Reconciliation(intent);
    ghost var funding := FundingScripts(tx.inputs, intent);
    var ok := gate.CheckInputs(tx);
    if !ok { return Refused; }
    gate.ReadAuthorizedOutputs();
    ok := gate.ReconcileOutputs(tx.outputs, funding);
    if !ok { return Refused; }
    r := gate.CheckTotals(tx, funding);
  }
}
