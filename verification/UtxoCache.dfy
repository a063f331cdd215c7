/** The in-memory UTXO tracker, with a refresh split where it waits for the tracker's answer. */
module UtxoCache {
  import opened Options
  import opened Collections
  import opened Decimal

  /** An output with its amount and whatever else the tracker reports about it. */
  datatype Utxo = Utxo(txid: string, vout: nat, details: string)
  datatype Outpoint = Outpoint(txid: string, vout: nat)

  /** The tracker's answer: {utxos: [...]}, a bare list, or anything else. */
  datatype Answer = Wrapped(utxos: seq<Utxo>) | Bare(utxos: seq<Utxo>) | Malformed

  function Listed(a: Answer): seq<Utxo> {
    if a.Malformed? then [] else a.utxos
  }

  function KeyText(txid: string, vout: nat): string {
    txid + ":" + ToDecimal(vout)
  }

  function Key(u: Utxo): string {
    KeyText(u.txid, u.vout)
  }

  /** The text key identifies the outpoint, whatever the txid contains. */
  lemma KeyIdentifiesOutpoint(t: string, v: nat, t': string, v': nat)
    requires KeyText(t, v) == KeyText(t', v')
    ensures t == t' && v == v'
  {
    var s, d, d' := KeyText(t, v), ToDecimal(v), ToDecimal(v');
    assert s[|t|] == ':' && s[|t'|] == ':';
    assert s[..|t|] == t && s[|t| + 1..] == d && s[|t'| + 1..] == d';
    DecimalRoundTrip(v);
    DecimalRoundTrip(v');
  }

  // ---- Specification: states, steps and runs --------------------------------------------------------

  datatype State = State(utxos: seq<Utxo>, spent: set<string>, speculative: seq<Utxo>, address: Option<string>, stale: bool)

  /** Everything a caller or an in-flight refresh can do between two other calls. An answer comes back to the refresh
      that asked for it, whose address the code no longer looks at. */
  datatype Event =
    | BeginRefresh(address: string)
    | EndRefresh(request: string, answer: Answer)
    | MarkSpent(inputs: seq<Outpoint>)
    | AddSpeculative(utxo: Utxo)
    | Invalidate

  const INITIAL := State([], {}, [], None, true)

  function Keys(utxos: seq<Utxo>): set<string> {
    set u | u in utxos :: Key(u)
  }

  function InputKeys(inputs: seq<Outpoint>): set<string> {
    set o | o in inputs :: KeyText(o.txid, o.vout)
  }

  /** The entries whose key is not in a set, in order. */
  function Without(utxos: seq<Utxo>, keys: set<string>): (r: seq<Utxo>)
    ensures Keys(r) == Keys(utxos) - keys
    ensures forall u :: u in r <==> u in utxos && Key(u) !in keys
  {
    if utxos == [] then []
    else
      var rest, last := Without(utxos[..|utxos| - 1], keys), utxos[|utxos| - 1];
      assert utxos == utxos[..|utxos| - 1] + [last];
      if Key(last) in keys then rest else rest + [last]
  }

  function Step(s: State, e: Event): State {
    match e
    case BeginRefresh(address) =>
      if s.address == Some(address) then s else s.(address := Some(address), spent := {}, speculative := [])
    case EndRefresh(_, answer) =>
      s.(utxos := Listed(answer), stale := false,
         speculative := Without(s.speculative, Keys(Listed(answer)) + s.spent))
    case MarkSpent(inputs) => s.(spent := s.spent + InputKeys(inputs))
    case AddSpeculative(u) =>
      if u.txid == "" || Key(u) in Keys(s.speculative) then s else s.(speculative := s.speculative + [u])
    case Invalidate => s.(utxos := [], spent := {}, speculative := [], stale := true)
  }

  function Run(s: State, events: seq<Event>): State
    decreases |events|
  {
    if events == [] then s else Run(Step(s, events[0]), events[1..])
  }

  function Available(s: State): seq<Utxo> {
    Without(s.utxos + s.speculative, s.spent)
  }

  // ---- The object -----------------------------------------------------------------------------------

  class UTXOCache {
    var utxos: seq<Utxo>
    var spent: set<string>
    var speculative: seq<Utxo>
    var address: Option<string>
    var stale: bool

    function Model(): State
      reads this
    {
      State(utxos, spent, speculative, address, stale)
    }

    constructor ()
      ensures Model() == INITIAL
    {
      utxos, spent, speculative, address, stale := [], {}, [], None, true;
    }

    /** The part of refresh before it waits. */
    method Begin(newAddress: string)
      modifies this
      ensures Model() == Step(old(Model()), BeginRefresh(newAddress))
    {
      if address != Some(newAddress) {
        address := Some(newAddress);
        spent := {};
        speculative := [];
      }
    }

    /** The part of refresh after the answer has come, whatever happened in between. */
    method End(answer: Answer, ghost request: string) returns (r: seq<Utxo>)
      modifies this
      ensures Model() == Step(old(Model()), EndRefresh(request, answer)) && r == utxos
    {
      utxos := Listed(answer);
      stale := false;
      var confirmedSet := Keys(utxos);
      speculative := Without(speculative, confirmedSet + spent);
      return utxos;
    }

    method GetAvailable() returns (r: seq<Utxo>)
      ensures r == Available(Model())
    {
      var all := utxos + speculative;
      r := Without(all, spent);
    }

    /** An absent input list marks nothing. */
    method Mark(inputs: Option<seq<Outpoint>>)
      modifies this`spent
      ensures Model() == Step(old(Model()), MarkSpent(inputs.GetOr([])))
    {
      if inputs.None? { return; }
      for i := 0 to |inputs.value|
        invariant spent == old(spent) + InputKeys(inputs.value[..i])
      {
        var input := inputs.value[i];
        assert inputs.value[..i + 1] == inputs.value[..i] + [input];
        spent := spent + {KeyText(input.txid, input.vout)};
      }
      assert inputs.value[..|inputs.value|] == inputs.value;
    }

    /** Ignores an absent output, one without a txid, and one already listed. */
    method Add(utxo: Option<Utxo>)
      modifies this`speculative
      ensures Model() == if utxo.None? then old(Model()) else Step(old(Model()), AddSpeculative(utxo.value))
    {
      if utxo.None? || utxo.value.txid == "" { return; }
      var key := Key(utxo.value);
      for i := 0 to |speculative|
        invariant speculative == old(speculative)
        invariant forall j :: 0 <= j < i ==> Key(speculative[j]) != key
      {
        if Key(speculative[i]) == key { return; }
      }
      speculative := speculative + [utxo.value];
    }

    method HasAvailable() returns (r: bool)
      ensures r <==> Available(Model()) != []
    {
      var available := GetAvailable();
      return |available| > 0;
    }

    method Clear()
      modifies this
      ensures Model() == Step(old(Model()), Invalidate)
    {
      utxos, spent, speculative, stale := [], {}, [], true;
    }
  }

  // ---- Spent outpoints stay spent -------------------------------------------------------------------

  /** No invalidation, and no refresh that begins for another address. */
  ghost predicate KeepsSpent(address: Option<string>, events: seq<Event>) {
    forall i :: 0 <= i < |events| ==>
      !events[i].Invalidate? && (events[i].BeginRefresh? ==> Some(events[i].address) == address)
  }

  lemma {:induction false} SpentIsKept(s: State, events: seq<Event>)
    requires KeepsSpent(s.address, events)
    ensures s.spent <= Run(s, events).spent && Run(s, events).address == s.address
    decreases |events|
  {
    if events != [] {
      var next := Step(s, events[0]);
      assert s.spent <= next.spent && next.address == s.address;
      SpentIsKept(next, events[1..]);
    }
  }

  /** An event marks the outpoint, and nothing after it invalidates the cache or refreshes another address than
      the one held then. */
  ghost predicate LastingMark(s: State, events: seq<Event>, key: string, i: nat)
    requires i < |events|
  {
    && events[i].MarkSpent? && key in InputKeys(events[i].inputs)
    && KeepsSpent(Run(s, events[..i + 1]).address, events[i + 1..])
  }

  ghost predicate HasLastingMark(s: State, events: seq<Event>, key: string) {
    || (key in s.spent && KeepsSpent(s.address, events))
    || exists i :: 0 <= i < |events| && LastingMark(s, events, key, i)
  }

  /** What one event does to the marks. */
  lemma StepKeepsMark(s: State, e: Event, key: string)
    ensures key in Step(s, e).spent <==>
            (key in s.spent && KeepsSpent(s.address, [e])) || (e.MarkSpent? && key in InputKeys(e.inputs))
    ensures KeepsSpent(s.address, [e]) ==> Step(s, e).address == s.address
  {
    assert KeepsSpent(s.address, [e]) <==>
           !e.Invalidate? && (e.BeginRefresh? ==> Some(e.address) == s.address) by {
      assert [e][0] == e;
    }
  }

  lemma KeepsSpentFrom(address: Option<string>, events: seq<Event>)
    requires events != []
    ensures KeepsSpent(address, events) <==> KeepsSpent(address, [events[0]]) && KeepsSpent(address, events[1..])
  {
    assert events == [events[0]] + events[1..];
    if KeepsSpent(address, [events[0]]) && KeepsSpent(address, events[1..]) {
      forall i | 0 <= i < |events|
        ensures !events[i].Invalidate? && (events[i].BeginRefresh? ==> Some(events[i].address) == address)
      {
        assert i > 0 ==> events[1..][i - 1] == events[i];
        assert [events[0]][0] == events[0];
      }
    }
  }

  lemma LastingMarkFrom(s: State, events: seq<Event>, key: string, i: nat)
    requires 0 < i < |events|
    ensures LastingMark(s, events, key, i) <==> LastingMark(Step(s, events[0]), events[1..], key, i - 1)
  {
    assert events[..i + 1][1..] == events[1..][..i] && events[i + 1..] == events[1..][i..];
  }

  /** A key is held as spent after a run exactly when some mark of it lasts. */
  lemma {:induction false} MarkSurvivesExactly(s: State, events: seq<Event>, key: string)
    ensures key in Run(s, events).spent <==> HasLastingMark(s, events, key)
    decreases |events|
  {
    if events != [] {
      var next, rest := Step(s, events[0]), events[1..];
      MarkSurvivesExactly(next, rest, key);
      StepKeepsMark(s, events[0], key);
      KeepsSpentFrom(s.address, events);
      forall i | 0 < i < |events| ensures LastingMark(s, events, key, i) <==> LastingMark(next, rest, key, i - 1) {
        LastingMarkFrom(s, events, key, i);
      }
      FirstMarkLasts(s, events, key);
      SplitMarks(s, events, key);
    }
  }

  lemma FirstMarkLasts(s: State, events: seq<Event>, key: string)
    requires events != []
    ensures LastingMark(s, events, key, 0) <==>
            events[0].MarkSpent? && key in InputKeys(events[0].inputs)
            && KeepsSpent(Step(s, events[0]).address, events[1..])
  {
    OneEvent(s, events);
  }

  lemma OneEvent(s: State, events: seq<Event>)
    requires events != []
    ensures Run(s, events[..1]) == Step(s, events[0])
  {
    assert events[..1][1..] == [] && events[..1][0] == events[0];
  }

  /** A lasting mark of the run is there before it, is made by its first event, or is one of the rest. */
  lemma SplitMarks(s: State, events: seq<Event>, key: string)
    requires events != []
    requires forall i :: 0 < i < |events| ==>
      (LastingMark(s, events, key, i) <==> LastingMark(Step(s, events[0]), events[1..], key, i - 1))
    ensures (exists i :: 0 <= i < |events| && LastingMark(s, events, key, i)) <==>
            (LastingMark(s, events, key, 0)
             || exists i :: 0 <= i < |events[1..]| && LastingMark(Step(s, events[0]), events[1..], key, i))
  {
    if i :| 0 <= i < |events| && LastingMark(s, events, key, i) {
      assert i > 0 ==> LastingMark(Step(s, events[0]), events[1..], key, i - 1);
    }
    if i :| 0 <= i < |events[1..]| && LastingMark(Step(s, events[0]), events[1..], key, i) {
      assert LastingMark(s, events, key, i + 1);
    }
  }

  /** Once marked, an outpoint is never offered again, however calls and in-flight refreshes
      interleave, until the cache is invalidated or a refresh of another address begins. */
  lemma SpentIsNeverOffered(s: State, inputs: seq<Outpoint>, o: Outpoint, events: seq<Event>)
    requires o in inputs && KeepsSpent(s.address, events)
    ensures forall u :: u in Available(Run(Step(s, MarkSpent(inputs)), events)) ==> (u.txid, u.vout) != (o.txid, o.vout)
  {
    var marked := Step(s, MarkSpent(inputs));
    assert KeyText(o.txid, o.vout) in marked.spent;
    SpentIsKept(marked, events);
  }

  /** The limit is real: another address's refresh forgets the mark while the old list is still held. */
  lemma AnotherAddressForgetsTheMark(s: State, u: Utxo, address: string)
    requires u in s.utxos && s.address != Some(address)
    ensures u in Available(Step(Step(s, MarkSpent([Outpoint(u.txid, u.vout)])), BeginRefresh(address)))
  {
  }

  // ---- No outpoint twice ----------------------------------------------------------------------------

  ghost predicate DistinctKeys(utxos: seq<Utxo>) {
    forall i, j :: 0 <= i < j < |utxos| ==> Key(utxos[i]) != Key(utxos[j])
  }

  lemma {:induction false} WithoutKeepsDistinct(utxos: seq<Utxo>, keys: set<string>)
    requires DistinctKeys(utxos)
    ensures DistinctKeys(Without(utxos, keys))
  {
    if utxos != [] {
      var before, last := utxos[..|utxos| - 1], utxos[|utxos| - 1];
      assert forall i :: 0 <= i < |before| ==> before[i] == utxos[i];
      WithoutKeepsDistinct(before, keys);
      forall u | u in Without(before, keys) ensures Key(u) != Key(last) {
        var i :| 0 <= i < |before| && before[i] == u;
        assert utxos[i] == u;
      }
    }
  }

  /** The speculative list never repeats an outpoint, after any run. */
  lemma {:induction false} SpeculativeIsDistinct(s: State, events: seq<Event>)
    requires DistinctKeys(s.speculative)
    ensures DistinctKeys(Run(s, events).speculative)
    decreases |events|
  {
    if events != [] {
      if events[0].EndRefresh? {
        WithoutKeepsDistinct(s.speculative, Keys(Listed(events[0].answer)) + s.spent);
      }
      SpeculativeIsDistinct(Step(s, events[0]), events[1..]);
    }
  }

  /** Some unspent outpoint is both confirmed and speculative. */
  ghost predicate Overlapping(s: State) {
    exists k :: k in Keys(s.utxos) && k in Keys(s.speculative) && k !in s.spent
  }

  /** What the last entry of a list contributes. */
  function WithoutOne(u: Utxo, keys: set<string>): seq<Utxo> {
    if Key(u) in keys then [] else [u]
  }

  lemma WithoutAppend(a: seq<Utxo>, u: Utxo, keys: set<string>)
    ensures Without(a + [u], keys) == Without(a, keys) + WithoutOne(u, keys)
  {
    assert (a + [u])[..|a|] == a;
  }

  lemma {:induction false} KeptBoth(a: seq<Utxo>, b: seq<Utxo>, keys: set<string>)
    ensures Without(a + b, keys) == Without(a, keys) + Without(b, keys)
    decreases |b|
  {
    if b == [] {
      assert a + b == a;
    } else {
      KeptBoth(a, b[..|b| - 1], keys);
      OneMore(b, |b| - 1);
      KeptOneMore(a, b[..|b| - 1], b[|b| - 1], keys);
      assert b[..|b|] == b;
    }
  }

  lemma KeptOneMore(a: seq<Utxo>, front: seq<Utxo>, last: Utxo, keys: set<string>)
    requires Without(a + front, keys) == Without(a, keys) + Without(front, keys)
    ensures Without(a + (front + [last]), keys) == Without(a, keys) + Without(front + [last], keys)
  {
    Regroup(a, front, [last]);
    WithoutAppend(a + front, last, keys);
    WithoutAppend(front, last, keys);
    Regroup(Without(a, keys), Without(front, keys), WithoutOne(last, keys));
  }

  lemma DistinctConcat(a: seq<Utxo>, b: seq<Utxo>)
    requires DistinctKeys(a) && DistinctKeys(b)
    ensures DistinctKeys(a + b) <==> Keys(a) * Keys(b) == {}
  {
    if DistinctKeys(a + b) {
      forall u, v | u in a && v in b ensures Key(u) != Key(v) {
        var i :| 0 <= i < |a| && a[i] == u;
        var j :| 0 <= j < |b| && b[j] == v;
        assert (a + b)[i] == u && (a + b)[|a| + j] == v;
      }
    } else {
      var i, j :| 0 <= i < j < |a + b| && Key((a + b)[i]) == Key((a + b)[j]);
      assert i < |a| <= j && a[i] in a && b[j - |a|] in b;
      assert Key(a[i]) in Keys(a) * Keys(b);
    }
  }

  /** What is offered is duplicate-free exactly when no unspent outpoint is both confirmed and speculative. */
  lemma OfferedTwiceExactly(s: State)
    requires DistinctKeys(s.utxos) && DistinctKeys(s.speculative)
    ensures DistinctKeys(Available(s)) <==> !Overlapping(s)
  {
    var a, b := Without(s.utxos, s.spent), Without(s.speculative, s.spent);
    KeptBoth(s.utxos, s.speculative, s.spent);
    WithoutKeepsDistinct(s.utxos, s.spent);
    WithoutKeepsDistinct(s.speculative, s.spent);
    DistinctConcat(a, b);
    assert Keys(a) * Keys(b) == (Keys(s.utxos) * Keys(s.speculative)) - s.spent;
    if Overlapping(s) {
      var k :| k in Keys(s.utxos) && k in Keys(s.speculative) && k !in s.spent;
      assert k in Keys(a) * Keys(b);
    }
  }

  /** Just after any refresh with a duplicate-free answer, what is offered has no duplicate and is
      exactly the tracker's outputs and the speculative ones, less the spent. */
  lemma RefreshOffersEverythingOnce(s: State, request: string, answer: Answer)
    requires DistinctKeys(Listed(answer)) && DistinctKeys(s.speculative)
    ensures DistinctKeys(Available(Step(s, EndRefresh(request, answer))))
    ensures Keys(Available(Step(s, EndRefresh(request, answer)))) == (Keys(Listed(answer)) + Keys(s.speculative)) - s.spent
  {
    var next := Step(s, EndRefresh(request, answer));
    WithoutKeepsDistinct(s.speculative, Keys(Listed(answer)) + s.spent);
    assert !Overlapping(next);
    OfferedTwiceExactly(next);
    KeptBoth(next.utxos, next.speculative, next.spent);
  }

  /** So it is in every state a run reaches. */
  lemma RunsOfferEverythingOnce(events: seq<Event>, request: string, answer: Answer)
    requires DistinctKeys(Listed(answer))
    ensures
      var s := Run(INITIAL, events);
      && DistinctKeys(Available(Step(s, EndRefresh(request, answer))))
      && Keys(Available(Step(s, EndRefresh(request, answer)))) == (Keys(Listed(answer)) + Keys(s.speculative)) - s.spent
  {
    SpeculativeIsDistinct(INITIAL, events);
    RefreshOffersEverythingOnce(Run(INITIAL, events), request, answer);
  }

  /** Later the guarantee can lapse: registering an unspent confirmed output offers it twice. */
  lemma SpeculatingOnConfirmedOffersTwice(s: State, u: Utxo)
    requires DistinctKeys(s.utxos) && DistinctKeys(s.speculative)
    requires u.txid != "" && Key(u) in Keys(s.utxos) && Key(u) !in s.spent
    ensures !DistinctKeys(Available(Step(s, AddSpeculative(u))))
  {
    var next := Step(s, AddSpeculative(u));
    SpeculativeIsDistinct(s, [AddSpeculative(u)]);
    assert Run(s, [AddSpeculative(u)]) == next;
    assert u in next.speculative || Key(u) in Keys(s.speculative);
    assert Overlapping(next);
    OfferedTwiceExactly(next);
  }

  // ---- Whose outputs are held -----------------------------------------------------------------------

  /** The list held after a run: the last answer to arrive since the last invalidation. */
  function LastAnswer(events: seq<Event>): seq<Utxo> {
    if events == [] then []
    else
      var e := events[|events| - 1];
      if e.EndRefresh? then Listed(e.answer)
      else if e.Invalidate? then []
      else LastAnswer(events[..|events| - 1])
  }

  /** The address whose refresh began last. */
  function LastBegun(events: seq<Event>): Option<string> {
    if events == [] then None
    else
      var e := events[|events| - 1];
      if e.BeginRefresh? then Some(e.address) else LastBegun(events[..|events| - 1])
  }

  lemma {:induction false} RunSnoc(s: State, events: seq<Event>, e: Event)
    ensures Run(s, events + [e]) == Step(Run(s, events), e)
    decreases |events|
  {
    if events == [] {
      assert events + [e] == [e] && [e][1..] == [];
    } else {
      RunSnoc(Step(s, events[0]), events[1..], e);
      assert (events + [e])[1..] == events[1..] + [e];
    }
  }

  /** The list held is the last answer's, and the address held the last one begun. */
  lemma {:induction false} LastAnswerWins(events: seq<Event>)
    ensures Run(INITIAL, events).utxos == LastAnswer(events) && Run(INITIAL, events).address == LastBegun(events)
    decreases |events|
  {
    if events != [] {
      var before, e := events[..|events| - 1], events[|events| - 1];
      assert events == before + [e];
      RunSnoc(INITIAL, before, e);
      LastAnswerWins(before);
      StepMovesList(Run(INITIAL, before), e);
    }
  }

  lemma StepMovesList(s: State, e: Event)
    ensures Step(s, e).utxos == if e.EndRefresh? then Listed(e.answer) else if e.Invalidate? then [] else s.utxos
    ensures Step(s, e).address == if e.BeginRefresh? then Some(e.address) else s.address
  {
  }

  /** An answer is held, and it was requested for the address held. */
  ghost predicate HoldsItsOwn(events: seq<Event>) {
    exists i :: 0 <= i < |events| && Holds(events, i) && Some(events[i].request) == Run(INITIAL, events).address
  }

  /** The answer of this event is the one held after the run. */
  ghost predicate Holds(events: seq<Event>, i: nat)
    requires i < |events|
  {
    events[i].EndRefresh? && forall j :: i < j < |events| ==> !events[j].EndRefresh? && !events[j].Invalidate?
  }

  /** No refresh begins after this event. */
  ghost predicate BeginsLast(events: seq<Event>, i: nat)
    requires i < |events|
  {
    events[i].BeginRefresh? && forall j :: i < j < |events| ==> !events[j].BeginRefresh?
  }

  lemma {:induction false} LastBegunIs(events: seq<Event>, i: nat)
    requires i < |events| && BeginsLast(events, i)
    ensures LastBegun(events) == Some(events[i].address)
    decreases |events|
  {
    var last := |events| - 1;
    if i < last {
      assert !events[last].BeginRefresh?;
      LastBegunIs(events[..last], i);
    }
  }

  lemma {:induction false} SomeBeginsLast(events: seq<Event>) returns (i: nat)
    requires LastBegun(events).Some?
    ensures i < |events| && BeginsLast(events, i) && LastBegun(events) == Some(events[i].address)
  {
    var last := |events| - 1;
    if events[last].BeginRefresh? {
      i := last;
    } else {
      i := SomeBeginsLast(events[..last]);
    }
  }

  /** The answer held is for the address of the refresh that began last. */
  ghost predicate AnswersLastBegun(events: seq<Event>, i: nat, j: nat)
    requires i < |events| && j < |events|
  {
    Holds(events, i) && BeginsLast(events, j) && events[i].request == events[j].address
  }

  /** The list held was requested for the address held exactly when the last answer to arrive, with no invalidation
      behind it, is for the address whose refresh began last. */
  lemma HoldsItsOwnExactly(events: seq<Event>)
    ensures HoldsItsOwn(events) <==>
            exists i, j :: 0 <= i < |events| && 0 <= j < |events| && AnswersLastBegun(events, i, j)
  {
    LastAnswerWins(events);
    if HoldsItsOwn(events) {
      var i :| 0 <= i < |events| && Holds(events, i) && Some(events[i].request) == Run(INITIAL, events).address;
      var j := SomeBeginsLast(events);
      assert AnswersLastBegun(events, i, j);
    }
    if i, j :| 0 <= i < |events| && 0 <= j < |events| && AnswersLastBegun(events, i, j) {
      LastBegunIs(events, j);
    }
  }

  /** It fails when an older refresh of another address answers last: its outputs are offered for the new address. */
  lemma OlderRefreshAnswersLast(one: string, other: string, old': Answer, new': Answer, u: Utxo)
    requires one != other && u in Listed(old')
    ensures
      var events := [BeginRefresh(one), BeginRefresh(other), EndRefresh(other, new'), EndRefresh(one, old')];
      && Run(INITIAL, events).address == Some(other) && u in Available(Run(INITIAL, events))
      && !HoldsItsOwn(events)
  {
    var events := [BeginRefresh(one), BeginRefresh(other), EndRefresh(other, new'), EndRefresh(one, old')];
    var s := Run(INITIAL, events);
    LastAnswerWins(events);
    assert events[..3] == [BeginRefresh(one), BeginRefresh(other), EndRefresh(other, new')];
    assert events[..3][..2] == [BeginRefresh(one), BeginRefresh(other)];
    FourSteps(INITIAL, events);
    assert s.spent == {} && u in s.utxos && u in s.utxos + s.speculative;
    forall i | 0 <= i < 4 && Holds(events, i) ensures events[i].request == one {
      assert events[3].EndRefresh?;
    }
  }

  lemma FourSteps(s: State, events: seq<Event>)
    requires |events| == 4
    ensures Run(s, events) == Step(Step(Step(Step(s, events[0]), events[1]), events[2]), events[3])
  {
    var a := Step(s, events[0]);
    var b := Step(a, events[1]);
    var c := Step(b, events[2]);
    assert Run(s, events) == Run(a, events[1..]);
    assert events[1..][1..] == events[2..] && Run(a, events[1..]) == Run(b, events[2..]);
    assert events[2..][1..] == events[3..] && Run(b, events[2..]) == Run(c, events[3..]);
    assert events[3..][1..] == [] && Run(c, events[3..]) == Run(Step(c, events[3]), []);
  }
}
