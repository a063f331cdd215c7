/** Which speculative outputs a run still holds. */
module UtxoSpeculative {
  import opened Options
  import opened UtxoCache

  /** The call leaves a speculative outpoint in place: it is no invalidation, no refresh of another address, and no answer
      that comes when the outpoint is confirmed or spent. */
  ghost predicate Spares(s: State, e: Event, key: string) {
    && e != Invalidate
    && (e.BeginRefresh? ==> s.address == Some(e.address))
    && (e.EndRefresh? ==> key !in s.spent && forall u :: u in Listed(e.answer) ==> Key(u) != key)
  }

  ghost predicate SparesFrom(s: State, events: seq<Event>, i: nat, key: string) {
    forall j :: i <= j < |events| ==> Spares(Run(s, events[..j]), events[j], key)
  }

  /** The call adds the output: it has a txid, and its outpoint is not listed yet. */
  ghost predicate AddsAt(s: State, events: seq<Event>, i: nat, u: Utxo)
    requires i < |events|
  {
    events[i] == AddSpeculative(u) && u.txid != "" && Key(u) !in Keys(Run(s, events[..i]).speculative)
  }

  lemma StepHolds(s: State, e: Event, u: Utxo)
    ensures u in Step(s, e).speculative <==>
            (u in s.speculative && Spares(s, e, Key(u)))
            || (e == AddSpeculative(u) && u.txid != "" && Key(u) !in Keys(s.speculative))
  {
    if e.EndRefresh? {
      assert Key(u) in Keys(Listed(e.answer)) <==> exists v :: v in Listed(e.answer) && Key(v) == Key(u);
    }
  }

  lemma SparesOneMore(s: State, before: seq<Event>, e: Event, i: nat, key: string)
    requires i <= |before|
    ensures SparesFrom(s, before + [e], i, key) <==> SparesFrom(s, before, i, key) && Spares(Run(s, before), e, key)
  {
    var events := before + [e];
    assert events[..|before|] == before && events[|before|] == e;
    forall j | i <= j < |before| ensures events[..j] == before[..j] && events[j] == before[j] {
    }
  }

  lemma AddsInFront(s: State, before: seq<Event>, e: Event, i: nat, u: Utxo)
    requires i < |before|
    ensures AddsAt(s, before + [e], i, u) <==> AddsAt(s, before, i, u)
  {
    assert (before + [e])[..i] == before[..i];
  }

  /** Added by this call, and spared by all that follow. */
  ghost predicate StaysFrom(s: State, events: seq<Event>, i: nat, u: Utxo)
    requires i < |events|
  {
    AddsAt(s, events, i, u) && SparesFrom(s, events, i + 1, Key(u))
  }

  ghost predicate Stays(s: State, events: seq<Event>, u: Utxo) {
    || (u in s.speculative && SparesFrom(s, events, 0, Key(u)))
    || exists i :: 0 <= i < |events| && StaysFrom(s, events, i, u)
  }

  lemma StaysOneMore(s: State, before: seq<Event>, e: Event, u: Utxo)
    ensures Stays(s, before + [e], u) <==>
            (Stays(s, before, u) && Spares(Run(s, before), e, Key(u)))
            || (e == AddSpeculative(u) && u.txid != "" && Key(u) !in Keys(Run(s, before).speculative))
  {
    var events := before + [e];
    assert events[..|before|] == before && events[|before|] == e;
    SparesOneMore(s, before, e, 0, Key(u));
    forall i | 0 <= i < |before|
      ensures StaysFrom(s, events, i, u) <==> StaysFrom(s, before, i, u) && Spares(Run(s, before), e, Key(u))
    {
      SparesOneMore(s, before, e, i + 1, Key(u));
      AddsInFront(s, before, e, i, u);
    }
    assert StaysFrom(s, events, |before|, u) <==>
           e == AddSpeculative(u) && u.txid != "" && Key(u) !in Keys(Run(s, before).speculative);
  }

  /** An output is held as speculative after a run exactly when it was held before it or added in it, and every call from
      there on spared it. */
  lemma {:induction false} SpeculativeExactly(s: State, events: seq<Event>, u: Utxo)
    ensures u in Run(s, events).speculative <==> Stays(s, events, u)
    decreases |events|
  {
    if events != [] {
      var before, e := events[..|events| - 1], events[|events| - 1];
      assert events == before + [e];
      RunSnoc(s, before, e);
      SpeculativeExactly(s, before, u);
      StepHolds(Run(s, before), e, u);
      StaysOneMore(s, before, e, u);
    }
  }

  /** Every speculative output was added after the last invalidation and after the last refresh of another address. */
  lemma SpeculativeIsRecent(events: seq<Event>, u: Utxo) returns (i: nat)
    requires u in Run(INITIAL, events).speculative
    ensures i < |events| && events[i] == AddSpeculative(u)
    ensures forall j :: i < j < |events| ==>
      events[j] != Invalidate && (events[j].BeginRefresh? ==> LastBegun(events[..j]) == Some(events[j].address))
  {
    SpeculativeExactly(INITIAL, events, u);
    i :| 0 <= i < |events| && StaysFrom(INITIAL, events, i, u);
    forall j | i < j < |events|
      ensures events[j] != Invalidate && (events[j].BeginRefresh? ==> LastBegun(events[..j]) == Some(events[j].address))
    {
      LastAnswerWins(events[..j]);
      assert Spares(Run(INITIAL, events[..j]), events[j], Key(u));
    }
  }

  // ---- Reading an answer ----------------------------------------------------------------------------

  /** A bare list and one wrapped in an object are held alike; of anything else nothing is held. */
  lemma AnswersAreHeld(events: seq<Event>, request: string, list: seq<Utxo>)
    ensures Run(INITIAL, events + [EndRefresh(request, Bare(list))]).utxos == list
    ensures Run(INITIAL, events + [EndRefresh(request, Wrapped(list))]).utxos == list
    ensures Run(INITIAL, events + [EndRefresh(request, Malformed)]).utxos == []
  {
    RunSnoc(INITIAL, events, EndRefresh(request, Bare(list)));
    RunSnoc(INITIAL, events, EndRefresh(request, Wrapped(list)));
    RunSnoc(INITIAL, events, EndRefresh(request, Malformed));
  }

  /** The cache is stale exactly when no answer has come since the last invalidation. */
  lemma {:induction false} StaleExactly(events: seq<Event>)
    ensures Run(INITIAL, events).stale <==> !exists i :: 0 <= i < |events| && Holds(events, i)
    decreases |events|
  {
    if events != [] {
      var before, e := events[..|events| - 1], events[|events| - 1];
      assert events == before + [e];
      RunSnoc(INITIAL, before, e);
      StaleExactly(before);
      forall i | 0 <= i < |before|
        ensures Holds(events, i) <==> Holds(before, i) && !e.EndRefresh? && e != Invalidate
      {
        HoldsOneMore(before, e, i);
      }
      assert Holds(events, |before|) <==> e.EndRefresh?;
    }
  }

  lemma HoldsOneMore(before: seq<Event>, e: Event, i: nat)
    requires i < |before|
    ensures Holds(before + [e], i) <==> Holds(before, i) && !e.EndRefresh? && e != Invalidate
  {
    var events := before + [e];
    assert events[|before|] == e && forall j :: i <= j < |before| ==> events[j] == before[j];
  }
}
