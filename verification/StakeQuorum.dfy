/** The stake-weighted quorum: more than two thirds of the stake of distinct signing sources. */
module StakeQuorum {
  import opened Options
  import opened JsText
  import opened PipeText

  // The double range, as powers of two: 2^64, 2^256 and 2^970.
  const TWO64: real := 18446744073709551616.0
  const TWO256: real := TWO64 * TWO64 * TWO64 * TWO64
  const TWO970: real := TWO256 * TWO256 * TWO256 * TWO64 * TWO64 * TWO64 * 1024.0

  /** (2^54 - 1) * 2^970: from here on a number is read as an infinity. */
  const INFINITE_FROM: real := 18014398509481983.0 * TWO970

  /** 2^-1075: a negative number this small is read as minus zero, which is not below zero. */
  const ZERO_UP_TO: real := 1.0 / (TWO970 * TWO64 * 2199023255552.0)

  /** A weight field: absent, unreadable, a number only in exponent form, or a plain decimal. */
  datatype Weight = Missing | Nonnumeric | Exponent(value: real) | Plain(value: real)

  /** A bare public key is an entry without source and weight. */
  datatype Validator = Validator(pubkey: string, source: Option<string>, weight: Weight)

  datatype StakeIndex = StakeIndex(weightBySource: map<string, real>, sourceOf: map<string, string>)

  predicate HasSource(v: Validator) {
    v.source.Some? && Trim(v.source.value) != ""
  }

  predicate IsWeightedEntry(v: Validator) {
    HasSource(v) && (v.weight.Exponent? || v.weight.Plain?) && -ZERO_UP_TO <= v.weight.value < INFINITE_FROM
  }

  // ---- Sums over sources --------------------------------------------------------------------------

  ghost function StakeOf(weights: map<string, real>, sources: set<string>): real
    requires sources <= weights.Keys
    decreases |sources|
  {
    if sources == {} then 0.0
    else
      var s :| s in sources;
      weights[s] + StakeOf(weights, sources - {s})
  }

  lemma {:induction false} StakeOfWithout(weights: map<string, real>, sources: set<string>, x: string)
    requires sources <= weights.Keys && x in sources
    ensures StakeOf(weights, sources) == weights[x] + StakeOf(weights, sources - {x})
    decreases |sources|
  {
    var s :| s in sources && StakeOf(weights, sources) == weights[s] + StakeOf(weights, sources - {s});
    if s != x {
      StakeOfWithout(weights, sources - {s}, x);
      StakeOfWithout(weights, sources - {x}, s);
      assert sources - {s} - {x} == sources - {x} - {s};
    }
  }

  lemma {:induction false} StakeOfUnion(weights: map<string, real>, a: set<string>, b: set<string>)
    requires a <= weights.Keys && b <= weights.Keys
    ensures StakeOf(weights, a + b) + StakeOf(weights, a * b) == StakeOf(weights, a) + StakeOf(weights, b)
    decreases |a|
  {
    if a == {} {
      assert a + b == b && a * b == {};
    } else {
      var s :| s in a;
      var rest := a - {s};
      StakeOfUnion(weights, rest, b);
      StakeOfWithout(weights, a, s);
      if s in b {
        assert rest + b == a + b && rest * b == a * b - {s};
        StakeOfWithout(weights, a * b, s);
      } else {
        assert rest + b == (a + b) - {s} && rest * b == a * b;
        StakeOfWithout(weights, a + b, s);
      }
    }
  }

  ghost predicate NonNegative(weights: map<string, real>) {
    forall s :: s in weights ==> weights[s] >= 0.0
  }

  lemma {:induction false} StakeOfPart(weights: map<string, real>, a: set<string>, b: set<string>)
    requires a <= b <= weights.Keys && NonNegative(weights)
    ensures 0.0 <= StakeOf(weights, a) <= StakeOf(weights, b)
    decreases |b|
  {
    if b != {} {
      var s :| s in b;
      StakeOfWithout(weights, b, s);
      if s in a {
        StakeOfWithout(weights, a, s);
        StakeOfPart(weights, a - {s}, b - {s});
      } else {
        StakeOfPart(weights, a, b - {s});
      }
    }
  }

  // ---- The predicate ------------------------------------------------------------------------------

  /** The distinct sources some signers stand for; a source counts once for all its keys. */
  ghost function SourcesOf(index: StakeIndex, signers: set<string>): set<string> {
    set pk | pk in signers && pk in index.sourceOf :: index.sourceOf[pk]
  }

  /** Every key's source has a weight. */
  ghost predicate Consistent(index: StakeIndex) {
    forall pk :: pk in index.sourceOf ==> index.sourceOf[pk] in index.weightBySource
  }

  ghost predicate Meets(index: StakeIndex, signers: set<string>)
    requires Consistent(index)
  {
    var total := StakeOf(index.weightBySource, index.weightBySource.Keys);
    && NonNegative(index.weightBySource) && total > 0.0
    && 3.0 * StakeOf(index.weightBySource, SourcesOf(index, signers)) > 2.0 * total
  }

  /** One entry more in the index. */
  ghost function Indexed(index: StakeIndex, v: Validator): StakeIndex
    requires HasSource(v) && (v.source.value !in index.weightBySource ==> v.weight.Plain?)
  {
    StakeIndex(
      if v.source.value in index.weightBySource then index.weightBySource
      else index.weightBySource[v.source.value := v.weight.value],
      index.sourceOf[Lower(v.pubkey) := v.source.value])
  }

  /** First weight of a source, last source of a key; absent when an entry is unusable. */
  ghost function IndexOf(validators: seq<Validator>): Option<StakeIndex> {
    if validators == [] then Some(StakeIndex(map[], map[]))
    else
      var before, v := IndexOf(validators[..|validators| - 1]), validators[|validators| - 1];
      if before.None? || !HasSource(v) then None
      else if v.source.value !in before.value.weightBySource && !v.weight.Plain? then None
      else Some(Indexed(before.value, v))
  }

  // ---- What the index holds -------------------------------------------------------------------------

  /** No earlier entry has this entry's source. */
  ghost predicate IsFirstOfSource(validators: seq<Validator>, i: nat)
    requires i < |validators|
  {
    forall j :: 0 <= j < i ==> validators[j].source != validators[i].source
  }

  /** No later entry has this entry's key. */
  ghost predicate IsLastOfKey(validators: seq<Validator>, i: nat)
    requires i < |validators|
  {
    forall j :: i < j < |validators| ==> Lower(validators[j].pubkey) != Lower(validators[i].pubkey)
  }

  /** Every entry has a source, and a source's first entry a plain decimal weight. */
  ghost predicate Indexable(validators: seq<Validator>) {
    forall i :: 0 <= i < |validators| ==>
      HasSource(validators[i]) && (IsFirstOfSource(validators, i) ==> validators[i].weight.Plain?)
  }

  ghost predicate HasSourceNamed(validators: seq<Validator>, s: string) {
    exists i :: 0 <= i < |validators| && validators[i].source == Some(s)
  }

  ghost predicate HasKeyNamed(validators: seq<Validator>, pk: string) {
    exists i :: 0 <= i < |validators| && Lower(validators[i].pubkey) == pk
  }

  /** The sources of the entries, each with the weight of its first entry. */
  ghost predicate WeighsFirst(validators: seq<Validator>, weights: map<string, real>)
    requires Indexable(validators)
  {
    && (forall s :: s in weights <==> HasSourceNamed(validators, s))
    && forall i :: 0 <= i < |validators| && IsFirstOfSource(validators, i) ==>
        validators[i].source.value in weights && weights[validators[i].source.value] == validators[i].weight.value
  }

  /** The keys of the entries, each with the source of its last entry. */
  ghost predicate StandsForLast(validators: seq<Validator>, sources: map<string, string>)
    requires Indexable(validators)
  {
    && (forall pk :: pk in sources <==> HasKeyNamed(validators, pk))
    && forall i :: 0 <= i < |validators| && IsLastOfKey(validators, i) ==>
        Lower(validators[i].pubkey) in sources && sources[Lower(validators[i].pubkey)] == validators[i].source.value
  }

  ghost predicate Indexes(validators: seq<Validator>, index: StakeIndex)
    requires Indexable(validators)
  {
    WeighsFirst(validators, index.weightBySource) && StandsForLast(validators, index.sourceOf)
  }

  lemma FirstsOfFront(validators: seq<Validator>, v: Validator, i: nat)
    requires i < |validators|
    ensures IsFirstOfSource(validators + [v], i) <==> IsFirstOfSource(validators, i)
  {
    assert forall j :: 0 <= j <= i ==> (validators + [v])[j] == validators[j];
  }

  lemma NewSource(validators: seq<Validator>, v: Validator)
    ensures IsFirstOfSource(validators + [v], |validators|)
            <==> forall i :: 0 <= i < |validators| ==> validators[i].source != v.source
  {
    var more := validators + [v];
    assert more[|validators|] == v;
    assert forall i :: 0 <= i < |validators| ==> more[i] == validators[i];
  }

  lemma LastsOfFront(validators: seq<Validator>, v: Validator)
    ensures forall i :: 0 <= i < |validators| ==>
      (IsLastOfKey(validators + [v], i) <==> IsLastOfKey(validators, i) && Lower(validators[i].pubkey) != Lower(v.pubkey))
    ensures IsLastOfKey(validators + [v], |validators|)
  {
    var more := validators + [v];
    forall i | 0 <= i < |validators|
      ensures IsLastOfKey(more, i) <==> IsLastOfKey(validators, i) && Lower(validators[i].pubkey) != Lower(v.pubkey)
    {
      if IsLastOfKey(more, i) {
        assert more[|validators|] == v;
        forall j | i < j < |validators| ensures Lower(validators[j].pubkey) != Lower(validators[i].pubkey) {
          assert more[j] == validators[j];
        }
      }
    }
  }

  lemma IndexableAppend(validators: seq<Validator>, v: Validator)
    ensures Indexable(validators + [v]) <==>
            Indexable(validators) && HasSource(v)
            && ((forall i :: 0 <= i < |validators| ==> validators[i].source != v.source) ==> v.weight.Plain?)
  {
    var more := validators + [v];
    NewSource(validators, v);
    assert more[|validators|] == v;
    forall i | 0 <= i < |validators|
      ensures more[i] == validators[i] && (IsFirstOfSource(more, i) <==> IsFirstOfSource(validators, i))
    {
      FirstsOfFront(validators, v, i);
    }
  }

  /** There is an index exactly for indexable entries, and it holds what they say. */
  lemma {:induction false} IndexHolds(validators: seq<Validator>)
    ensures IndexOf(validators).Some? <==> Indexable(validators)
    ensures Indexable(validators) ==> Indexes(validators, IndexOf(validators).value)
  {
    if validators != [] {
      var before, v := validators[..|validators| - 1], validators[|validators| - 1];
      assert validators == before + [v];
      IndexHolds(before);
      IndexableAppend(before, v);
      if Indexable(before) && HasSource(v) {
        IndexStep(before, v, IndexOf(before).value);
      }
    }
  }

  lemma NamedAppend(validators: seq<Validator>, v: Validator)
    ensures forall s :: HasSourceNamed(validators + [v], s) <==> HasSourceNamed(validators, s) || v.source == Some(s)
    ensures forall pk :: HasKeyNamed(validators + [v], pk) <==> HasKeyNamed(validators, pk) || Lower(v.pubkey) == pk
  {
    var more := validators + [v];
    assert more[|validators|] == v && forall i :: 0 <= i < |validators| ==> more[i] == validators[i];
  }

  lemma WeighsAppend(before: seq<Validator>, v: Validator, weights: map<string, real>)
    requires Indexable(before) && Indexable(before + [v]) && WeighsFirst(before, weights)
    requires HasSource(v) && (v.source.value !in weights ==> v.weight.Plain?)
    ensures WeighsFirst(before + [v],
                        if v.source.value in weights then weights else weights[v.source.value := v.weight.value])
  {
    var more := before + [v];
    NamedAppend(before, v);
    NewSource(before, v);
    assert more[|before|] == v;
    forall i | 0 <= i < |before|
      ensures more[i] == before[i] && (IsFirstOfSource(more, i) <==> IsFirstOfSource(before, i))
      ensures before[i].source.value in weights
    {
      FirstsOfFront(before, v, i);
      assert HasSourceNamed(before, before[i].source.value);
    }
  }

  lemma StandsAppend(before: seq<Validator>, v: Validator, sources: map<string, string>)
    requires Indexable(before) && Indexable(before + [v]) && StandsForLast(before, sources) && HasSource(v)
    ensures StandsForLast(before + [v], sources[Lower(v.pubkey) := v.source.value])
  {
    NamedAppend(before, v);
    LastsOfFront(before, v);
    assert (before + [v])[|before|] == v;
  }

  lemma IndexStep(before: seq<Validator>, v: Validator, index: StakeIndex)
    requires Indexable(before) && Indexes(before, index) && HasSource(v)
    ensures (forall i :: 0 <= i < |before| ==> before[i].source != v.source) <==> v.source.value !in index.weightBySource
    ensures Indexable(before + [v]) ==>
      (v.source.value !in index.weightBySource ==> v.weight.Plain?) && Indexes(before + [v], Indexed(index, v))
  {
    assert HasSourceNamed(before, v.source.value) <==> exists i :: 0 <= i < |before| && before[i].source == v.source;
    IndexableAppend(before, v);
    if Indexable(before + [v]) {
      WeighsAppend(before, v, index.weightBySource);
      StandsAppend(before, v, index.sourceOf);
    }
  }

  lemma {:induction false} IndexIsConsistent(validators: seq<Validator>)
    requires IndexOf(validators).Some?
    ensures Consistent(IndexOf(validators).value)
  {
    if validators != [] {
      IndexIsConsistent(validators[..|validators| - 1]);
    }
  }

  lemma {:induction false} UnusablePrefix(validators: seq<Validator>, i: nat)
    requires i <= |validators| && IndexOf(validators[..i]).None?
    ensures IndexOf(validators).None?
    decreases |validators| - i
  {
    if i < |validators| {
      assert validators[..i + 1][..i] == validators[..i];
      UnusablePrefix(validators, i + 1);
    } else {
      assert validators[..i] == validators;
    }
  }

  /** An index exactly of indexable entries, holding what they say. */
  method IndexStakeSources(validators: seq<Validator>) returns (r: Option<StakeIndex>)
    ensures r == IndexOf(validators)
    ensures r.Some? <==> Indexable(validators)
    ensures r.Some? ==> Indexes(validators, r.value)
  {
    IndexHolds(validators);
    var weightBySource: map<string, real>, sourceOf: map<string, string> := map[], map[];
    for i := 0 to |validators|
      invariant IndexOf(validators[..i]) == Some(StakeIndex(weightBySource, sourceOf))
    {
      var v := validators[i];
      assert validators[..i + 1][..i] == validators[..i];
      if !HasSource(v) || (v.source.value !in weightBySource && !v.weight.Plain?) {
        UnusablePrefix(validators, i + 1);
        return None;
      }
      sourceOf := sourceOf[Lower(v.pubkey) := v.source.value];
      if v.source.value !in weightBySource {
        weightBySource := weightBySource[v.source.value := v.weight.value];
      }
    }
    assert validators[..|validators|] == validators;
    return Some(StakeIndex(weightBySource, sourceOf));
  }

  /** Absent when a weight is negative or the total is not positive. */
  method SumStakeWeights(weights: map<string, real>) returns (r: Option<real>)
    ensures r.Some? <==> NonNegative(weights) && StakeOf(weights, weights.Keys) > 0.0
    ensures r.Some? ==> r.value == StakeOf(weights, weights.Keys)
  {
    var total, left := 0.0, weights.Keys;
    while left != {}
      invariant left <= weights.Keys && total + StakeOf(weights, left) == StakeOf(weights, weights.Keys)
      invariant forall s :: s in weights && s !in left ==> weights[s] >= 0.0
      decreases |left|
    {
      var s :| s in left;
      if weights[s] < 0.0 { return None; }
      StakeOfWithout(weights, left, s);
      total, left := total + weights[s], left - {s};
    }
    if total <= 0.0 { return None; }
    return Some(total);
  }

  /** The distinct keys of a list, in lower case. */
  ghost function KeySet(keys: seq<string>): set<string> {
    if keys == [] then {} else KeySet(keys[..|keys| - 1]) + {Lower(keys[|keys| - 1])}
  }

  method SumSignerStake(index: StakeIndex, signers: seq<string>) returns (tally: real)
    requires Consistent(index)
    ensures tally == StakeOf(index.weightBySource, SourcesOf(index, KeySet(signers)))
  {
    var counted: set<string>, seen: set<string> := {}, {};
    tally := 0.0;
    for i := 0 to |signers|
      invariant seen == KeySet(signers[..i])
      invariant counted == SourcesOf(index, seen) && tally == StakeOf(index.weightBySource, counted)
    {
      var pk := Lower(signers[i]);
      assert signers[..i + 1][..i] == signers[..i];
      ghost var before := seen;
      if pk in seen {
        assert seen + {pk} == seen;
        continue;
      }
      seen := seen + {pk};
      if pk !in index.sourceOf {
        assert SourcesOf(index, seen) == SourcesOf(index, before);
        continue;
      }
      var source := index.sourceOf[pk];
      assert SourcesOf(index, seen) == SourcesOf(index, before) + {source};
      if source in counted { continue; }
      StakeOfWithout(index.weightBySource, counted + {source}, source);
      assert counted + {source} - {source} == counted;
      counted := counted + {source};
      tally := tally + index.weightBySource[source];
    }
    assert signers[..|signers|] == signers;
  }

  ghost predicate MeetsFor(validators: seq<Validator>, signers: set<string>) {
    IndexOf(validators).Some? && Consistent(IndexOf(validators).value) && Meets(IndexOf(validators).value, signers)
  }

  method MeetsStakeThreshold(validators: seq<Validator>, truncated: bool, signers: seq<string>) returns (ok: bool)
    ensures ok <==> !truncated && MeetsFor(validators, KeySet(signers))
  {
    if truncated { return false; }
    var index := IndexStakeSources(validators);
    if index.None? { return false; }
    IndexIsConsistent(validators);
    var total := SumStakeWeights(index.value.weightBySource);
    if total.None? { return false; }
    var tally := SumSignerStake(index.value, signers);
    return 3.0 * tally > 2.0 * total.value;
  }

  // ---- Intersection -------------------------------------------------------------------------------

  /** Two signer sets that both meet the threshold share sources holding more than a third of the stake. */
  lemma WeightedQuorumsIntersect(index: StakeIndex, one: set<string>, two: set<string>)
    requires Consistent(index) && Meets(index, one) && Meets(index, two)
    ensures
      var shared := SourcesOf(index, one) * SourcesOf(index, two);
      && shared <= index.weightBySource.Keys
      && 3.0 * StakeOf(index.weightBySource, shared) > StakeOf(index.weightBySource, index.weightBySource.Keys)
      && shared != {}
  {
    var a, b := SourcesOf(index, one), SourcesOf(index, two);
    StakeOfUnion(index.weightBySource, a, b);
    StakeOfPart(index.weightBySource, a + b, index.weightBySource.Keys);
  }

  /** More keys of a source already counted add nothing: only the set of sources matters. */
  lemma ExtraKeysOfASourceAddNothing(index: StakeIndex, signers: set<string>, extra: string)
    requires Consistent(index)
    requires extra in index.sourceOf && index.sourceOf[extra] in SourcesOf(index, signers)
    ensures Meets(index, signers + {extra}) <==> Meets(index, signers)
  {
    assert SourcesOf(index, signers + {extra}) == SourcesOf(index, signers);
  }
}
