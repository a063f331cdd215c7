/** What two accepted checkpoints that disagree prove about their signers. */
module CheckpointAgreement {
  import opened PipeText
  import opened StakeQuorum
  import opened CheckpointText
  import opened CheckpointSigning
  import opened CheckpointVerify

  /** The key verified an entry of the list over the text. */
  ghost predicate Signed(crypto: Ed25519, pk: string, x: string, sigs: seq<Signature>) {
    exists i :: 0 <= i < |sigs| && VerifySignature(crypto, x, sigs[i].sig, pk)
  }

  /** The key verified an entry of one list over one text and an entry of the other list over the other text. */
  ghost predicate SignedBoth(
    crypto: Ed25519, pk: string, x: string, sigs: seq<Signature>, y: string, sigs': seq<Signature>)
  {
    Signed(crypto, pk, x, sigs) && Signed(crypto, pk, y, sigs')
  }

  lemma GoodSignerSigned(
    crypto: Ed25519, x: string, qualified: set<string>, sigs: seq<Signature>, pk: string) returns (i: nat)
    requires pk in GoodSigners(crypto, x, qualified, sigs)
    ensures i < |sigs| && VerifySignature(crypto, x, sigs[i].sig, pk) && pk in qualified
  {
    i :| 0 <= i < |sigs| && Counts(crypto, x, qualified, sigs[i]) && Lower(sigs[i].pubkey) == pk;
  }

  /** Two checkpoints accepted by count over one validator set either agree in every signed field, or some
      qualified key signed two different texts: f+1 of them when there are 3f+1 keys. */
  lemma DisagreementNamesDoubleSigners(
    g: Gates, crypto: Ed25519, validators: seq<Validator>,
    a: Checkpoint, sigs: seq<Signature>, b: Checkpoint, sigs': seq<Signature>)
    returns (shared: set<string>)
    requires Admissible(g, a) && FieldsPipeFree(a)
    requires Suffices(false, validators, false, Signers(g, crypto, a, validators, sigs))
    requires Admissible(g, b) && FieldsPipeFree(b)
    requires Suffices(false, validators, false, Signers(g, crypto, b, validators, sigs'))
    ensures SignedFields(g, a) != SignedFields(g, b) ==>
      CanonicalCheckpoint(g, a).value != CanonicalCheckpoint(g, b).value
    ensures shared != {} && shared <= Qualified(validators)
    ensures forall pk :: pk in shared ==>
      SignedBoth(crypto, pk, CanonicalCheckpoint(g, a).value, sigs, CanonicalCheckpoint(g, b).value, sigs')
    ensures forall f: nat :: |Qualified(validators)| == 3 * f + 1 ==> |shared| >= f + 1
  {
    var x, y, all := CanonicalCheckpoint(g, a).value, CanonicalCheckpoint(g, b).value, Qualified(validators);
    SigningTextIsUnambiguous(g, a, b);
    CountQuorumsIntersect(crypto, validators, x, sigs, y, sigs');
    shared := GoodSigners(crypto, x, all, sigs) * GoodSigners(crypto, y, all, sigs');
    forall pk | pk in shared ensures pk in all && SignedBoth(crypto, pk, x, sigs, y, sigs') {
      var i := GoodSignerSigned(crypto, x, all, sigs, pk);
      var j := GoodSignerSigned(crypto, y, all, sigs', pk);
    }
  }

  /** The source has a key that signed the one text and a key that signed the other. */
  ghost predicate SourceSignedBoth(
    crypto: Ed25519, index: StakeIndex, source: string, x: string, sigs: seq<Signature>, y: string, sigs': seq<Signature>)
  {
    && (exists pk :: pk in index.sourceOf && index.sourceOf[pk] == source && Signed(crypto, pk, x, sigs))
    && (exists pk :: pk in index.sourceOf && index.sourceOf[pk] == source && Signed(crypto, pk, y, sigs'))
  }

  lemma SourceSigned(
    crypto: Ed25519, index: StakeIndex, x: string, qualified: set<string>, sigs: seq<Signature>, source: string)
    requires source in SourcesOf(index, GoodSigners(crypto, x, qualified, sigs))
    ensures exists pk :: pk in index.sourceOf && index.sourceOf[pk] == source && Signed(crypto, pk, x, sigs)
  {
    var pk :| pk in GoodSigners(crypto, x, qualified, sigs) && pk in index.sourceOf && index.sourceOf[pk] == source;
    var i := GoodSignerSigned(crypto, x, qualified, sigs, pk);
    assert Signed(crypto, pk, x, sigs);
  }

  /** Two checkpoints accepted by stake over one validator set either agree in every signed field, or sources with
      more than a third of the stake signed two different texts, each with keys of its own. */
  lemma DisagreementNamesSources(
    g: Gates, crypto: Ed25519, validators: seq<Validator>,
    a: Checkpoint, sigs: seq<Signature>, b: Checkpoint, sigs': seq<Signature>)
    returns (shared: set<string>)
    requires Admissible(g, a) && FieldsPipeFree(a)
    requires Suffices(true, validators, false, Signers(g, crypto, a, validators, sigs))
    requires Admissible(g, b) && FieldsPipeFree(b)
    requires Suffices(true, validators, false, Signers(g, crypto, b, validators, sigs'))
    ensures SignedFields(g, a) != SignedFields(g, b) ==>
      CanonicalCheckpoint(g, a).value != CanonicalCheckpoint(g, b).value
    ensures Indexable(validators) && IndexOf(validators).Some? && Indexes(validators, IndexOf(validators).value)
    ensures
      var index := IndexOf(validators).value;
      && shared != {} && shared <= index.weightBySource.Keys
      && 3.0 * StakeOf(index.weightBySource, shared) > StakeOf(index.weightBySource, index.weightBySource.Keys)
      && forall source :: source in shared ==>
          SourceSignedBoth(crypto, index, source, CanonicalCheckpoint(g, a).value, sigs,
                           CanonicalCheckpoint(g, b).value, sigs')
  {
    var x, y, all := CanonicalCheckpoint(g, a).value, CanonicalCheckpoint(g, b).value, Qualified(validators);
    var index := IndexOf(validators).value;
    var one, two := GoodSigners(crypto, x, all, sigs), GoodSigners(crypto, y, all, sigs');
    SigningTextIsUnambiguous(g, a, b);
    IndexHolds(validators);
    WeightedQuorumsIntersect(index, one, two);
    shared := SourcesOf(index, one) * SourcesOf(index, two);
    forall source | source in shared ensures SourceSignedBoth(crypto, index, source, x, sigs, y, sigs') {
      SourceSigned(crypto, index, x, all, sigs, source);
      SourceSigned(crypto, index, y, all, sigs', source);
    }
  }
}
