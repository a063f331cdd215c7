/** Verifying a checkpoint: which signatures count, how many are needed, and what two acceptances share. */
module CheckpointVerify {
  import opened Collections
  import opened PipeText
  import opened CheckpointText
  import opened StakeQuorum

  datatype Signature = Signature(pubkey: string, sig: string)

  /** Ed25519 verification of (payload, signature, key), left uninterpreted. */
  type Ed25519 = (string, string, string) -> bool

  predicate VerifySignature(crypto: Ed25519, payload: string, sig: string, pubkey: string) {
    && payload != "" && |pubkey| == 64 && IsHex(pubkey) && |sig| == 128 && IsHex(sig)
    && crypto(payload, sig, pubkey)
  }

  function Quorum(n: nat): nat {
    if n <= 1 then 1
    else
      var bft, majority := 2 * ((n - 1) / 3) + 1, (n + 2) / 2;
      if bft >= majority then bft else majority
  }

  ghost function Qualified(validators: seq<Validator>): set<string> {
    set i | 0 <= i < |validators| :: Lower(validators[i].pubkey)
  }

  /** The qualified keys with at least one verifying entry. */
  ghost function GoodSigners(crypto: Ed25519, payload: string, qualified: set<string>, sigs: seq<Signature>): set<string> {
    set i | 0 <= i < |sigs| && Counts(crypto, payload, qualified, sigs[i]) :: Lower(sigs[i].pubkey)
  }

  predicate Counts(crypto: Ed25519, payload: string, qualified: set<string>, s: Signature) {
    Lower(s.pubkey) in qualified && VerifySignature(crypto, payload, s.sig, Lower(s.pubkey))
  }

  datatype Verdict = Verdict(valid: bool, validSigs: nat, quorum: nat, weighted: bool)

  method QualifiedKeys(validators: seq<Validator>) returns (qualified: set<string>)
    ensures qualified == Qualified(validators)
  {
    qualified := {};
    for i := 0 to |validators|
      invariant qualified == set j | 0 <= j < i :: Lower(validators[j].pubkey)
    {
      qualified := qualified + {Lower(validators[i].pubkey)};
    }
  }

  lemma GoodSignersAppend(crypto: Ed25519, payload: string, qualified: set<string>, sigs: seq<Signature>, i: nat)
    requires i < |sigs|
    ensures GoodSigners(crypto, payload, qualified, sigs[..i + 1]) ==
            GoodSigners(crypto, payload, qualified, sigs[..i])
            + if Counts(crypto, payload, qualified, sigs[i]) then {Lower(sigs[i].pubkey)} else {}
  {
    var a, b := sigs[..i], sigs[..i + 1];
    assert b[i] == sigs[i] && forall j :: 0 <= j < i ==> b[j] == a[j];
  }

  lemma NextSigner(crypto: Ed25519, payload: string, qualified: set<string>, sigs: seq<Signature>, i: nat)
    requires i < |sigs|
    ensures
      var pk, before := Lower(sigs[i].pubkey), GoodSigners(crypto, payload, qualified, sigs[..i]);
      GoodSigners(crypto, payload, qualified, sigs[..i + 1]) ==
      if pk in before || !Counts(crypto, payload, qualified, sigs[i]) then before else before + {pk}
  {
    GoodSignersAppend(crypto, payload, qualified, sigs, i);
  }

  lemma KeySetAppend(keys: seq<string>, pk: string)
    ensures KeySet(keys + [pk]) == KeySet(keys) + {Lower(pk)}
  {
    assert (keys + [pk])[..|keys|] == keys;
  }

  lemma {:induction false} LowerTwice(s: string)
    ensures Lower(Lower(s)) == Lower(s)
  {
  }

  /** What the loop holds after some entries. */
  ghost predicate Tallied(
    crypto: Ed25519, payload: string, qualified: set<string>, before: seq<Signature>,
    seen: set<string>, validSigs: nat, signers: seq<string>)
  {
    && seen == GoodSigners(crypto, payload, qualified, before) && seen == KeySet(signers)
    && validSigs == |seen| && validSigs == |signers|
  }

  lemma SignerIsAdded(
    crypto: Ed25519, payload: string, qualified: set<string>, sigs: seq<Signature>, i: nat,
    seen: set<string>, validSigs: nat, signers: seq<string>)
    requires i < |sigs| && Tallied(crypto, payload, qualified, sigs[..i], seen, validSigs, signers)
    ensures
      var pk := Lower(sigs[i].pubkey);
      if pk in seen || !Counts(crypto, payload, qualified, sigs[i])
      then Tallied(crypto, payload, qualified, sigs[..i + 1], seen, validSigs, signers)
      else Tallied(crypto, payload, qualified, sigs[..i + 1], seen + {pk}, validSigs + 1, signers + [pk])
  {
    NextSigner(crypto, payload, qualified, sigs, i);
    LowerTwice(sigs[i].pubkey);
    KeySetAppend(signers, Lower(sigs[i].pubkey));
  }

  /** Counts each qualified key once, and only for an entry that verifies. */
  method CountSignatures(crypto: Ed25519, payload: string, qualified: set<string>, sigs: seq<Signature>)
    returns (validSigs: nat, signers: seq<string>)
    ensures validSigs == |GoodSigners(crypto, payload, qualified, sigs)| == |signers|
    ensures KeySet(signers) == GoodSigners(crypto, payload, qualified, sigs)
  {
    validSigs, signers := 0, [];
    var seen: set<string> := {};
    for i := 0 to |sigs|
      invariant Tallied(crypto, payload, qualified, sigs[..i], seen, validSigs, signers)
    {
      var pk := Lower(sigs[i].pubkey);
      SignerIsAdded(crypto, payload, qualified, sigs, i, seen, validSigs, signers);
      if pk != "" && pk !in seen && pk in qualified && VerifySignature(crypto, payload, sigs[i].sig, pk) {
        seen := seen + {pk};
        validSigs := validSigs + 1;
        signers := signers + [pk];
      }
    }
    assert sigs[..|sigs|] == sigs;
  }

  /** Every entry must carry stake before stake can be counted. */
  ghost predicate AllWeighted(validators: seq<Validator>) {
    |validators| > 0 && forall i :: 0 <= i < |validators| ==> IsWeightedEntry(validators[i])
  }

  method HasWeights(validators: seq<Validator>) returns (ok: bool)
    ensures ok <==> AllWeighted(validators)
  {
    for i := 0 to |validators|
      invariant forall j :: 0 <= j < i ==> IsWeightedEntry(validators[j])
    {
      if !IsWeightedEntry(validators[i]) { return false; }
    }
    return |validators| > 0;
  }

  /** When signatures suffice: by distinct stake at or above the weighted flag day, by count below it. */
  ghost predicate Suffices(weighted: bool, validators: seq<Validator>, truncated: bool, signers: set<string>) {
    if weighted then AllWeighted(validators) && !truncated && MeetsFor(validators, signers)
    else Qualified(validators) != {} && |signers| >= Quorum(|Qualified(validators)|)
  }

  ghost function Signers(g: Gates, crypto: Ed25519, cp: Checkpoint, validators: seq<Validator>, sigs: seq<Signature>)
    : set<string>
    requires Admissible(g, cp)
  {
    GoodSigners(crypto, CanonicalCheckpoint(g, cp).value, Qualified(validators), sigs)
  }

  /** Valid exactly when the checkpoint is admissible and its good signers suffice. */
  method VerifyCheckpoint(
    g: Gates, weightedGate: Gate, crypto: Ed25519, cp: Checkpoint, sigs: seq<Signature>,
    validators: seq<Validator>, truncated: bool)
    returns (v: Verdict)
    ensures v.quorum == Quorum(|Qualified(validators)|) && v.weighted == weightedGate(cp.snapshotBlock, cp.network)
    ensures v.valid <==>
            Admissible(g, cp) && Suffices(v.weighted, validators, truncated, Signers(g, crypto, cp, validators, sigs))
    ensures v.validSigs == if Admissible(g, cp) then |Signers(g, crypto, cp, validators, sigs)| else 0
  {
    var qualified := QualifiedKeys(validators);
    var quorum := Quorum(|qualified|);
    var weighted := weightedGate(cp.snapshotBlock, cp.network);
    var canonical := CanonicalCheckpoint(g, cp);
    if canonical.Refused? || CommitmentMissing(g, cp) || SupersessionDisallowed(g, cp) {
      return Verdict(false, 0, quorum, weighted);
    }
    var validSigs, signers := CountSignatures(crypto, canonical.value, qualified, sigs);
    var valid;
    if weighted {
      valid := HasWeights(validators);
      if valid { valid := MeetsStakeThreshold(validators, truncated, signers); }
    } else {
      valid := |qualified| > 0 && validSigs >= quorum;
    }
    return Verdict(valid, validSigs, quorum, weighted);
  }

  // ---- What counts ------------------------------------------------------------------------------

  /** The count depends only on which verifying entries there are: not on their order, their
      repetition, or any entry that does not verify. */
  lemma OnlyGoodEntriesCount(crypto: Ed25519, payload: string, qualified: set<string>, a: seq<Signature>, b: seq<Signature>)
    requires forall s :: Counts(crypto, payload, qualified, s) ==> (s in a <==> s in b)
    ensures GoodSigners(crypto, payload, qualified, a) == GoodSigners(crypto, payload, qualified, b)
  {
    GoodEntriesIncluded(crypto, payload, qualified, a, b);
    GoodEntriesIncluded(crypto, payload, qualified, b, a);
  }

  /** More entries never remove a signer. */
  lemma GoodEntriesIncluded(crypto: Ed25519, payload: string, qualified: set<string>, a: seq<Signature>, b: seq<Signature>)
    requires forall s :: Counts(crypto, payload, qualified, s) && s in a ==> s in b
    ensures GoodSigners(crypto, payload, qualified, a) <= GoodSigners(crypto, payload, qualified, b)
  {
    forall i | 0 <= i < |a| && Counts(crypto, payload, qualified, a[i])
      ensures Lower(a[i].pubkey) in GoodSigners(crypto, payload, qualified, b)
    {
      assert a[i] in a && a[i] in b;
      var j :| 0 <= j < |b| && b[j] == a[i];
    }
  }

  // ---- Quorums ----------------------------------------------------------------------------------

  /** Reachable by all, more than half, and exactly 2f+1 of 3f+1. */
  lemma QuorumIsSafeAndReachable(n: nat)
    requires n >= 1
    ensures 1 <= Quorum(n) <= n && 2 * Quorum(n) > n
    ensures forall f: nat :: n == 3 * f + 1 ==> Quorum(n) == 2 * f + 1
  {
  }

  lemma Overlap<T>(one: set<T>, two: set<T>, all: set<T>)
    requires one <= all && two <= all
    ensures |one| + |two| <= |all| + |one * two|
  {
    assert |one + two| == |one| + |two| - |one * two|;
    NoLargerThanSuperset(one + two, all);
  }

  /** Two acceptances in the count regime over one validator set, of any two checkpoints, share a
      signer, and share at least f+1 when there are 3f+1 validators. */
  lemma CountQuorumsIntersect(
    crypto: Ed25519, validators: seq<Validator>, payload: string, sigs: seq<Signature>,
    payload': string, sigs': seq<Signature>)
    requires Suffices(false, validators, false, GoodSigners(crypto, payload, Qualified(validators), sigs))
    requires Suffices(false, validators, false, GoodSigners(crypto, payload', Qualified(validators), sigs'))
    ensures
      var n := |Qualified(validators)|;
      var shared := GoodSigners(crypto, payload, Qualified(validators), sigs)
                    * GoodSigners(crypto, payload', Qualified(validators), sigs');
      && shared != {}
      && forall f: nat :: n == 3 * f + 1 ==> |shared| >= f + 1
  {
    var all := Qualified(validators);
    var one, two := GoodSigners(crypto, payload, all, sigs), GoodSigners(crypto, payload', all, sigs');
    Overlap(one, two, all);
    QuorumIsSafeAndReachable(|all|);
  }
}
