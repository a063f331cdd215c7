/** What is enough for acceptance, in plain numbers: neither f silent keys nor less than a third of the stake can block it. */
module CheckpointLiveness {
  import opened Collections
  import opened Options
  import opened JsText
  import opened PipeText
  import opened CheckpointText
  import opened StakeQuorum
  import opened CheckpointVerify

  // ---- By count -----------------------------------------------------------------------------------

  /** The quorum is the least number that is more than half and at least one more than twice the tolerated faults. */
  lemma QuorumIsLeast(n: nat, q: nat)
    requires n >= 1
    ensures q >= Quorum(n) <==> 2 * q > n && q >= 2 * ((n - 1) / 3) + 1
  {
  }

  lemma SignersAreQualified(crypto: Ed25519, payload: string, qualified: set<string>, sigs: seq<Signature>)
    ensures GoodSigners(crypto, payload, qualified, sigs) <= qualified
  {
  }

  /** Accepted by count exactly when there are signers enough: more than half of the keys, and twice the tolerated
      faults plus one. */
  lemma CountSufficesExactly(
    crypto: Ed25519, payload: string, validators: seq<Validator>, truncated: bool, sigs: seq<Signature>)
    ensures
      var n, signed := |Qualified(validators)|, |GoodSigners(crypto, payload, Qualified(validators), sigs)|;
      Suffices(false, validators, truncated, GoodSigners(crypto, payload, Qualified(validators), sigs))
      <==> n > 0 && 2 * signed > n && signed > 2 * ((n - 1) / 3)
  {
    var all := Qualified(validators);
    if all != {} {
      QuorumIsLeast(|all|, |GoodSigners(crypto, payload, all, sigs)|);
    }
  }

  /** Of 3f+1 keys, up to f that do not sign cannot block a checkpoint, and f+1 can. */
  lemma SilentKeysBlockExactly(
    crypto: Ed25519, payload: string, validators: seq<Validator>, truncated: bool, sigs: seq<Signature>, f: nat)
    requires |Qualified(validators)| == 3 * f + 1
    ensures
      var signers := GoodSigners(crypto, payload, Qualified(validators), sigs);
      Suffices(false, validators, truncated, signers) <==> |Qualified(validators) - signers| <= f
  {
    var all := Qualified(validators);
    var signers := GoodSigners(crypto, payload, all, sigs);
    SignersAreQualified(crypto, payload, all, sigs);
    QuorumIsSafeAndReachable(|all|);
    assert |all - signers| == |all| - |signers| by {
      assert all == signers + (all - signers);
    }
  }

  // ---- By stake -----------------------------------------------------------------------------------

  /** The sources none of whose keys signed. */
  ghost function SilentSources(index: StakeIndex, signers: set<string>): set<string> {
    set s | s in index.weightBySource && !(exists pk :: pk in signers && pk in index.sourceOf && index.sourceOf[pk] == s)
  }

  /** Stake is enough exactly when it is positive and the sources that did not sign hold less than a third of it. */
  lemma SilentStakeBlocksExactly(index: StakeIndex, signers: set<string>)
    requires Consistent(index) && NonNegative(index.weightBySource)
    ensures
      var total := StakeOf(index.weightBySource, index.weightBySource.Keys);
      Meets(index, signers) <==> total > 0.0 && 3.0 * StakeOf(index.weightBySource, SilentSources(index, signers)) < total
  {
    var all, signed, silent := index.weightBySource.Keys, SourcesOf(index, signers), SilentSources(index, signers);
    assert signed + silent == all && signed * silent == {};
    StakeOfUnion(index.weightBySource, signed, silent);
  }

  /** Something other than white space. */
  ghost predicate HasInk(s: string) {
    exists i :: 0 <= i < |s| && !IsSpace(s[i])
  }

  lemma {:induction false} InkStaysInFront(s: string)
    ensures HasInk(TrimStart(s)) <==> HasInk(s)
  {
    if s != "" && IsSpace(s[0]) {
      InkStaysInFront(s[1..]);
      assert forall i :: 0 < i < |s| ==> s[i] == s[1..][i - 1];
      assert HasInk(s[1..]) ==> HasInk(s);
    }
  }

  lemma {:induction false} InkStaysBehind(s: string)
    ensures TrimEnd(s) != "" <==> HasInk(s)
  {
    if s != "" && IsSpace(s[|s| - 1]) {
      InkStaysBehind(s[..|s| - 1]);
      assert forall i :: 0 <= i < |s| - 1 ==> s[i] == s[..|s| - 1][i];
      assert HasInk(s[..|s| - 1]) ==> HasInk(s);
    }
  }

  /** The entry names a source that is not blank, and its weight is a number that reads as a finite double not below zero. */
  ghost predicate Weighs(v: Validator) {
    && (exists source :: v.source == Some(source) && HasInk(source))
    && (exists x :: (v.weight == Exponent(x) || v.weight == Plain(x)) && -ZERO_UP_TO <= x < INFINITE_FROM)
  }

  lemma WeighsIs(v: Validator)
    ensures Weighs(v) <==> IsWeightedEntry(v)
  {
    if v.source.Some? {
      InkStaysInFront(v.source.value);
      InkStaysBehind(TrimStart(v.source.value));
    }
    assert v.weight.Exponent? ==> v.weight == Exponent(v.weight.value);
    assert v.weight.Plain? ==> v.weight == Plain(v.weight.value);
  }

  /** There is stake, none of it negative, and the sources that did not sign hold less than a third. */
  ghost predicate SilentHoldLittle(index: StakeIndex, signers: set<string>) {
    var total := StakeOf(index.weightBySource, index.weightBySource.Keys);
    && NonNegative(index.weightBySource) && total > 0.0
    && 3.0 * StakeOf(index.weightBySource, SilentSources(index, signers)) < total
  }

  lemma MeetsExactly(validators: seq<Validator>, signers: set<string>)
    ensures MeetsFor(validators, signers) <==> (
              && Indexable(validators) && IndexOf(validators).Some? && Indexes(validators, IndexOf(validators).value)
              && SilentHoldLittle(IndexOf(validators).value, signers))
  {
    IndexHolds(validators);
    if IndexOf(validators).Some? {
      IndexIsConsistent(validators);
      if NonNegative(IndexOf(validators).value.weightBySource) {
        SilentStakeBlocksExactly(IndexOf(validators).value, signers);
      }
    }
  }

  /** Accepted by stake exactly when the set is whole and not empty, every entry weighs, the first one of each source in
      plain decimals and not below zero, and the sources that did not sign hold less than a third of what there is. */
  lemma StakeSufficesExactly(validators: seq<Validator>, truncated: bool, signers: set<string>)
    ensures Suffices(true, validators, truncated, signers) <==> (
              && !truncated && validators != []
              && (forall i :: 0 <= i < |validators| ==> Weighs(validators[i]))
              && Indexable(validators) && IndexOf(validators).Some? && Indexes(validators, IndexOf(validators).value)
              && SilentHoldLittle(IndexOf(validators).value, signers))
  {
    forall i | 0 <= i < |validators| ensures Weighs(validators[i]) <==> IsWeightedEntry(validators[i]) {
      WeighsIs(validators[i]);
    }
    MeetsExactly(validators, signers);
  }

  // ---- Who counts ---------------------------------------------------------------------------------

  /** A key counts exactly when it is one of the validators' in lower case, reads as 32 bytes, and some entry for it,
      in whatever case, carries a signature of 64 bytes that verifies over a text that is not empty. */
  lemma SignersAre(crypto: Ed25519, payload: string, validators: seq<Validator>, sigs: seq<Signature>, pk: string)
    ensures pk in GoodSigners(crypto, payload, Qualified(validators), sigs) <==> (
              && (exists j :: 0 <= j < |validators| && Lower(validators[j].pubkey) == pk)
              && payload != "" && |pk| == 64 && (forall c :: c in pk ==> c in "0123456789abcdefABCDEF")
              && exists i :: 0 <= i < |sigs| && Lower(sigs[i].pubkey) == pk && SignsOver(crypto, payload, sigs[i].sig, pk))
  {
    HexIsDigits(pk);
    forall i | 0 <= i < |sigs| ensures IsHex(sigs[i].sig) <==> forall c :: c in sigs[i].sig ==> c in "0123456789abcdefABCDEF" {
      HexIsDigits(sigs[i].sig);
    }
  }

  /** A signature of 64 bytes in hexadecimal digits that verifies. */
  ghost predicate SignsOver(crypto: Ed25519, payload: string, sig: string, pk: string) {
    |sig| == 128 && (forall c :: c in sig ==> c in "0123456789abcdefABCDEF") && crypto(payload, sig, pk)
  }

  lemma HexIsDigits(s: string)
    ensures IsHex(s) <==> forall c :: c in s ==> c in "0123456789abcdefABCDEF"
  {
    if IsHex(s) {
      forall c | c in s ensures c in "0123456789abcdefABCDEF" {
        var i :| 0 <= i < |s| && s[i] == c;
        OneHexDigit(s[i]);
      }
    }
    if forall c :: c in s ==> c in "0123456789abcdefABCDEF" {
      forall i | 0 <= i < |s| ensures '0' <= s[i] <= '9' || 'a' <= s[i] <= 'f' || 'A' <= s[i] <= 'F' {
        assert s[i] in s;
        OneHexDigit(s[i]);
      }
    }
  }

  lemma OneHexDigit(c: char)
    ensures c in "0123456789abcdefABCDEF" <==> '0' <= c <= '9' || 'a' <= c <= 'f' || 'A' <= c <= 'F'
  {
    var digits := "0123456789abcdefABCDEF";
    if '0' <= c <= '9' {
      assert digits[c as int - '0' as int] == c;
    } else if 'a' <= c <= 'f' {
      assert digits[10 + c as int - 'a' as int] == c;
    } else if 'A' <= c <= 'F' {
      assert digits[16 + c as int - 'A' as int] == c;
    }
  }
}
