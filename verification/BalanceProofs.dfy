/** A light client's balance check: both proofs, the derived key and the claimed amount against a trusted root. */
module BalanceProofs {
  import opened Options
  import opened Primitives
  import opened OrderedMap
  import opened KeyBits
  import opened SparseMerkle
  import opened SmtProofs
  import opened CompressedProofs
  import opened FixedMerkle
  import opened FixedMerkleLoops
  import opened StateRoot
  import opened LayeredProofs
  import opened Amounts

  /** The key of a balance, from chain, network, address and tick. */
  type KeyOf = (string, string, string, string) -> KeyBuf

  datatype BalanceProof = BalanceProof(
    address: string, tick: string, key: KeyBuf, leaf: Option<Blob>, amount: string,
    balancesRoot: Blob, compressed: Compressed, index: int, path: seq<Blob>)

  /** A field of the request: not given, given as null, or a text. */
  datatype Wanted = Any | Null | Exactly(text: string)

  predicate Fits(wanted: Wanted, given: string) {
    wanted == Any || wanted == Exactly(given)
  }

  /** What a verifier is asked: where to look, and what it trusts. */
  datatype Query = Query(trusted: Blob, chain: string, network: string, address: Wanted, tick: Wanted)

  function Bytes(text: string): (b: Blob)
    ensures |b| == |text| && forall i :: 0 <= i < |b| ==> b[i] == text[i] as int
  {
    if text == "" then [] else Bytes(text[..|text| - 1]) + [text[|text| - 1] as int]
  }

  lemma BytesAreInjective(a: string, b: string)
    requires Bytes(a) == Bytes(b)
    ensures a == b
  {
    assert |a| == |b|;
    forall i | 0 <= i < |a| ensures a[i] == b[i] {
      assert Bytes(a)[i] == Bytes(b)[i];
    }
  }

  function AmountLeaf(h: Hash, canonical: string): Blob {
    LeafHash(h, Bytes(canonical))
  }

  const NOTHING: string := "0" + "." + ZEROS18

  lemma NothingIsCanonical()
    ensures CanonicalAmount("0") == Ok(NOTHING)
  {
    assert SplitPoint("0") == Parts("0", None) by {
      assert SplitPoint("0"[1..]) == Parts("", None);
    }
    assert ("" + ZEROS18)[..PLACES] == ZEROS18;
  }

  // ---- The check ------------------------------------------------------------------------------------

  /** The claimed amount goes with the claimed leaf. */
  predicate AmountFits(h: Hash, canonical: string, leaf: Option<Blob>) {
    if leaf.None? then canonical == NOTHING else leaf == Some(AmountLeaf(h, canonical))
  }

  /** Both proofs lead from the claimed leaf to the trusted root. */
  predicate ProofsLead(h: Hash, n: nat, path: Path, p: BalanceProof, trusted: Blob) {
    && SetCount(p.compressed.bitmap, n) == |p.compressed.siblings|
    && p.index == 0
    && BothAccept(h, n, trusted, 0, p.balancesRoot, p.path, path, p.leaf, Expanded(h, n, p.compressed, n))
  }

  function BalancePath(keyOf: KeyOf, q: Query, address: string, tick: string): Path {
    Bits(keyOf(q.chain, q.network, address, tick))
  }

  predicate Verifies(h: Hash, n: nat, keyOf: KeyOf, p: BalanceProof, q: Query) {
    && Fits(q.address, p.address) && Fits(q.tick, p.tick)
    && p.key == keyOf(q.chain, q.network, p.address, p.tick)
    && IsAmount(p.amount) && AmountFits(h, CanonicalAmount(p.amount).value, p.leaf)
    && ProofsLead(h, n, BalancePath(keyOf, q, p.address, p.tick), p, q.trusted)
  }

  method CheckAmount(h: Hash, p: BalanceProof) returns (r: Result<string>)
    ensures r.Ok? <==> IsAmount(p.amount) && AmountFits(h, CanonicalAmount(p.amount).value, p.leaf)
    ensures r.Ok? ==> r == CanonicalAmount(p.amount)
  {
    CanonicalAmountKeepsValue(p.amount);
    NothingIsCanonical();
    r := CanonicalAmount(p.amount);
    if r.Refused? { return; }
    if p.leaf.None? {
      if r != CanonicalAmount("0") { return Refused; }
    } else if AmountLeaf(h, r.value) != p.leaf.value {
      return Refused;
    }
  }

  method CheckProofs(h: Hash, n: nat, key: KeyBuf, p: BalanceProof, trusted: Blob) returns (ok: bool)
    ensures ok <==> ProofsLead(h, n, Bits(key), p, trusted)
  {
    var lower := VerifyCompressedSmtProof(h, n, p.balancesRoot, Bits(key), p.leaf, p.compressed);
    if lower.Refused? || !lower.value || p.index != 0 { return false; }
    ok := VerifyFixedMerkleProof(h, trusted, p.balancesRoot, p.index, p.path);
  }

  /** Refused is every unverified answer, whatever its reason. */
  method VerifyBalanceProof(h: Hash, n: nat, keyOf: KeyOf, proof: Option<BalanceProof>, q: Query)
    returns (r: Result<string>)
    ensures r.Ok? <==> proof.Some? && Verifies(h, n, keyOf, proof.value, q)
    ensures r.Ok? ==> CanonicalAmount(proof.value.amount) == r
  {
    if proof.None? { return Refused; }
    var p := proof.value;
    if !Fits(q.address, p.address) || !Fits(q.tick, p.tick) { return Refused; }
    var key := keyOf(q.chain, q.network, p.address, p.tick);
    if p.key != key { return Refused; }
    r := CheckAmount(h, p);
    if r.Ok? {
      var ok := CheckProofs(h, n, key, p, q.trusted);
      if !ok { return Refused; }
    }
  }

  // ---- What an accepted proof says ------------------------------------------------------------------

  /** The balances tree commits these amounts and nothing else. */
  ghost predicate Commits(h: Hash, level: Leaves, amounts: map<Path, string>) {
    && Contents(level) == (map path | path in amounts :: AmountLeaf(h, amounts[path]))
    && forall path :: path in amounts ==> IsCanonical(amounts[path])
  }

  ghost function Committed(amounts: map<Path, string>, path: Path): string {
    if path in amounts then amounts[path] else NOTHING
  }

  lemma CommittedLeafIsHashed(h: Hash, level: Leaves, amounts: map<Path, string>)
    requires Ideal(h) && Commits(h, level, amounts)
    ensures Empty(h, 0) !in Contents(level).Values && StoresContent(h, level)
  {
    forall path | path in amounts
      ensures IsContent(h, AmountLeaf(h, amounts[path])) && AmountLeaf(h, amounts[path]) != Empty(h, 0)
    {
      LeafHashIsContent(h, Bytes(amounts[path]));
      DomainsAreSeparate(h, Bytes(amounts[path]), [], []);
    }
  }

  /** A verified proof returns the committed amount of the balance asked for: nothing, where none is committed. */
  lemma VerifiedAmountIsCommitted(
    h: Hash, n: nat, keyOf: KeyOf, p: BalanceProof, q: Query, trees: Trees, amounts: map<Path, string>)
    requires Ideal(h) && ValidTrees(n, trees) && AllStoreContent(h, trees) && n > 3
    requires Commits(h, TreeOf(trees, SUBTREES[0]), amounts) && q.trusted == StateRootFor(h, n, trees)
    requires |BalancePath(keyOf, q, p.address, p.tick)| == n
    requires Verifies(h, n, keyOf, p, q)
    ensures CanonicalAmount(p.amount).value == Committed(amounts, BalancePath(keyOf, q, p.address, p.tick))
  {
    var level, path := TreeOf(trees, SUBTREES[0]), BalancePath(keyOf, q, p.address, p.tick);
    var amount := CanonicalAmount(p.amount).value;
    LeafHashIsContent(h, Bytes(amount));
    DomainsAreSeparate(h, Bytes(amount), [], []);
    CommittedLeafIsHashed(h, level, amounts);
    LayeredLeafIsHeldExactly(h, n, trees, 0, p.balancesRoot, p.path, path, p.leaf, Expanded(h, n, p.compressed, n));
    if path in amounts {
      assert p.leaf == Some(AmountLeaf(h, amounts[path]));
      LeafHashInjective(h, Bytes(amount), Bytes(amounts[path]));
      BytesAreInjective(amount, amounts[path]);
    }
  }

  /** The state's own proof of a balance: the siblings of the balances tree, compressed, under its place in the state. */
  ghost function HonestProof(
    h: Hash, n: nat, trees: Trees, amounts: map<Path, string>, address: string, tick: string, key: KeyBuf, c: Compressed)
    : BalanceProof
    requires ValidTrees(n, trees)
  {
    var level, leaves := TreeOf(trees, SUBTREES[0]), StateLeaves(h, n, RootsOf(h, n, trees));
    BalanceProof(address, tick, key, LeafOf(level, Bits(key)), Committed(amounts, Bits(key)),
                 Root(h, n, level), c, 0, PathOf(h, PaddedTree(h, leaves), BitsOf(0, Levels(|leaves|))))
  }

  lemma HonestProofsLead(
    h: Hash, n: nat, trees: Trees, amounts: map<Path, string>, address: string, tick: string, key: KeyBuf, c: Compressed)
    requires ValidTrees(n, trees) && |Bits(key)| == n
    requires Compresses(h, Siblings(h, n, TreeOf(trees, SUBTREES[0]), Bits(key), 0), c)
    ensures ProofsLead(h, n, Bits(key), HonestProof(h, n, trees, amounts, address, tick, key, c), StateRootFor(h, n, trees))
  {
    var level := TreeOf(trees, SUBTREES[0]);
    CommittedLeaf(h, n, trees, 0);
    FixedProofsVerify(h, StateLeaves(h, n, RootsOf(h, n, trees)), 0);
    ProofsVerify(h, n, level, Bits(key));
    DecompressUndoesCompress(h, Siblings(h, n, level, Bits(key), 0), c);
  }

  lemma CommittedFits(h: Hash, level: Leaves, amounts: map<Path, string>, path: Path)
    requires Commits(h, level, amounts)
    ensures
      var amount := Committed(amounts, path);
      IsAmount(amount) && CanonicalAmount(amount) == Ok(amount) && AmountFits(h, amount, LeafOf(level, path))
  {
    NothingIsCanonical();
    CanonicalAmountKeepsValue("0");
    CanonicalMeansItsUnits(Committed(amounts, path));
  }

  /** The honest proof of every balance verifies, with the committed amount. */
  lemma HonestProofVerifies(
    h: Hash, n: nat, keyOf: KeyOf, q: Query, trees: Trees, amounts: map<Path, string>,
    address: string, tick: string, c: Compressed)
    requires ValidTrees(n, trees) && Commits(h, TreeOf(trees, SUBTREES[0]), amounts)
    requires q.trusted == StateRootFor(h, n, trees) && Fits(q.address, address) && Fits(q.tick, tick)
    requires |BalancePath(keyOf, q, address, tick)| == n
    requires Compresses(h, Siblings(h, n, TreeOf(trees, SUBTREES[0]), BalancePath(keyOf, q, address, tick), 0), c)
    ensures
      var key := keyOf(q.chain, q.network, address, tick);
      Verifies(h, n, keyOf, HonestProof(h, n, trees, amounts, address, tick, key, c), q)
  {
    var key := keyOf(q.chain, q.network, address, tick);
    HonestProofsLead(h, n, trees, amounts, address, tick, key, c);
    CommittedFits(h, TreeOf(trees, SUBTREES[0]), amounts, Bits(key));
  }

  // ---- What the request decides -----------------------------------------------------------------------

  /** A verified proof answers the request: a request for an address and a tick gets the amount committed for these
      two, whatever the proof says of itself. */
  lemma RequestedAmountIsCommitted(
    h: Hash, n: nat, keyOf: KeyOf, p: BalanceProof, q: Query, trees: Trees, amounts: map<Path, string>,
    address: string, tick: string)
    requires Ideal(h) && ValidTrees(n, trees) && AllStoreContent(h, trees) && n > 3
    requires Commits(h, TreeOf(trees, "balances_root"), amounts) && q.trusted == StateRootFor(h, n, trees)
    requires q.address == Exactly(address) && q.tick == Exactly(tick)
    requires |Bits(keyOf(q.chain, q.network, address, tick))| == n
    requires Verifies(h, n, keyOf, p, q)
    ensures p.address == address && p.tick == tick
    ensures
      var path := Bits(keyOf(q.chain, q.network, address, tick));
      CanonicalAmount(p.amount) == Ok(if path in amounts then amounts[path] else "0.000000000000000000")
  {
    SlotsAre();
    VerifiedAmountIsCommitted(h, n, keyOf, p, q, trees, amounts);
    NothingIsWritten();
  }

  lemma NothingIsWritten()
    ensures NOTHING == "0.000000000000000000"
  {
  }

  /** The honest proof of a balance answers exactly the requests that leave address and tick open or name these. */
  lemma HonestProofAnswersExactly(
    h: Hash, n: nat, keyOf: KeyOf, q: Query, trees: Trees, amounts: map<Path, string>,
    address: string, tick: string, c: Compressed)
    requires ValidTrees(n, trees) && Commits(h, TreeOf(trees, SUBTREES[0]), amounts)
    requires q.trusted == StateRootFor(h, n, trees) && |BalancePath(keyOf, q, address, tick)| == n
    requires Compresses(h, Siblings(h, n, TreeOf(trees, SUBTREES[0]), BalancePath(keyOf, q, address, tick), 0), c)
    ensures
      var key := keyOf(q.chain, q.network, address, tick);
      Verifies(h, n, keyOf, HonestProof(h, n, trees, amounts, address, tick, key, c), q) <==> (
        && (q.address == Any || q.address == Exactly(address))
        && (q.tick == Any || q.tick == Exactly(tick)))
  {
    if Fits(q.address, address) && Fits(q.tick, tick) {
      HonestProofVerifies(h, n, keyOf, q, trees, amounts, address, tick, c);
    }
  }

  // ---- Exactly the honest proofs verify -----------------------------------------------------------------

  /** Everything a proof carries but its text of the amount and its bitmap's tail is the state's own for this key. */
  ghost predicate IsHonest(h: Hash, n: nat, trees: Trees, amounts: map<Path, string>, key: KeyBuf, p: BalanceProof)
    requires ValidTrees(n, trees) && |Bits(key)| == n
  {
    var level, leaves := TreeOf(trees, SUBTREES[0]), StateLeaves(h, n, RootsOf(h, n, trees));
    && p.key == key && p.leaf == LeafOf(level, Bits(key)) && p.balancesRoot == Root(h, n, level) && p.index == 0
    && p.path == PathOf(h, PaddedTree(h, leaves), BitsOf(0, Levels(|leaves|)))
    && SetCount(p.compressed.bitmap, n) == |p.compressed.siblings|
    && Expanded(h, n, p.compressed, n) == Siblings(h, n, level, Bits(key), 0)
    && CanonicalAmount(p.amount) == Ok(Committed(amounts, Bits(key)))
  }

  lemma HonestSubRoot(h: Hash, n: nat, trees: Trees, p: BalanceProof, path: Path)
    requires Ideal(h) && ValidTrees(n, trees) && AllStoreContent(h, trees) && n > 3 && |path| == n
    requires p.leaf.Some? ==> IsDigest(p.leaf.value) && IsContent(h, p.leaf.value)
    requires ProofsLead(h, n, path, p, StateRootFor(h, n, trees))
    ensures
      var level, leaves := TreeOf(trees, SUBTREES[0]), StateLeaves(h, n, RootsOf(h, n, trees));
      && p.path == PathOf(h, PaddedTree(h, leaves), BitsOf(0, Levels(|leaves|)))
      && p.balancesRoot == Root(h, n, level)
      && Expanded(h, n, p.compressed, n) == Siblings(h, n, level, path, 0)
  {
    var siblings := Expanded(h, n, p.compressed, n);
    HashedLeafHasThreeSiblings(h, n, trees, 0, p.balancesRoot, p.path, path, p.leaf, siblings);
    ClimbIsDigest(h, n, path, p.leaf.GetOr(Empty(h, 0)), siblings, 0);
    FiveNeedThreeLevels();
    CommittedLeavesAreDigests(h, n, trees);
    AcceptedFixedProofsAreHonest(h, StateLeaves(h, n, RootsOf(h, n, trees)), p.balancesRoot, 0, p.path);
    AcceptedSubRoot(h, n, trees, 0, p.balancesRoot, p.path);
    AcceptedProofsAreHonest(h, n, TreeOf(trees, SUBTREES[0]), path, p.leaf, siblings);
  }

  lemma HonestLeads(h: Hash, n: nat, trees: Trees, amounts: map<Path, string>, key: KeyBuf, p: BalanceProof)
    requires ValidTrees(n, trees) && |Bits(key)| == n && IsHonest(h, n, trees, amounts, key, p)
    ensures ProofsLead(h, n, Bits(key), p, StateRootFor(h, n, trees))
  {
    CommittedLeaf(h, n, trees, 0);
    FixedProofsVerify(h, StateLeaves(h, n, RootsOf(h, n, trees)), 0);
    ProofsVerify(h, n, TreeOf(trees, SUBTREES[0]), Bits(key));
  }

  /** A proof verifies exactly when the request leaves address and tick open or names the proof's own, and the proof is
      the state's own for that balance. */
  lemma VerifiesExactly(
    h: Hash, n: nat, keyOf: KeyOf, p: BalanceProof, q: Query, trees: Trees, amounts: map<Path, string>)
    requires Ideal(h) && ValidTrees(n, trees) && AllStoreContent(h, trees) && n > 3
    requires Commits(h, TreeOf(trees, SUBTREES[0]), amounts) && q.trusted == StateRootFor(h, n, trees)
    requires |BalancePath(keyOf, q, p.address, p.tick)| == n
    ensures Verifies(h, n, keyOf, p, q) <==> (
              && (q.address == Any || q.address == Exactly(p.address))
              && (q.tick == Any || q.tick == Exactly(p.tick))
              && IsHonest(h, n, trees, amounts, keyOf(q.chain, q.network, p.address, p.tick), p))
  {
    var key := keyOf(q.chain, q.network, p.address, p.tick);
    if Verifies(h, n, keyOf, p, q) {
      VerifiedIsHonest(h, n, keyOf, p, q, trees, amounts);
    }
    if IsHonest(h, n, trees, amounts, key, p) {
      HonestLeads(h, n, trees, amounts, key, p);
      HonestAmountFits(h, n, trees, amounts, key, p);
    }
  }

  lemma HonestAmountFits(h: Hash, n: nat, trees: Trees, amounts: map<Path, string>, key: KeyBuf, p: BalanceProof)
    requires ValidTrees(n, trees) && |Bits(key)| == n && IsHonest(h, n, trees, amounts, key, p)
    requires Commits(h, TreeOf(trees, SUBTREES[0]), amounts)
    ensures IsAmount(p.amount) && AmountFits(h, CanonicalAmount(p.amount).value, p.leaf)
  {
    CanonicalAmountKeepsValue(p.amount);
    CommittedFits(h, TreeOf(trees, SUBTREES[0]), amounts, Bits(key));
  }

  /** A request for null, of address or tick, is answered by no proof. */
  lemma NullVerifiesNothing(h: Hash, n: nat, keyOf: KeyOf, p: BalanceProof, q: Query)
    requires q.address == Null || q.tick == Null
    ensures !Verifies(h, n, keyOf, p, q)
  {
  }

  lemma VerifiedIsHonest(
    h: Hash, n: nat, keyOf: KeyOf, p: BalanceProof, q: Query, trees: Trees, amounts: map<Path, string>)
    requires Ideal(h) && ValidTrees(n, trees) && AllStoreContent(h, trees) && n > 3
    requires Commits(h, TreeOf(trees, SUBTREES[0]), amounts) && q.trusted == StateRootFor(h, n, trees)
    requires |BalancePath(keyOf, q, p.address, p.tick)| == n && Verifies(h, n, keyOf, p, q)
    ensures IsHonest(h, n, trees, amounts, keyOf(q.chain, q.network, p.address, p.tick), p)
  {
    var level, path := TreeOf(trees, SUBTREES[0]), BalancePath(keyOf, q, p.address, p.tick);
    var amount := CanonicalAmount(p.amount).value;
    LeafHashIsContent(h, Bytes(amount));
    DomainsAreSeparate(h, Bytes(amount), [], []);
    CommittedLeafIsHashed(h, level, amounts);
    LayeredLeafIsHeldExactly(h, n, trees, 0, p.balancesRoot, p.path, path, p.leaf, Expanded(h, n, p.compressed, n));
    HonestSubRoot(h, n, trees, p, path);
    VerifiedAmountIsCommitted(h, n, keyOf, p, q, trees, amounts);
  }
}
