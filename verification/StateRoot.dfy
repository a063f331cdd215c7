/** The two-layer state commitment: a fixed Merkle root over five named sparse-tree roots. */
module StateRoot {
  import opened Options
  import opened Primitives
  import opened OrderedMap
  import opened KeyBits
  import opened SparseMerkle
  import opened SmtProofs
  import opened FixedMerkle
  import opened FixedMerkleLoops

  const SUBTREES: seq<string> :=
    ["balances_root", "stakes_root", "ownership_root", "tokens_root", "contract_state_root"]

  /** The leaf committed for a name: its root, or the empty tree's when it has none. */
  function SubRootOr(h: Hash, n: nat, subRoots: map<string, Blob>, name: string): Blob {
    if name in subRoots then subRoots[name] else Empty(h, n)
  }

  function StateLeaves(h: Hash, n: nat, subRoots: map<string, Blob>): (leaves: seq<Blob>)
    ensures |leaves| == |SUBTREES|
    ensures forall i :: 0 <= i < |SUBTREES| ==> leaves[i] == SubRootOr(h, n, subRoots, SUBTREES[i])
  {
    [SubRootOr(h, n, subRoots, SUBTREES[0]), SubRootOr(h, n, subRoots, SUBTREES[1]),
     SubRootOr(h, n, subRoots, SUBTREES[2]), SubRootOr(h, n, subRoots, SUBTREES[3]),
     SubRootOr(h, n, subRoots, SUBTREES[4])]
  }

  method StateRootOf(h: Hash, n: nat, subRoots: map<string, Blob>) returns (root: Blob)
    ensures root == FixedRoot(h, StateLeaves(h, n, subRoots))
  {
    root := FixedMerkleRoot(h, StateLeaves(h, n, subRoots));
  }

  function IndexOf(names: seq<string>, name: string): (i: int)
    ensures -1 <= i < |names|
    ensures i >= 0 ==> names[i] == name
    ensures i < 0 <==> name !in names
  {
    if names == [] then -1
    else if names[0] == name then 0
    else
      var i := IndexOf(names[1..], name);
      assert forall j :: 0 < j < |names| ==> names[j] == names[1..][j - 1];
      if i < 0 then -1 else i + 1
  }

  /** The slots of the five names. */
  lemma SlotsAre()
    ensures SUBTREES[0] == "balances_root" && SUBTREES[1] == "stakes_root" && SUBTREES[2] == "ownership_root"
    ensures SUBTREES[3] == "tokens_root" && SUBTREES[4] == "contract_state_root" && |SUBTREES| == 5
  {
  }

  /** Refused exactly for a name that is not one of the five; otherwise three siblings that verify,
      also for a name with no sub-root. */
  method StateRootProof(h: Hash, n: nat, subRoots: map<string, Blob>, name: string) returns (r: Result<seq<Blob>>)
    ensures r.Ok? <==> name in SUBTREES
    ensures r.Ok? ==> |r.value| == 3
    ensures r.Ok? ==> FixedAccepts(h, FixedRoot(h, StateLeaves(h, n, subRoots)), SubRootOr(h, n, subRoots, name),
                                   IndexOf(SUBTREES, name), r.value)
  {
    var idx := IndexOf(SUBTREES, name);
    if idx < 0 { return Refused; }
    r := FixedMerkleProof(h, StateLeaves(h, n, subRoots), idx);
    FixedProofsVerify(h, StateLeaves(h, n, subRoots), idx);
    FiveNeedThreeLevels();
  }

  lemma FiveNeedThreeLevels()
    ensures Levels(|SUBTREES|) == 3 && Pow2(3) == 8
  {
    assert Levels(1) == 0 && Levels(2) == 1 && Levels(3) == 2 && Levels(5) == 3;
    assert Pow2(0) == 1 && Pow2(1) == 2 && Pow2(2) == 4;
  }

  // ---- The layered proof ------------------------------------------------------------------------

  type Trees = map<string, Leaves>

  ghost predicate ValidTrees(n: nat, trees: Trees) {
    forall name :: name in trees ==> Tree(n, trees[name])
  }

  /** A name without a tree commits the empty one. */
  function TreeOf(trees: Trees, name: string): Leaves {
    if name in trees then trees[name] else []
  }

  ghost function RootsOf(h: Hash, n: nat, trees: Trees): map<string, Blob>
    requires ValidTrees(n, trees)
  {
    map name | name in trees :: Root(h, n, trees[name])
  }

  lemma CommittedLeaf(h: Hash, n: nat, trees: Trees, i: nat)
    requires ValidTrees(n, trees) && i < |SUBTREES|
    ensures StateLeaves(h, n, RootsOf(h, n, trees))[i] == Root(h, n, TreeOf(trees, SUBTREES[i]))
  {
  }

  lemma CommittedLeavesAreDigests(h: Hash, n: nat, trees: Trees)
    requires Ideal(h) && ValidTrees(n, trees)
    ensures forall i :: 0 <= i < |SUBTREES| ==> IsDigest(StateLeaves(h, n, RootsOf(h, n, trees))[i])
  {
    forall i | 0 <= i < |SUBTREES| ensures IsDigest(StateLeaves(h, n, RootsOf(h, n, trees))[i]) {
      CommittedLeaf(h, n, trees, i);
      SmtNodeIsDigest(h, n, TreeOf(trees, SUBTREES[i]), 0);
    }
  }

  /** A sub-root accepted by three siblings at a sub-tree's index is that sub-tree's root. */
  lemma AcceptedSubRoot(h: Hash, n: nat, trees: Trees, i: nat, subRoot: Blob, path: seq<Blob>)
    requires Ideal(h) && ValidTrees(n, trees) && i < |SUBTREES| && |path| == 3 && IsDigest(subRoot)
    requires FixedAccepts(h, FixedRoot(h, StateLeaves(h, n, RootsOf(h, n, trees))), subRoot, i, path)
    ensures subRoot == Root(h, n, TreeOf(trees, SUBTREES[i]))
  {
    var leaves := StateLeaves(h, n, RootsOf(h, n, trees));
    FiveNeedThreeLevels();
    CommittedLeavesAreDigests(h, n, trees);
    AcceptedFixedProofsAreHonest(h, leaves, subRoot, i, path);
    DivisionIsUnique(i, 8, 0, i);
    CommittedLeaf(h, n, trees, i);
  }

  /** Two accepted proofs, one above the other with three siblings, prove exactly what the named sub-tree holds.
      The intermediate sub-root needs no check of its own: the lower proof already makes it a digest. */
  lemma ThreeSiblingsAreHonest(
    h: Hash, n: nat, trees: Trees, i: nat, subRoot: Blob, path: seq<Blob>,
    key: Path, leaf: Option<Blob>, siblings: seq<Blob>)
    requires Ideal(h) && ValidTrees(n, trees) && i < |SUBTREES| && |path| == 3
    requires |key| == n > 0 && (leaf.Some? ==> IsDigest(leaf.value))
    requires FixedAccepts(h, FixedRoot(h, StateLeaves(h, n, RootsOf(h, n, trees))), subRoot, i, path)
    requires Accepts(h, n, subRoot, key, leaf, siblings)
    ensures leaf.GetOr(Empty(h, 0)) == LeafOf(TreeOf(trees, SUBTREES[i]), key).GetOr(Empty(h, 0))
    ensures Empty(h, 0) !in Contents(TreeOf(trees, SUBTREES[i])).Values && leaf != Some(Empty(h, 0)) ==>
      leaf == LeafOf(TreeOf(trees, SUBTREES[i]), key)
  {
    ClimbIsDigest(h, n, key, leaf.GetOr(Empty(h, 0)), siblings, 0);
    AcceptedSubRoot(h, n, trees, i, subRoot, path);
    AcceptedProofsAreHonest(h, n, TreeOf(trees, SUBTREES[i]), key, leaf, siblings);
  }
}
