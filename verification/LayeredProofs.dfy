/** Two proofs, one above the other, over trees of hashed leaves. No verifier counts the siblings of the upper one;
    the count is right exactly when the claimed leaf is not the hash of two nodes, which a hashed row never is. */
module LayeredProofs {
  import opened Options
  import opened Primitives
  import opened OrderedMap
  import opened KeyBits
  import opened SparseMerkle
  import opened SmtProofs
  import opened FixedMerkle
  import opened StateRoot

  // ---- Trees whose tips lie at one of two depths ------------------------------------------------------

  ghost predicate TipsAt(t: Perfect, a: int, b: int) {
    match t
    case Tip(_) => a == 0 || b == 0
    case Fork(l, r) => TipsAt(l, a - 1, b - 1) && TipsAt(r, a - 1, b - 1)
  }

  lemma {:induction false} HeightIsTips(t: Perfect, k: nat, a: int)
    requires Height(t, k)
    ensures TipsAt(t, a, k)
  {
    if t.Fork? {
      HeightIsTips(t.left, k - 1, a - 1);
      HeightIsTips(t.right, k - 1, a - 1);
    }
  }

  /** A tree of hashed leaves. */
  ghost predicate IsHashed(h: Hash, t: Perfect) {
    AllDigests(t) && AllContent(h, t)
  }

  /** A climb along index bits ends at the root of some subtree, that many levels down. */
  lemma {:induction false} PathReachesSubtree(
    h: Hash, t: Perfect, a: int, b: int, node: Blob, bits: LowBits, siblings: seq<Blob>) returns (u: Perfect)
    requires Ideal(h) && IsHashed(h, t) && TipsAt(t, a, b) && IsDigest(node) && |bits| == |siblings|
    requires ClimbUp(h, node, bits, siblings) == TreeRoot(h, t)
    ensures TreeRoot(h, u) == node && IsHashed(h, u) && TipsAt(u, a - |bits|, b - |bits|)
    decreases |bits|
  {
    if |bits| == 0 {
      u := t;
    } else {
      var m := |bits| - 1;
      TopIsForced(h, t, node, bits, siblings);
      u := PathReachesSubtree(h, if bits[m] then t.right else t.left, a - 1, b - 1, node, bits[..m], siblings[..m]);
    }
  }

  /** A climb along a key from a content leaf ends at a tip. */
  lemma {:induction false} KeyEndsAtTip(
    h: Hash, n: nat, t: Perfect, a: int, b: int, key: Path, leaf: Blob, siblings: seq<Blob>, depth: nat)
    requires Ideal(h) && IsHashed(h, t) && TipsAt(t, a, b) && IsDigest(leaf) && IsContent(h, leaf)
    requires |key| == n == |siblings| && depth <= n && Climb(h, n, key, leaf, siblings, depth) == TreeRoot(h, t)
    ensures a == n - depth || b == n - depth
    decreases n - depth
  {
    if depth < n {
      var same, other := if key[depth] then t.right else t.left, if key[depth] then t.left else t.right;
      KeyStep(h, n, t, key, leaf, siblings, depth);
      KeyEndsAtTip(h, n, same, a - 1, b - 1, key, leaf, siblings, depth + 1);
    }
  }

  lemma KeyStep(h: Hash, n: nat, t: Perfect, key: Path, leaf: Blob, siblings: seq<Blob>, depth: nat)
    requires Ideal(h) && IsHashed(h, t) && IsDigest(leaf)
    requires |key| == n == |siblings| && depth < n && Climb(h, n, key, leaf, siblings, depth) == TreeRoot(h, t)
    ensures t.Fork?
    ensures Climb(h, n, key, leaf, siblings, depth + 1) == TreeRoot(h, if key[depth] then t.right else t.left)
  {
    if t.Fork? {
      var same, other := if key[depth] then t.right else t.left, if key[depth] then t.left else t.right;
      if depth + 1 < n {
        ClimbIsDigest(h, n, key, leaf, siblings, depth + 1);
      }
      TreeRootIsDigest(h, same);
      CombineInjective(h, key[depth], Climb(h, n, key, leaf, siblings, depth + 1), siblings[depth],
                       TreeRoot(h, same), TreeRoot(h, other));
    }
  }

  // ---- The whole state as one tree ----------------------------------------------------------------------

  /** The sparse tree, unpruned. */
  ghost function FullTree(h: Hash, n: nat, level: Leaves, prefix: Path): Perfect
    requires |prefix| <= n
    decreases n - |prefix|
  {
    if |prefix| == n then Tip(Stored(h, level, prefix))
    else Fork(FullTree(h, n, level, prefix + [false]), FullTree(h, n, level, prefix + [true]))
  }

  /** Every stored leaf is a hashed row. */
  ghost predicate StoresContent(h: Hash, level: Leaves) {
    forall path :: path in Contents(level) ==> IsContent(h, Contents(level)[path])
  }

  lemma {:induction false} FullTreeIs(h: Hash, n: nat, level: Leaves, prefix: Path)
    requires Ideal(h) && LeavesAreDigests(level) && Distinct(level) && StoresContent(h, level) && |prefix| <= n
    ensures TreeRoot(h, FullTree(h, n, level, prefix)) == FullNode(h, n, level, prefix)
    ensures Height(FullTree(h, n, level, prefix), n - |prefix|) && IsHashed(h, FullTree(h, n, level, prefix))
    decreases n - |prefix|
  {
    if |prefix| == n {
      StoredIsDigest(h, level, prefix);
      LeafHashIsContent(h, []);
    } else {
      FullTreeIs(h, n, level, prefix + [false]);
      FullTreeIs(h, n, level, prefix + [true]);
    }
  }

  /** Trees side by side under k levels. */
  ghost function Graft(trees: seq<Perfect>, k: nat): Perfect
    requires |trees| == Pow2(k)
    decreases k
  {
    if k == 0 then trees[0]
    else
      var half := Pow2(k - 1);
      Fork(Graft(trees[..half], k - 1), Graft(trees[half..], k - 1))
  }

  /** Hashed trees with these roots, their tips at depth 0 or n. */
  ghost predicate Grafts(h: Hash, trees: seq<Perfect>, roots: seq<Blob>, n: int) {
    |trees| == |roots| && forall i :: 0 <= i < |trees| ==>
      TreeRoot(h, trees[i]) == roots[i] && IsHashed(h, trees[i]) && TipsAt(trees[i], 0, n)
  }

  lemma GraftsInHalves(h: Hash, trees: seq<Perfect>, roots: seq<Blob>, n: int, half: nat)
    requires Grafts(h, trees, roots, n) && half <= |trees|
    ensures Grafts(h, trees[..half], roots[..half], n) && Grafts(h, trees[half..], roots[half..], n)
  {
  }

  /** The grafted tree has the root that halving gives, and its tips lie k levels deeper. */
  ghost predicate GraftFits(h: Hash, trees: seq<Perfect>, roots: seq<Blob>, k: nat, n: int) {
    && |trees| == |roots| == Pow2(k)
    && TreeRoot(h, Graft(trees, k)) == TreeRoot(h, Halved(roots, k))
    && IsHashed(h, Graft(trees, k)) && TipsAt(Graft(trees, k), k, n + k)
  }

  lemma GraftStep(h: Hash, trees: seq<Perfect>, roots: seq<Blob>, k: nat, n: int)
    requires k > 0 && |trees| == |roots| == Pow2(k)
    requires GraftFits(h, trees[..Pow2(k - 1)], roots[..Pow2(k - 1)], k - 1, n)
    requires GraftFits(h, trees[Pow2(k - 1)..], roots[Pow2(k - 1)..], k - 1, n)
    ensures GraftFits(h, trees, roots, k, n)
  {
    var half := Pow2(k - 1);
    var l, r := Graft(trees[..half], k - 1), Graft(trees[half..], k - 1);
    HalvesMeet(h, roots, k);
    ForkIs(h, l, r, k, n + k);
    assert Graft(trees, k) == Fork(l, r);
  }

  lemma GraftOne(h: Hash, trees: seq<Perfect>, roots: seq<Blob>, n: int)
    requires Grafts(h, trees, roots, n) && |trees| == 1
    ensures GraftFits(h, trees, roots, 0, n)
  {
    assert TipsAt(trees[0], 0, n);
  }

  lemma {:induction false} GraftIs(h: Hash, trees: seq<Perfect>, roots: seq<Blob>, k: nat, n: int)
    requires Grafts(h, trees, roots, n) && |trees| == Pow2(k)
    ensures GraftFits(h, trees, roots, k, n)
    decreases k
  {
    if k == 0 {
      GraftOne(h, trees, roots, n);
    } else {
      var half := Pow2(k - 1);
      GraftsInHalves(h, trees, roots, n, half);
      GraftIs(h, trees[..half], roots[..half], k - 1, n);
      GraftIs(h, trees[half..], roots[half..], k - 1, n);
      GraftStep(h, trees, roots, k, n);
    }
  }

  lemma ForkIs(h: Hash, l: Perfect, r: Perfect, a: int, b: int)
    requires IsHashed(h, l) && IsHashed(h, r) && TipsAt(l, a - 1, b - 1) && TipsAt(r, a - 1, b - 1)
    ensures IsHashed(h, Fork(l, r)) && TipsAt(Fork(l, r), a, b)
    ensures TreeRoot(h, Fork(l, r)) == NodeHash(h, TreeRoot(h, l), TreeRoot(h, r))
  {
  }

  lemma HalvesMeet(h: Hash, roots: seq<Blob>, k: nat)
    requires |roots| == Pow2(k) && k > 0
    ensures
      var half := Pow2(k - 1);
      TreeRoot(h, Halved(roots, k))
      == NodeHash(h, TreeRoot(h, Halved(roots[..half], k - 1)), TreeRoot(h, Halved(roots[half..], k - 1)))
  {
  }

  /** Below each position of the top tree: a sparse tree, or the padding. */
  ghost function StateTree(h: Hash, n: nat, trees: Trees, i: nat): Perfect {
    if i < |SUBTREES| then FullTree(h, n, TreeOf(trees, SUBTREES[i]), []) else Tip(Empty(h, 0))
  }

  ghost function StateTrees(h: Hash, n: nat, trees: Trees, count: nat): (s: seq<Perfect>)
    ensures |s| == count && forall i :: 0 <= i < count ==> s[i] == StateTree(h, n, trees, i)
  {
    if count == 0 then [] else StateTrees(h, n, trees, count - 1) + [StateTree(h, n, trees, count - 1)]
  }

  ghost predicate AllStoreContent(h: Hash, trees: Trees) {
    forall name :: name in trees ==> StoresContent(h, trees[name])
  }

  lemma StateTreeIs(h: Hash, n: nat, trees: Trees, i: nat)
    requires Ideal(h) && ValidTrees(n, trees) && AllStoreContent(h, trees) && i < 8
    ensures
      var t, roots := StateTree(h, n, trees, i), Padded(h, StateLeaves(h, n, RootsOf(h, n, trees)));
      |roots| == 8 && TreeRoot(h, t) == roots[i] && IsHashed(h, t) && TipsAt(t, 0, n)
  {
    FiveNeedThreeLevels();
    EmptyIsDigest(h, 0);
    LeafHashIsContent(h, []);
    if i < |SUBTREES| {
      var level := TreeOf(trees, SUBTREES[i]);
      CommittedLeaf(h, n, trees, i);
      PrunedIsFull(h, n, level, []);
      FullTreeIs(h, n, level, []);
      HeightIsTips(FullTree(h, n, level, []), n, 0);
    }
  }

  lemma StateTreesGraft(h: Hash, n: nat, trees: Trees)
    requires Ideal(h) && ValidTrees(n, trees) && AllStoreContent(h, trees)
    ensures Grafts(h, StateTrees(h, n, trees, 8), Padded(h, StateLeaves(h, n, RootsOf(h, n, trees))), n)
  {
    var all, roots := StateTrees(h, n, trees, 8), Padded(h, StateLeaves(h, n, RootsOf(h, n, trees)));
    FiveNeedThreeLevels();
    forall i | 0 <= i < |all| ensures TreeRoot(h, all[i]) == roots[i] && IsHashed(h, all[i]) && TipsAt(all[i], 0, n) {
      StateTreeIs(h, n, trees, i);
    }
  }

  /** The state root is the root of one tree of hashed leaves, with tips three and n + 3 levels down. */
  lemma StateIsOneTree(h: Hash, n: nat, trees: Trees) returns (t: Perfect)
    requires Ideal(h) && ValidTrees(n, trees) && AllStoreContent(h, trees)
    ensures TreeRoot(h, t) == FixedRoot(h, StateLeaves(h, n, RootsOf(h, n, trees)))
    ensures IsHashed(h, t) && TipsAt(t, 3, n + 3)
  {
    FiveNeedThreeLevels();
    StateTreesGraft(h, n, trees);
    GraftIs(h, StateTrees(h, n, trees, 8), Padded(h, StateLeaves(h, n, RootsOf(h, n, trees))), 3, n);
    t := Graft(StateTrees(h, n, trees, 8), 3);
  }

  // ---- Proofs accepted one above the other ----------------------------------------------------------------

  /** What the verifier of both proofs checks: the upper one at the sub-tree's index, the lower one at the bits of a
      key of any length. */
  predicate BothAccept(
    h: Hash, n: nat, root: Blob, i: nat, subRoot: Blob, path: seq<Blob>, key: Path, leaf: Option<Blob>, siblings: seq<Blob>)
  {
    FixedAccepts(h, root, subRoot, i, path) && Accepts(h, n, subRoot, Fit(key, n), leaf, siblings)
  }

  ghost function StateRootFor(h: Hash, n: nat, trees: Trees): Blob
    requires ValidTrees(n, trees)
  {
    FixedRoot(h, StateLeaves(h, n, RootsOf(h, n, trees)))
  }

  /** Under a hashed leaf, or null, the upper proof has three siblings. */
  lemma HashedLeafHasThreeSiblings(
    h: Hash, n: nat, trees: Trees, i: nat, subRoot: Blob, path: seq<Blob>,
    key: Path, leaf: Option<Blob>, siblings: seq<Blob>)
    requires Ideal(h) && ValidTrees(n, trees) && AllStoreContent(h, trees) && n > 3
    requires leaf.Some? ==> IsDigest(leaf.value) && IsContent(h, leaf.value)
    requires BothAccept(h, n, StateRootFor(h, n, trees), i, subRoot, path, key, leaf, siblings)
    ensures |path| == 3
  {
    var bottom := leaf.GetOr(Empty(h, 0));
    EmptyIsDigest(h, 0);
    LeafHashIsContent(h, []);
    var t := StateIsOneTree(h, n, trees);
    ClimbsMeetTips(h, n, t, subRoot, BitsOf(i, |path|), path, Fit(key, n), bottom, siblings);
  }

  /** Both climbs together end at a tip of the one tree, three or n + 3 levels down. */
  lemma ClimbsMeetTips(
    h: Hash, n: nat, t: Perfect, subRoot: Blob, bits: LowBits, path: seq<Blob>, key: Path, bottom: Blob, siblings: seq<Blob>)
    requires Ideal(h) && IsHashed(h, t) && TipsAt(t, 3, n + 3) && n > 3
    requires IsDigest(bottom) && IsContent(h, bottom) && |key| == n == |siblings| && |bits| == |path|
    requires ClimbUp(h, subRoot, bits, path) == TreeRoot(h, t) && Climb(h, n, key, bottom, siblings, 0) == subRoot
    ensures |path| == 3
  {
    ClimbIsDigest(h, n, key, bottom, siblings, 0);
    var u := PathReachesSubtree(h, t, 3, n + 3, subRoot, bits, path);
    KeyEndsAtTip(h, n, u, 3 - |path|, n + 3 - |path|, key, bottom, siblings, 0);
  }

  lemma HeldIsContent(h: Hash, n: nat, trees: Trees, name: string, path: Path)
    requires Ideal(h) && ValidTrees(n, trees) && AllStoreContent(h, trees)
    ensures IsContent(h, LeafOf(TreeOf(trees, name), path).GetOr(Empty(h, 0)))
  {
    LeafHashIsContent(h, []);
  }

  /** Two accepted proofs with a 32-symbol leaf, or null, prove exactly what the named sub-tree holds where the key's
      bits lead, if and only if the upper one has three siblings, if and only if the leaf is not the hash of two nodes. */
  lemma LayeredProofsAreHonest(
    h: Hash, n: nat, trees: Trees, i: nat, subRoot: Blob, path: seq<Blob>,
    key: Path, leaf: Option<Blob>, siblings: seq<Blob>)
    requires Ideal(h) && ValidTrees(n, trees) && AllStoreContent(h, trees) && i < |SUBTREES| && n > 3
    requires leaf.Some? ==> IsDigest(leaf.value)
    requires BothAccept(h, n, StateRootFor(h, n, trees), i, subRoot, path, key, leaf, siblings)
    ensures |path| == 3 <==> IsContent(h, leaf.GetOr(Empty(h, 0)))
    ensures |path| == 3 <==>
            leaf.GetOr(Empty(h, 0)) == LeafOf(TreeOf(trees, SUBTREES[i]), Fit(key, n)).GetOr(Empty(h, 0))
  {
    var tree := TreeOf(trees, SUBTREES[i]);
    LeafHashIsContent(h, []);
    HeldIsContent(h, n, trees, SUBTREES[i], Fit(key, n));
    if |path| == 3 {
      ThreeSiblingsAreHonest(h, n, trees, i, subRoot, path, Fit(key, n), leaf, siblings);
    }
    if IsContent(h, leaf.GetOr(Empty(h, 0))) {
      HashedLeafHasThreeSiblings(h, n, trees, i, subRoot, path, key, leaf, siblings);
    }
  }

  /** With no empty leaf stored, the accepted leaf is the one held under the key itself exactly when it is null, or not
      the hash of two nodes and for a key of the tree's depth. */
  lemma LayeredLeafIsHeldExactly(
    h: Hash, n: nat, trees: Trees, i: nat, subRoot: Blob, path: seq<Blob>,
    key: Path, leaf: Option<Blob>, siblings: seq<Blob>)
    requires Ideal(h) && ValidTrees(n, trees) && AllStoreContent(h, trees) && i < |SUBTREES| && n > 3
    requires leaf.Some? ==> IsDigest(leaf.value)
    requires Empty(h, 0) !in Contents(TreeOf(trees, SUBTREES[i])).Values && leaf != Some(Empty(h, 0))
    requires BothAccept(h, n, StateRootFor(h, n, trees), i, subRoot, path, key, leaf, siblings)
    ensures leaf == LeafOf(TreeOf(trees, SUBTREES[i]), key)
            <==> (leaf.Some? ==> IsContent(h, leaf.value) && |key| == n)
  {
    var tree := TreeOf(trees, SUBTREES[i]);
    LayeredProofsAreHonest(h, n, trees, i, subRoot, path, key, leaf, siblings);
    LeafHashIsContent(h, []);
    if key in Contents(tree) {
      StoredKeysFit(n, tree, key);
      assert Contents(tree)[key] in Contents(tree).Values;
    }
    if Fit(key, n) in Contents(tree) {
      assert Contents(tree)[Fit(key, n)] in Contents(tree).Values;
    }
  }

  // ---- A false leaf under two siblings ----------------------------------------------------------------------

  /** A lower proof shifted up by one level: its first sibling stands for the level above, its leaf is the node one
      level above the stored leaf. */
  lemma {:induction false} ShiftedClimb(
    h: Hash, n: nat, key: Path, q: Path, bottom: Blob, own: seq<Blob>, top: Blob, d: nat)
    requires |key| == n == |q| == |own| && d < n && q == key[1..] + [false]
    ensures
      var leaf, siblings := Climb(h, n, q, bottom, own, n - 1), [top] + own[..n - 1];
      Climb(h, n, key, leaf, siblings, d + 1) == Climb(h, n, q, bottom, own, d)
    decreases n - d
  {
    if d + 1 < n {
      ShiftedClimb(h, n, key, q, bottom, own, top, d + 1);
      assert q[d] == key[d + 1] && ([top] + own[..n - 1])[d + 1] == own[d];
    }
  }

  /** The node above the first two sub-roots, and the two siblings above it. */
  ghost function PairNode(h: Hash, n: nat, trees: Trees): Blob
    requires ValidTrees(n, trees)
  {
    NodeHash(h, Root(h, n, TreeOf(trees, SUBTREES[0])), Root(h, n, TreeOf(trees, SUBTREES[1])))
  }

  lemma PairIsAccepted(h: Hash, n: nat, trees: Trees) returns (path: seq<Blob>)
    requires ValidTrees(n, trees)
    ensures |path| == 2 && FixedAccepts(h, StateRootFor(h, n, trees), PairNode(h, n, trees), 0, path)
  {
    CommittedLeaf(h, n, trees, 0);
    CommittedLeaf(h, n, trees, 1);
    path := FirstPairClimbs(h, StateLeaves(h, n, RootsOf(h, n, trees)));
  }

  lemma FirstPairClimbs(h: Hash, leaves: seq<Blob>) returns (path: seq<Blob>)
    requires |leaves| == 5
    ensures |path| == 2 && FixedAccepts(h, FixedRoot(h, leaves), NodeHash(h, leaves[0], leaves[1]), 0, path)
  {
    var t := PaddedTree(h, leaves);
    FiveNeedThreeLevels();
    PairBelow(h, leaves);
    var a, b := TreeRoot(h, t.left.right), TreeRoot(h, t.right);
    path := [a, b];
    assert TreeRoot(h, t.left.left) == NodeHash(h, leaves[0], leaves[1]);
    assert TreeRoot(h, t.left) == NodeHash(h, TreeRoot(h, t.left.left), a);
    TwoSiblingClimb(h, NodeHash(h, leaves[0], leaves[1]), a, b);
  }

  lemma PairBelow(h: Hash, leaves: seq<Blob>)
    requires |leaves| == 5 && Levels(5) == 3 && Pow2(3) == 8
    ensures
      var t := PaddedTree(h, leaves);
      t.Fork? && t.left.Fork? && t.left.left == Fork(Tip(leaves[0]), Tip(leaves[1]))
  {
    var padded := Padded(h, leaves);
    assert Pow2(2) == 4 && Pow2(1) == 2 && Pow2(0) == 1;
    HalvedForks(padded, 3);
    HalvedForks(padded[..4], 2);
    assert PaddedTree(h, leaves).left == Halved(padded[..4], 2);
    assert padded[..4][..2] == [leaves[0], leaves[1]];
    HalvedPair(leaves[0], leaves[1]);
    assert PaddedTree(h, leaves).left.left == Halved([leaves[0], leaves[1]], 1);
  }

  lemma HalvedForks(layer: seq<Blob>, k: nat)
    requires |layer| == Pow2(k) && k > 0
    ensures Halved(layer, k).Fork? && Halved(layer, k).left == Halved(layer[..Pow2(k - 1)], k - 1)
  {
  }

  lemma HalvedPair(a: Blob, b: Blob)
    requires Pow2(0) == 1 && Pow2(1) == 2
    ensures Halved([a, b], 1) == Fork(Tip(a), Tip(b))
  {
    assert [a, b][..1] == [a] && [a, b][1..] == [b];
  }

  lemma TwoSiblingClimb(h: Hash, node: Blob, a: Blob, b: Blob)
    ensures ClimbUp(h, node, BitsOf(0, 2), [a, b]) == NodeHash(h, NodeHash(h, node, a), b)
  {
    assert Shift(0, 0) == 0 && Shift(0, 1) == 0;
    assert BitsOf(0, 0) == [] && BitsOf(0, 1) == [false] && BitsOf(0, 2) == [false, false];
    assert [a, b][..1] == [a] && [a][..0] == [];
    assert [false, false][..1] == [false] && [false][..0] == [];
    assert ClimbUp(h, node, [false], [a]) == NodeHash(h, node, a);
  }

  /** The key a shifted proof is read along: one bit less in front, any bit behind. */
  function ShiftedKey(key: Path): (q: Path)
    requires key != []
    ensures |q| == |key|
  {
    key[1..] + [false]
  }

  /** The shifted proof of a tree leads to the node above its root. */
  lemma ShiftedProofClimbs(h: Hash, n: nat, level: Leaves, key: Path, top: Blob) returns (leaf: Blob, siblings: seq<Blob>)
    requires Ideal(h) && KeysFit(n, level) && |key| == n > 0
    ensures IsDigest(leaf) && !IsContent(h, leaf) && |siblings| == n
    ensures Climb(h, n, key, leaf, siblings, 0) == Combine(h, key[0], Root(h, n, level), top)
  {
    var q := ShiftedKey(key);
    var own, bottom := Siblings(h, n, level, q, 0), LeafOf(level, q).GetOr(Empty(h, 0));
    leaf, siblings := Climb(h, n, q, bottom, own, n - 1), [top] + own[..n - 1];
    ProofsVerify(h, n, level, q);
    ShiftedClimb(h, n, key, q, bottom, own, top, 0);
    ClimbIsDigest(h, n, q, bottom, own, n - 1);
    ClimbIsNoContent(h, n, q, bottom, own);
  }

  lemma ClimbIsNoContent(h: Hash, n: nat, q: Path, bottom: Blob, own: seq<Blob>)
    requires |q| == n == |own| && n > 0
    ensures !IsContent(h, Climb(h, n, q, bottom, own, n - 1))
  {
    var l, r := if q[n - 1] then own[n - 1] else bottom, if q[n - 1] then bottom else own[n - 1];
    assert Climb(h, n, q, bottom, own, n - 1) == NodeHash(h, l, r);
  }

  /** For every state and key, a leaf the balances tree does not hold is accepted under two siblings: an inner node,
      which is no hashed row. */
  lemma InnerNodeIsAccepted(h: Hash, n: nat, trees: Trees, key: Path)
    returns (subRoot: Blob, path: seq<Blob>, leaf: Blob, siblings: seq<Blob>)
    requires Ideal(h) && ValidTrees(n, trees) && AllStoreContent(h, trees) && |key| == n > 0
    ensures |path| == 2 && IsDigest(leaf) && !IsContent(h, leaf)
    ensures BothAccept(h, n, StateRootFor(h, n, trees), 0, subRoot, path, key, Some(leaf), siblings)
    ensures Some(leaf) != LeafOf(TreeOf(trees, SUBTREES[0]), key)
  {
    var left, right := TreeOf(trees, SUBTREES[0]), TreeOf(trees, SUBTREES[1]);
    subRoot := PairNode(h, n, trees);
    path := PairIsAccepted(h, n, trees);
    leaf, siblings := ShiftedProofClimbs(
      h, n, if key[0] then right else left, key, Root(h, n, if key[0] then left else right));
    HeldIsContent(h, n, trees, SUBTREES[0], key);
  }
}
