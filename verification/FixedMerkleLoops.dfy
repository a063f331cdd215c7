/** The loops of the fixed Merkle tree, proved against the perfect-tree reference. */
module FixedMerkleLoops {
  import opened Options
  import opened Primitives
  import opened FixedMerkle

  // ---- One layer up -----------------------------------------------------------------------------

  function Parent(h: Hash, layer: seq<Blob>, i: nat): Blob
    requires 2 * i + 1 < |layer|
  {
    NodeHash(h, layer[2 * i], layer[2 * i + 1])
  }

  /** The first m parents of a layer. */
  function Parents(h: Hash, layer: seq<Blob>, m: nat): (r: seq<Blob>)
    requires 2 * m <= |layer|
    ensures |r| == m && forall i :: 0 <= i < m ==> r[i] == Parent(h, layer, i)
  {
    if m == 0 then [] else Parents(h, layer, m - 1) + [Parent(h, layer, m - 1)]
  }

  lemma ParentInFront(h: Hash, a: seq<Blob>, b: seq<Blob>, i: nat)
    requires 2 * i + 1 < |a|
    ensures Parent(h, a + b, i) == Parent(h, a, i)
  {
  }

  lemma ParentBehind(h: Hash, a: seq<Blob>, b: seq<Blob>, m: nat, i: nat)
    requires |a| == 2 * m && 2 * i + 1 < |b|
    ensures Parent(h, a + b, m + i) == Parent(h, b, i)
  {
  }

  lemma ParentsOfConcat(h: Hash, a: seq<Blob>, b: seq<Blob>, m: nat, j: nat)
    requires |a| == 2 * m && 2 * j <= |b|
    ensures Parents(h, a + b, m + j) == Parents(h, a, m) + Parents(h, b, j)
  {
    var all, parts := Parents(h, a + b, m + j), Parents(h, a, m) + Parents(h, b, j);
    forall i | 0 <= i < m + j ensures all[i] == parts[i] {
      if i < m {
        ParentInFront(h, a, b, i);
      } else {
        ParentBehind(h, a, b, m, i - m);
      }
    }
  }

  /** A tree with its lowest pairs hashed together. */
  function Merge(h: Hash, t: Perfect): Perfect {
    match t
    case Tip(_) => t
    case Fork(l, r) =>
      if l.Tip? && r.Tip? then Tip(NodeHash(h, l.node, r.node)) else Fork(Merge(h, l), Merge(h, r))
  }

  lemma {:induction false} MergeKeepsRoot(h: Hash, t: Perfect, k: nat)
    requires Height(t, k + 1)
    ensures Height(Merge(h, t), k) && TreeRoot(h, Merge(h, t)) == TreeRoot(h, t)
  {
    if k > 0 {
      MergeKeepsRoot(h, t.left, k - 1);
      MergeKeepsRoot(h, t.right, k - 1);
    }
  }

  lemma {:induction false} MergeIsNextLayer(h: Hash, t: Perfect, k: nat, m: nat)
    requires Height(t, k + 1) && m == Pow2(k)
    ensures |Fringe(t)| == 2 * m
    ensures Fringe(Merge(h, t)) == Parents(h, Fringe(t), m)
  {
    if k == 0 {
      MergedPair(h, t);
    } else {
      var half := Pow2(k - 1);
      MergeIsNextLayer(h, t.left, k - 1, half);
      MergeIsNextLayer(h, t.right, k - 1, half);
      ParentsOfConcat(h, Fringe(t.left), Fringe(t.right), half, half);
      MergedFork(h, t);
    }
  }

  lemma MergedFork(h: Hash, t: Perfect)
    requires t.Fork? && (t.left.Fork? || t.right.Fork?)
    ensures Fringe(Merge(h, t)) == Fringe(Merge(h, t.left)) + Fringe(Merge(h, t.right))
  {
  }

  lemma MergedPair(h: Hash, t: Perfect)
    requires Height(t, 1)
    ensures |Fringe(t)| == 2 && Fringe(Merge(h, t)) == Parents(h, Fringe(t), 1)
  {
    assert Fringe(t) == [t.left.node, t.right.node] && Parents(h, Fringe(t), 0) == [];
  }

  /** The neighbour of a position: `idx ^ 1`. */
  function Beside(index: nat): nat {
    if index % 2 == 0 then index + 1 else index - 1
  }

  lemma {:induction false} PositionHalves(bits: LowBits)
    requires |bits| > 0
    ensures Position(bits[1..]) == Position(bits) / 2 && Position(bits) % 2 == (if bits[0] then 1 else 0)
  {
    var m := |bits| - 1;
    if m > 0 {
      PositionHalves(bits[..m]);
      assert bits[1..][..m - 1] == bits[..m][1..];
    }
  }

  /** The leaf beside the one the bits lead to. */
  function Neighbour(t: Perfect, bits: LowBits): Blob
    requires |bits| > 0 && Height(t, |bits|)
  {
    LeafAt(t, [!bits[0]] + bits[1..])
  }

  lemma NeighbourOnSide(t: Perfect, bits: LowBits)
    requires |bits| > 1 && Height(t, |bits|)
    ensures
      var m := |bits| - 1;
      Neighbour(t, bits) == Neighbour(if bits[m] then t.right else t.left, bits[..m])
  {
    var m := |bits| - 1;
    assert ([!bits[0]] + bits[1..])[..m] == [!bits[..m][0]] + bits[..m][1..];
  }

  lemma NeighbourIsBeside(t: Perfect, bits: LowBits)
    requires |bits| > 0 && Height(t, |bits|)
    ensures Beside(Position(bits)) < |Fringe(t)| && Fringe(t)[Beside(Position(bits))] == Neighbour(t, bits)
  {
    var flipped := [!bits[0]] + bits[1..];
    PositionHalves(bits);
    PositionHalves(flipped);
    assert flipped[1..] == bits[1..];
    LeafIsAtPosition(t, flipped);
  }

  /** The lowest sibling is the neighbouring leaf; the rest is the merged tree's path. */
  lemma {:induction false} PathStartsBeside(h: Hash, t: Perfect, bits: LowBits)
    requires |bits| > 0 && Height(t, |bits|)
    ensures Height(Merge(h, t), |bits| - 1)
    ensures PathOf(h, t, bits) == [Neighbour(t, bits)] + PathOf(h, Merge(h, t), bits[1..])
  {
    var m := |bits| - 1;
    MergeKeepsRoot(h, t, m);
    if m == 0 {
      PathOfPair(h, t, bits);
    } else {
      var side, other := if bits[m] then t.right else t.left, if bits[m] then t.left else t.right;
      PathStartsBeside(h, side, bits[..m]);
      NeighbourOnSide(t, bits);
      MergedPathEnds(h, t, bits);
      assert PathOf(h, t, bits) == PathOf(h, side, bits[..m]) + [TreeRoot(h, other)];
    }
  }

  lemma PathOfPair(h: Hash, t: Perfect, bits: LowBits)
    requires |bits| == 1 && Height(t, 1)
    ensures Height(Merge(h, t), 0) && PathOf(h, t, bits) == [Neighbour(t, bits)] + PathOf(h, Merge(h, t), bits[1..])
  {
    var other := if bits[0] then t.left else t.right;
    assert bits[1..] == [] && PathOf(h, t, bits) == [TreeRoot(h, other)];
    assert other.Tip? && PathOf(h, Merge(h, t), []) == [];
    assert [!bits[0]] + bits[1..] == [!bits[0]];
    assert LeafAt(t, [!bits[0]]) == other.node;
  }

  /** The path in the merged tree ends with the same sibling as in the tree itself. */
  lemma MergedPathEnds(h: Hash, t: Perfect, bits: LowBits)
    requires |bits| > 1 && Height(t, |bits|)
    ensures
      var m := |bits| - 1;
      var side, other := if bits[m] then t.right else t.left, if bits[m] then t.left else t.right;
      && Height(Merge(h, t), m) && Height(Merge(h, side), m - 1)
      && PathOf(h, Merge(h, t), bits[1..]) == PathOf(h, Merge(h, side), bits[..m][1..]) + [TreeRoot(h, other)]
  {
    var m := |bits| - 1;
    MergeKeepsRoot(h, t, m);
    MergeKeepsRoot(h, t.left, m - 1);
    MergeKeepsRoot(h, t.right, m - 1);
    assert bits[1..][..m - 1] == bits[..m][1..] && bits[1..][m - 1] == bits[m];
  }

  // ---- The loops --------------------------------------------------------------------------------

  lemma {:induction false} Pow2Monotonic(i: nat, j: nat)
    requires i <= j
    ensures Pow2(i) <= Pow2(j)
    decreases j
  {
    if i < j { Pow2Monotonic(i, j - 1); }
  }

  method NextPow2(count: nat) returns (p: nat)
    requires count <= MAX_LEAVES
    ensures p == Pow2(Levels(count))
  {
    p := 1;
    ghost var k := 0;
    LevelsFit(count);
    while p < count
      invariant p == Pow2(k) && k <= Levels(count)
      decreases Levels(count) - k
    {
      p := 2 * p;
      k := k + 1;
    }
    if k < Levels(count) { Pow2Monotonic(k, Levels(count) - 1); }
  }

  method PadLayer(h: Hash, leaves: seq<Blob>) returns (layer: seq<Blob>)
    requires |leaves| <= MAX_LEAVES
    ensures layer == Padded(h, leaves)
  {
    layer := leaves;
    var width := NextPow2(|leaves|);
    LevelsFit(|leaves|);
    while |layer| < width
      invariant |leaves| <= |layer| <= width && layer == leaves + Copies(Empty(h, 0), |layer| - |leaves|)
    {
      layer := layer + [Empty(h, 0)];
    }
  }

  method HashPairs(h: Hash, layer: seq<Blob>) returns (next: seq<Blob>)
    requires |layer| % 2 == 0
    ensures next == Parents(h, layer, |layer| / 2)
  {
    next := [];
    var i := 0;
    while i < |layer|
      invariant i == 2 * |next| <= |layer| && next == Parents(h, layer, |next|)
    {
      next := next + [NodeHash(h, layer[i], layer[i + 1])];
      i := i + 2;
    }
  }

  /** The layer is the fringe of a tree with the wanted root. */
  ghost predicate LayerOf(h: Hash, layer: seq<Blob>, k: nat, t: Perfect, root: Blob) {
    |layer| == Pow2(k) && Height(t, k) && Fringe(t) == layer && TreeRoot(h, t) == root
  }

  lemma NextLayer(h: Hash, layer: seq<Blob>, k: nat, t: Perfect, root: Blob)
    requires LayerOf(h, layer, k, t, root) && |layer| > 1
    ensures k > 0 && |layer| % 2 == 0
    ensures LayerOf(h, Parents(h, layer, |layer| / 2), k - 1, Merge(h, t), root)
  {
    var half := Pow2(k - 1);
    MergeKeepsRoot(h, t, k - 1);
    MergeIsNextLayer(h, t, k - 1, half);
    assert |layer| == 2 * half && |layer| / 2 == half;
  }

  lemma TopLayer(h: Hash, layer: seq<Blob>, k: nat, t: Perfect, root: Blob)
    requires LayerOf(h, layer, k, t, root) && |layer| <= 1
    ensures layer == [root]
  {
  }

  /** The bottom-up loop computes the recursive halving root. */
  method FixedMerkleRoot(h: Hash, leaves: seq<Blob>) returns (root: Blob)
    requires |leaves| <= MAX_LEAVES
    ensures root == FixedRoot(h, leaves)
  {
    if |leaves| == 0 {
      assert Padded(h, leaves) == [Empty(h, 0)];
      return Empty(h, 0);
    }
    var layer := PadLayer(h, leaves);
    ghost var k, t := Levels(|leaves|), PaddedTree(h, leaves);
    while |layer| > 1
      invariant LayerOf(h, layer, k, t, FixedRoot(h, leaves))
      decreases k
    {
      NextLayer(h, layer, k, t, FixedRoot(h, leaves));
      layer := HashPairs(h, layer);
      k, t := k - 1, Merge(h, t);
    }
    TopLayer(h, layer, k, t, FixedRoot(h, leaves));
    return layer[0];
  }

  lemma ProofStep(h: Hash, t: Perfect, bits: LowBits, below: seq<Blob>)
    requires |bits| > 0 && Height(t, |bits|)
    ensures Height(Merge(h, t), |bits| - 1)
    ensures |Fringe(t)| == 2 * Pow2(|bits| - 1) && Fringe(Merge(h, t)) == Parents(h, Fringe(t), Pow2(|bits| - 1))
    ensures Beside(Position(bits)) < |Fringe(t)| && Position(bits[1..]) == Position(bits) / 2
    ensures below + PathOf(h, t, bits) ==
            (below + [Fringe(t)[Beside(Position(bits))]]) + PathOf(h, Merge(h, t), bits[1..])
  {
    PathStartsBeside(h, t, bits);
    NeighbourIsBeside(t, bits);
    PositionHalves(bits);
    MergeIsNextLayer(h, t, |bits| - 1, Pow2(|bits| - 1));
  }

  /** The layer is that of a tree, the index leads to its position, and the rest of the path lies above. */
  ghost predicate OnPath(
    h: Hash, layer: seq<Blob>, idx: nat, k: nat, t: Perfect, bits: LowBits, siblings: seq<Blob>, path: seq<Blob>)
  {
    && |layer| == Pow2(k) && Height(t, k) && Fringe(t) == layer
    && |bits| == k && idx == Position(bits) && siblings + PathOf(h, t, bits) == path
  }

  lemma NextOnPath(
    h: Hash, layer: seq<Blob>, idx: nat, k: nat, t: Perfect, bits: LowBits, siblings: seq<Blob>, path: seq<Blob>)
    requires OnPath(h, layer, idx, k, t, bits, siblings, path) && |layer| > 1
    ensures k > 0 && |layer| % 2 == 0 && Beside(idx) < |layer|
    ensures OnPath(h, Parents(h, layer, |layer| / 2), idx / 2, k - 1, Merge(h, t), bits[1..],
                   siblings + [layer[Beside(idx)]], path)
  {
    ProofStep(h, t, bits, siblings);
    MergeIsNextLayer(h, t, k - 1, Pow2(k - 1));
  }

  method FixedMerkleProof(h: Hash, leaves: seq<Blob>, index: int) returns (r: Result<seq<Blob>>)
    requires |leaves| <= MAX_LEAVES
    ensures r.Ok? <==> 0 <= index < |leaves|
    ensures r.Ok? ==> r.value == PathOf(h, PaddedTree(h, leaves), BitsOf(index, Levels(|leaves|)))
  {
    if index < 0 || index >= |leaves| { return Refused; }
    var layer := PadLayer(h, leaves);
    var siblings: seq<Blob>, idx: nat := [], index;
    ghost var k, t := Levels(|leaves|), PaddedTree(h, leaves);
    ghost var bits := BitsOf(index, k);
    ghost var path := PathOf(h, t, bits);
    LevelsFit(|leaves|);
    PositionIsModulo(index, k);
    DivisionIsUnique(index, Pow2(k), 0, index);
    while |layer| > 1
      invariant OnPath(h, layer, idx, k, t, bits, siblings, path)
      decreases k
    {
      NextOnPath(h, layer, idx, k, t, bits, siblings, path);
      k := k - 1;
      siblings := siblings + [layer[Beside(idx)]];
      layer := HashPairs(h, layer);
      t, bits := Merge(h, t), bits[1..];
      idx := idx / 2;
    }
    return Ok(siblings);
  }

  method VerifyFixedMerkleProof(h: Hash, root: Blob, leaf: Blob, index: int, siblings: seq<Blob>) returns (ok: bool)
    ensures ok <==> FixedAccepts(h, root, leaf, index, siblings)
  {
    var node, idx := leaf, index;
    for i := 0 to |siblings|
      invariant idx == Shift(index, i) && node == ClimbUp(h, leaf, BitsOf(index, i), siblings[..i])
    {
      ClimbExtends(h, leaf, index, siblings, i);
      node := if idx % 2 == 0 then NodeHash(h, node, siblings[i]) else NodeHash(h, siblings[i], node);
      idx := idx / 2;
    }
    assert siblings[..|siblings|] == siblings;
    return node == root;
  }

  lemma ClimbExtends(h: Hash, leaf: Blob, index: int, siblings: seq<Blob>, i: nat)
    requires i < |siblings|
    ensures ClimbUp(h, leaf, BitsOf(index, i + 1), siblings[..i + 1]) ==
            Combine(h, Shift(index, i) % 2 == 1, ClimbUp(h, leaf, BitsOf(index, i), siblings[..i]), siblings[i])
  {
    assert BitsOf(index, i + 1)[..i] == BitsOf(index, i);
    assert siblings[..i + 1][..i] == siblings[..i];
  }
}
