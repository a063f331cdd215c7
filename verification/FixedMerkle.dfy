/** The fixed binary Merkle tree: a vector padded to a power of two and hashed bottom-up. */
module FixedMerkle {
  import opened Primitives

  // Beyond 2^30 leaves the source's 32-bit shift `p <<= 1` no longer reaches the vector's length.
  const MAX_LEAVES := 0x4000_0000

  // ---- Perfect trees, the reference -------------------------------------------------------------

  datatype Perfect = Tip(node: Blob) | Fork(left: Perfect, right: Perfect)

  ghost predicate Height(t: Perfect, k: nat) {
    match t
    case Tip(_) => k == 0
    case Fork(l, r) => k > 0 && Height(l, k - 1) && Height(r, k - 1)
  }

  function Fringe(t: Perfect): seq<Blob> {
    match t
    case Tip(x) => [x]
    case Fork(l, r) => Fringe(l) + Fringe(r)
  }

  function TreeRoot(h: Hash, t: Perfect): Blob {
    match t
    case Tip(x) => x
    case Fork(l, r) => NodeHash(h, TreeRoot(h, l), TreeRoot(h, r))
  }

  /** A layer of 2^k nodes as a tree, by recursive halving. */
  function Halved(layer: seq<Blob>, k: nat): (t: Perfect)
    requires |layer| == Pow2(k)
    ensures Height(t, k) && Fringe(t) == layer
    decreases k
  {
    if k == 0 then Tip(layer[0])
    else
      var half := Pow2(k - 1);
      assert layer == layer[..half] + layer[half..];
      Fork(Halved(layer[..half], k - 1), Halved(layer[half..], k - 1))
  }

  /** log2 of the padded width. */
  function Levels(count: nat): nat {
    if count <= 1 then 0 else 1 + Levels((count + 1) / 2)
  }

  /** The padded width is the least power of two that holds the vector. */
  lemma {:induction false} LevelsFit(count: nat)
    ensures count <= Pow2(Levels(count))
    ensures Levels(count) > 0 ==> Pow2(Levels(count) - 1) < count
  {
    if count > 1 {
      LevelsFit((count + 1) / 2);
    }
  }

  function Copies(x: Blob, count: nat): (r: seq<Blob>)
    ensures |r| == count && forall i :: 0 <= i < count ==> r[i] == x
  {
    if count == 0 then [] else Copies(x, count - 1) + [x]
  }

  function Padded(h: Hash, leaves: seq<Blob>): (r: seq<Blob>)
    ensures |r| == Pow2(Levels(|leaves|))
  {
    LevelsFit(|leaves|);
    leaves + Copies(Empty(h, 0), Pow2(Levels(|leaves|)) - |leaves|)
  }

  /** The tree of a padded vector. */
  function PaddedTree(h: Hash, leaves: seq<Blob>): Perfect {
    Halved(Padded(h, leaves), Levels(|leaves|))
  }

  function FixedRoot(h: Hash, leaves: seq<Blob>): Blob {
    TreeRoot(h, PaddedTree(h, leaves))
  }

  // ---- Paths: the low bits of an index, lowest first ---------------------------------------------

  type LowBits = seq<bool>

  function Shift(index: int, k: nat): int {
    if k == 0 then index else Shift(index, k - 1) / 2
  }

  function BitsOf(index: int, k: nat): (bits: LowBits)
    ensures |bits| == k
  {
    if k == 0 then [] else BitsOf(index, k - 1) + [Shift(index, k - 1) % 2 == 1]
  }

  /** The position bits lead to. */
  function Position(bits: LowBits): nat {
    if |bits| == 0 then 0
    else Position(bits[..|bits| - 1]) + if bits[|bits| - 1] then Pow2(|bits| - 1) else 0
  }

  function LeafAt(t: Perfect, bits: LowBits): Blob
    requires Height(t, |bits|)
  {
    match t
    case Tip(x) => x
    case Fork(l, r) => LeafAt(if bits[|bits| - 1] then r else l, bits[..|bits| - 1])
  }

  /** The siblings on the way from a leaf to the root, bottom-up. */
  function PathOf(h: Hash, t: Perfect, bits: LowBits): (s: seq<Blob>)
    requires Height(t, |bits|)
    ensures |s| == |bits|
  {
    match t
    case Tip(_) => []
    case Fork(l, r) =>
      var top, below := bits[|bits| - 1], bits[..|bits| - 1];
      PathOf(h, if top then r else l, below) + [TreeRoot(h, if top then l else r)]
  }

  /** The node a verifier reaches from `leaf`. */
  function ClimbUp(h: Hash, leaf: Blob, bits: LowBits, siblings: seq<Blob>): Blob
    requires |bits| == |siblings|
  {
    if |bits| == 0 then leaf
    else
      var m := |bits| - 1;
      Combine(h, bits[m], ClimbUp(h, leaf, bits[..m], siblings[..m]), siblings[m])
  }

  predicate FixedAccepts(h: Hash, root: Blob, leaf: Blob, index: int, siblings: seq<Blob>) {
    ClimbUp(h, leaf, BitsOf(index, |siblings|), siblings) == root
  }

  // ---- Completeness and soundness on trees -------------------------------------------------------

  lemma {:induction false} PathsClimb(h: Hash, t: Perfect, bits: LowBits)
    requires Height(t, |bits|)
    ensures ClimbUp(h, LeafAt(t, bits), bits, PathOf(h, t, bits)) == TreeRoot(h, t)
  {
    if t.Fork? {
      var m := |bits| - 1;
      var side := if bits[m] then t.right else t.left;
      PathsClimb(h, side, bits[..m]);
      assert PathOf(h, t, bits)[..m] == PathOf(h, side, bits[..m]);
    }
  }

  ghost predicate AllDigests(t: Perfect) {
    match t
    case Tip(x) => IsDigest(x)
    case Fork(l, r) => AllDigests(l) && AllDigests(r)
  }

  lemma TreeRootIsDigest(h: Hash, t: Perfect)
    requires Ideal(h) && AllDigests(t)
    ensures IsDigest(TreeRoot(h, t))
  {
  }

  lemma ClimbUpIsDigest(h: Hash, leaf: Blob, bits: LowBits, siblings: seq<Blob>)
    requires Ideal(h) && |bits| == |siblings| && (|bits| == 0 ==> IsDigest(leaf))
    ensures IsDigest(ClimbUp(h, leaf, bits, siblings))
  {
  }

  /** Reaching a tree's root forces the topmost sibling and the node beside it. */
  lemma TopIsForced(h: Hash, t: Perfect, leaf: Blob, bits: LowBits, siblings: seq<Blob>)
    requires Ideal(h) && t.Fork? && AllDigests(t) && |bits| == |siblings| > 0
    requires |bits| == 1 ==> IsDigest(leaf)
    requires ClimbUp(h, leaf, bits, siblings) == TreeRoot(h, t)
    ensures
      var m := |bits| - 1;
      && ClimbUp(h, leaf, bits[..m], siblings[..m]) == TreeRoot(h, if bits[m] then t.right else t.left)
      && siblings[m] == TreeRoot(h, if bits[m] then t.left else t.right)
  {
    var m := |bits| - 1;
    var same, other := if bits[m] then t.right else t.left, if bits[m] then t.left else t.right;
    ClimbUpIsDigest(h, leaf, bits[..m], siblings[..m]);
    TreeRootIsDigest(h, same);
    CombineInjective(h, bits[m], ClimbUp(h, leaf, bits[..m], siblings[..m]), siblings[m],
                     TreeRoot(h, same), TreeRoot(h, other));
  }

  /** A proof of full length for a 32-symbol leaf: the leaf is the one the bits lead to, and the
      siblings are the tree's own. */
  lemma {:induction false} ClimbForcesPath(h: Hash, t: Perfect, leaf: Blob, bits: LowBits, siblings: seq<Blob>)
    requires Ideal(h) && AllDigests(t) && IsDigest(leaf) && Height(t, |bits|) && |bits| == |siblings|
    requires ClimbUp(h, leaf, bits, siblings) == TreeRoot(h, t)
    ensures leaf == LeafAt(t, bits) && siblings == PathOf(h, t, bits)
  {
    if t.Fork? {
      var m := |bits| - 1;
      TopIsForced(h, t, leaf, bits, siblings);
      ClimbForcesPath(h, if bits[m] then t.right else t.left, leaf, bits[..m], siblings[..m]);
      assert siblings == siblings[..m] + [siblings[m]];
    }
  }

  /** For a leaf of any length only the deepest pair is left open, as a concatenation. */
  lemma {:induction false} ClimbForcesBottom(h: Hash, t: Perfect, leaf: Blob, bits: LowBits, siblings: seq<Blob>)
    requires Ideal(h) && AllDigests(t) && Height(t, |bits|) && |bits| == |siblings| > 0
    ensures ClimbUp(h, leaf, bits, siblings) == TreeRoot(h, t) <==>
            siblings[1..] == PathOf(h, t, bits)[1..]
            && Bottom(bits[0], leaf, siblings[0]) == Bottom(bits[0], LeafAt(t, bits), PathOf(h, t, bits)[0])
  {
    var m := |bits| - 1;
    var same, other := if bits[m] then t.right else t.left, if bits[m] then t.left else t.right;
    var own := PathOf(h, same, bits[..m]);
    assert PathOf(h, t, bits) == own + [TreeRoot(h, other)];
    if m == 0 {
      CombineFixesBottom(h, bits[0], leaf, siblings[0], TreeRoot(h, same), TreeRoot(h, other));
    } else {
      ClimbForcesBottom(h, same, leaf, bits[..m], siblings[..m]);
      assert (own + [TreeRoot(h, other)])[1..] == own[1..] + [TreeRoot(h, other)];
      assert siblings[1..] == siblings[..m][1..] + [siblings[m]];
      if ClimbUp(h, leaf, bits, siblings) == TreeRoot(h, t) {
        TopIsForced(h, t, leaf, bits, siblings);
      }
    }
  }

  // ---- Content trees: the domain tags fix the proof's length -------------------------------------

  /** Never the hash of two nodes: true of hashed rows and of the padding. */
  ghost predicate IsContent(h: Hash, x: Blob) {
    forall l, r :: NodeHash(h, l, r) != x
  }

  lemma LeafHashIsContent(h: Hash, content: Blob)
    requires Ideal(h)
    ensures IsContent(h, LeafHash(h, content)) && IsContent(h, Empty(h, 0)) && IsDigest(LeafHash(h, content))
  {
    forall l, r ensures NodeHash(h, l, r) != LeafHash(h, content) && NodeHash(h, l, r) != Empty(h, 0) {
      DomainsAreSeparate(h, content, l, r);
    }
  }

  ghost predicate AllContent(h: Hash, t: Perfect) {
    match t
    case Tip(x) => IsContent(h, x)
    case Fork(l, r) => AllContent(h, l) && AllContent(h, r)
  }

  /** A content leaf can only be proved by as many siblings as the tree has levels: fewer would end
      on an inner node, more would put a leaf where an inner node is. */
  lemma {:induction false} ContentFixesLength(h: Hash, t: Perfect, k: nat, leaf: Blob, bits: LowBits, siblings: seq<Blob>)
    requires Ideal(h) && AllDigests(t) && AllContent(h, t) && Height(t, k)
    requires IsDigest(leaf) && IsContent(h, leaf) && |bits| == |siblings|
    requires ClimbUp(h, leaf, bits, siblings) == TreeRoot(h, t)
    ensures |siblings| == k
  {
    if t.Fork? && |bits| > 0 {
      var m := |bits| - 1;
      TopIsForced(h, t, leaf, bits, siblings);
      ContentFixesLength(h, if bits[m] then t.right else t.left, k - 1, leaf, bits[..m], siblings[..m]);
    }
  }

  // ---- Positions --------------------------------------------------------------------------------

  lemma {:induction false} FringeLength(t: Perfect, k: nat)
    requires Height(t, k)
    ensures |Fringe(t)| == Pow2(k)
  {
    if t.Fork? {
      FringeLength(t.left, k - 1);
      FringeLength(t.right, k - 1);
    }
  }

  /** Bits lead to the leaf at their position. */
  lemma {:induction false} LeafIsAtPosition(t: Perfect, bits: LowBits)
    requires Height(t, |bits|)
    ensures Position(bits) < |Fringe(t)| && Fringe(t)[Position(bits)] == LeafAt(t, bits)
  {
    if t.Fork? {
      var m := |bits| - 1;
      FringeLength(t.left, m);
      LeafIsAtPosition(if bits[m] then t.right else t.left, bits[..m]);
    }
  }

  /** The position of an index's low k bits is the index modulo 2^k. */
  lemma {:induction false} PositionIsModulo(index: int, k: nat)
    ensures Position(BitsOf(index, k)) == index % Pow2(k)
    ensures Shift(index, k) == index / Pow2(k)
  {
    if k > 0 {
      PositionIsModulo(index, k - 1);
      assert BitsOf(index, k)[..k - 1] == BitsOf(index, k - 1);
      SplitModulo(index, Pow2(k - 1));
    }
  }

  lemma SplitModulo(index: int, m: nat)
    requires m > 0
    ensures (index / m) / 2 == index / (2 * m)
    ensures index % m + (if (index / m) % 2 == 1 then m else 0) == index % (2 * m)
  {
    var q, r := index / m, index % m;
    var q2, b := q / 2, q % 2;
    assert index == m * q + r == m * (2 * q2 + b) + r;
    assert m * (2 * q2 + b) == (2 * m) * q2 + m * b;
    DivisionIsUnique(index, 2 * m, q2, m * b + r);
  }

  lemma DivisionIsUnique(a: int, m: int, q: int, r: int)
    requires 0 <= r < m && a == m * q + r
    ensures a / m == q && a % m == r
  {
    var q', r' := a / m, a % m;
    assert m * (q - q') == r' - r;
    MultipleIsFar(m, q - q');
  }

  lemma MultipleIsFar(m: int, d: int)
    requires m > 0
    ensures d == 0 || m * d >= m || m * d <= -m
  {
    if d > 0 {
      assert m * d >= m * 1;
    } else if d < 0 {
      assert m * d <= m * -1;
    }
  }

  // ---- Theorems about the padded vector -----------------------------------------------------------

  lemma {:induction false} FringeDigests(t: Perfect, k: nat)
    requires Height(t, k) && forall i :: 0 <= i < |Fringe(t)| ==> IsDigest(Fringe(t)[i])
    ensures AllDigests(t)
  {
    if t.Tip? {
      assert IsDigest(Fringe(t)[0]);
    } else {
      forall i | 0 <= i < |Fringe(t.left)| ensures IsDigest(Fringe(t.left)[i]) {
        assert Fringe(t)[i] == Fringe(t.left)[i];
      }
      forall i | 0 <= i < |Fringe(t.right)| ensures IsDigest(Fringe(t.right)[i]) {
        assert Fringe(t)[|Fringe(t.left)| + i] == Fringe(t.right)[i];
      }
      FringeDigests(t.left, k - 1);
      FringeDigests(t.right, k - 1);
    }
  }

  lemma PaddedDigests(h: Hash, leaves: seq<Blob>)
    requires Ideal(h) && forall i :: 0 <= i < |leaves| ==> IsDigest(leaves[i])
    ensures AllDigests(PaddedTree(h, leaves))
  {
    EmptyIsDigest(h, 0);
    FringeDigests(PaddedTree(h, leaves), Levels(|leaves|));
  }

  /** An index modulo the padded width. */
  function Slot(count: nat, index: int): (at: nat)
    ensures at < Pow2(Levels(count))
  {
    index % Pow2(Levels(count))
  }

  lemma EntryIsLeaf(h: Hash, leaves: seq<Blob>, index: int)
    ensures LeafAt(PaddedTree(h, leaves), BitsOf(index, Levels(|leaves|))) == Padded(h, leaves)[Slot(|leaves|, index)]
  {
    LeafIsAtPosition(PaddedTree(h, leaves), BitsOf(index, Levels(|leaves|)));
    PositionIsModulo(index, Levels(|leaves|));
  }

  /** Every in-range proof verifies. */
  lemma FixedProofsVerify(h: Hash, leaves: seq<Blob>, index: nat)
    requires index < |leaves|
    ensures FixedAccepts(h, FixedRoot(h, leaves), leaves[index], index,
                         PathOf(h, PaddedTree(h, leaves), BitsOf(index, Levels(|leaves|))))
  {
    var k := Levels(|leaves|);
    PathsClimb(h, PaddedTree(h, leaves), BitsOf(index, k));
    EntryIsLeaf(h, leaves, index);
    LevelsFit(|leaves|);
    DivisionIsUnique(index, Pow2(k), 0, index);
  }

  /** A 32-symbol leaf accepted with log2(width) siblings is the padded vector's entry at the index
      modulo the width, and the proof is the vector's own. */
  lemma AcceptedFixedProofsAreHonest(h: Hash, leaves: seq<Blob>, leaf: Blob, index: int, siblings: seq<Blob>)
    requires Ideal(h) && (forall i :: 0 <= i < |leaves| ==> IsDigest(leaves[i])) && IsDigest(leaf)
    requires |siblings| == Levels(|leaves|) && FixedAccepts(h, FixedRoot(h, leaves), leaf, index, siblings)
    ensures leaf == Padded(h, leaves)[Slot(|leaves|, index)]
    ensures siblings == PathOf(h, PaddedTree(h, leaves), BitsOf(index, Levels(|leaves|)))
  {
    PaddedDigests(h, leaves);
    ClimbForcesPath(h, PaddedTree(h, leaves), leaf, BitsOf(index, Levels(|leaves|)), siblings);
    EntryIsLeaf(h, leaves, index);
  }

  /** For a leaf of any length, acceptance with log2(width) siblings leaves only the deepest pair open: it must read
      as the same text as the entry at the index modulo the width with its neighbour. */
  lemma AcceptedFixedExactly(h: Hash, leaves: seq<Blob>, leaf: Blob, index: int, siblings: seq<Blob>)
    requires Ideal(h) && (forall i :: 0 <= i < |leaves| ==> IsDigest(leaves[i]))
    requires |siblings| == Levels(|leaves|) > 0
    ensures
      var bits := BitsOf(index, Levels(|leaves|));
      var own := PathOf(h, PaddedTree(h, leaves), bits);
      FixedAccepts(h, FixedRoot(h, leaves), leaf, index, siblings) <==>
        siblings[1..] == own[1..]
        && Bottom(bits[0], leaf, siblings[0]) == Bottom(bits[0], Padded(h, leaves)[Slot(|leaves|, index)], own[0])
  {
    PaddedDigests(h, leaves);
    ClimbForcesBottom(h, PaddedTree(h, leaves), leaf, BitsOf(index, Levels(|leaves|)), siblings);
    EntryIsLeaf(h, leaves, index);
  }

  lemma {:induction false} FringeContent(h: Hash, t: Perfect, k: nat)
    requires Height(t, k) && forall i :: 0 <= i < |Fringe(t)| ==> IsContent(h, Fringe(t)[i])
    ensures AllContent(h, t)
  {
    if t.Tip? {
      assert IsContent(h, Fringe(t)[0]);
    } else {
      forall i | 0 <= i < |Fringe(t.left)| ensures IsContent(h, Fringe(t.left)[i]) {
        assert Fringe(t)[i] == Fringe(t.left)[i];
      }
      forall i | 0 <= i < |Fringe(t.right)| ensures IsContent(h, Fringe(t.right)[i]) {
        assert Fringe(t)[|Fringe(t.left)| + i] == Fringe(t.right)[i];
      }
      FringeContent(h, t.left, k - 1);
      FringeContent(h, t.right, k - 1);
    }
  }

  /** A vector of hashed rows, as the block-content tree takes it. */
  ghost predicate ContentLeaves(h: Hash, leaves: seq<Blob>) {
    forall i :: 0 <= i < |leaves| ==> IsDigest(leaves[i]) && IsContent(h, leaves[i])
  }

  lemma PaddedContent(h: Hash, leaves: seq<Blob>)
    requires Ideal(h) && ContentLeaves(h, leaves)
    ensures AllContent(h, PaddedTree(h, leaves))
  {
    LeafHashIsContent(h, []);
    FringeContent(h, PaddedTree(h, leaves), Levels(|leaves|));
  }

  /** In a vector of hashed rows an accepted 32-symbol leaf is not the hash of two nodes exactly when the proof has
      log2(width) siblings. */
  lemma SiblingCountDecidesContent(h: Hash, leaves: seq<Blob>, leaf: Blob, index: int, siblings: seq<Blob>)
    requires Ideal(h) && ContentLeaves(h, leaves) && IsDigest(leaf)
    requires FixedAccepts(h, FixedRoot(h, leaves), leaf, index, siblings)
    ensures |siblings| == Levels(|leaves|) <==> IsContent(h, leaf)
  {
    if |siblings| == Levels(|leaves|) {
      AcceptedFixedProofsAreHonest(h, leaves, leaf, index, siblings);
      LeafHashIsContent(h, []);
    }
    if IsContent(h, leaf) {
      ContentProofLength(h, leaves, leaf, index, siblings);
    }
  }

  lemma ContentProofLength(h: Hash, leaves: seq<Blob>, leaf: Blob, index: int, siblings: seq<Blob>)
    requires Ideal(h) && ContentLeaves(h, leaves) && IsDigest(leaf) && IsContent(h, leaf)
    requires FixedAccepts(h, FixedRoot(h, leaves), leaf, index, siblings)
    ensures |siblings| == Levels(|leaves|)
  {
    PaddedDigests(h, leaves);
    PaddedContent(h, leaves);
    ContentFixesLength(h, PaddedTree(h, leaves), Levels(|leaves|), leaf, BitsOf(index, |siblings|), siblings);
  }

  lemma ContentProofEntry(h: Hash, leaves: seq<Blob>, root: Blob, content: Blob, index: int, siblings: seq<Blob>)
    requires Ideal(h) && ContentLeaves(h, leaves)
    requires root == FixedRoot(h, leaves) && FixedAccepts(h, root, LeafHash(h, content), index, siblings)
    ensures |siblings| == Levels(|leaves|) && Padded(h, leaves)[Slot(|leaves|, index)] == LeafHash(h, content)
  {
    var leaf := LeafHash(h, content);
    LeafHashIsContent(h, content);
    ContentProofLength(h, leaves, leaf, index, siblings);
    AcceptedFixedProofsAreHonest(h, leaves, leaf, index, siblings);
  }

  /** The leaf vector of a block: its rows, hashed. */
  ghost predicate HashedRows(h: Hash, rows: seq<Blob>, leaves: seq<Blob>) {
    |leaves| == |rows| && forall i :: 0 <= i < |rows| ==> leaves[i] == LeafHash(h, rows[i])
  }

  /** In a tree of hashed rows an accepted proof needs no length check: whatever its index and
      length, it proves the block's row at the index modulo the width. */
  lemma ContentProofNamesItsRow(
    h: Hash, rows: seq<Blob>, leaves: seq<Blob>, content: Blob, index: int, siblings: seq<Blob>)
    requires Ideal(h) && HashedRows(h, rows, leaves)
    requires FixedAccepts(h, FixedRoot(h, leaves), LeafHash(h, content), index, siblings)
    ensures |siblings| == Levels(|rows|)
    ensures Slot(|rows|, index) < |rows| && rows[Slot(|rows|, index)] == content
  {
    forall i | 0 <= i < |rows| ensures IsContent(h, leaves[i]) && IsDigest(leaves[i]) {
      LeafHashIsContent(h, rows[i]);
    }
    ContentProofEntry(h, leaves, FixedRoot(h, leaves), content, index, siblings);
    DomainsAreSeparate(h, content, [], []);
    if Slot(|rows|, index) < |rows| {
      LeafHashInjective(h, content, rows[Slot(|rows|, index)]);
    }
  }
}
