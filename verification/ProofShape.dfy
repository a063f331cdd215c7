/** What a tree's own proof lists: a sibling stands at a depth exactly when something is stored beside the path there. */
module ProofShape {
  import opened Primitives
  import opened OrderedMap
  import opened KeyBits
  import opened SparseMerkle
  import opened SmtProofs
  import opened CompressedProofs

  /** The position beside the path to a key at some depth. */
  function Beside(key: Path, d: nat): (p: Path)
    requires d < |key|
    ensures |p| == d + 1
  {
    key[..d] + [!key[d]]
  }

  lemma SideIsFull(h: Hash, n: nat, level: Leaves, depth: nat, bit: bool, lower: Path)
    requires KeysFit(n, level) && depth < |lower| <= n && lower[depth] == bit
    ensures FullNode(h, n, Side(n, level, depth, bit), lower) == FullNode(h, n, level, lower)
  {
    var side := Side(n, level, depth, bit);
    forall path | Extends(path, n, lower) ensures Stored(h, side, path) == Stored(h, level, path) {
      assert path[depth] == lower[depth];
      SideStores(h, n, level, depth, path);
    }
    FullNodeDependsOnStored(h, n, side, level, lower);
  }

  /** A sibling is the root of the full tree beside the path. */
  lemma {:induction false} SiblingIsBeside(h: Hash, n: nat, level: Leaves, key: Path, depth: nat, d: nat)
    requires KeysFit(n, level) && |key| == n && depth <= d < n && Below(n, level, key[..depth])
    ensures Siblings(h, n, level, key, depth)[d - depth] == FullNode(h, n, level, Beside(key, d))
    decreases d - depth
  {
    if d == depth {
      PrunedSideIsFull(h, n, level, key[..d], !key[d]);
    } else {
      SideOnThePath(h, n, level, key, depth);
      SiblingIsBeside(h, n, Side(n, level, depth, key[depth]), key, depth + 1, d);
      SideIsFull(h, n, level, depth, key[depth], Beside(key, d));
      SiblingBelow(h, n, level, key, depth, d);
    }
  }

  lemma SiblingBelow(h: Hash, n: nat, level: Leaves, key: Path, depth: nat, d: nat)
    requires KeysFit(n, level) && |key| == n && depth < d < n
    ensures Siblings(h, n, level, key, depth)[d - depth]
            == Siblings(h, n, Side(n, level, depth, key[depth]), key, depth + 1)[d - depth - 1]
  {
  }

  lemma {:induction false} EmptyIsFull(h: Hash, n: nat, prefix: Path)
    requires |prefix| <= n
    ensures FullNode(h, n, [], prefix) == Empty(h, n - |prefix|)
  {
    PrunedIsFull(h, n, [], prefix);
  }

  /** A stored entry, not the empty leaf, that leaves the path to the key at this depth. */
  ghost predicate LeavesPathAt(h: Hash, level: Leaves, key: Path, d: nat, other: Path)
    requires d < |key|
  {
    && |other| == |key| && other[..d] == key[..d] && other[d] != key[d]
    && other in Contents(level) && Contents(level)[other] != Empty(h, 0)
  }

  ghost predicate SomethingLeaves(h: Hash, level: Leaves, key: Path, d: nat)
    requires d < |key|
  {
    exists other :: LeavesPathAt(h, level, key, d, other)
  }

  lemma LeavingExtends(n: nat, key: Path, d: nat, other: Path)
    requires d < |key| == n
    ensures Extends(other, n, Beside(key, d)) <==> |other| == n && other[..d] == key[..d] && other[d] != key[d]
  {
    if |other| == n {
      assert other[..d + 1] == other[..d] + [other[d]];
      assert Beside(key, d)[..d] == key[..d] && Beside(key, d)[d] == !key[d];
      assert Beside(key, d) <= other <==> other[..d + 1] == Beside(key, d);
    }
  }

  /** A sibling of a tree's proof is the constant of its depth exactly when nothing is stored beside the path there. */
  lemma SiblingIsEmptyExactly(h: Hash, n: nat, level: Leaves, key: Path, d: nat)
    requires Ideal(h) && Tree(n, level) && d < |key| == n
    ensures Siblings(h, n, level, key, 0)[d] == Empty(h, n - 1 - d) <==>
            !SomethingLeaves(h, level, key, d)
  {
    var beside := Beside(key, d);
    SiblingIsBeside(h, n, level, key, 0, d);
    EmptyIsFull(h, n, beside);
    forall other ensures Extends(other, n, beside) ==>
        (LeavesPathAt(h, level, key, d, other) <==> Stored(h, level, other) != Stored(h, [], other))
    {
      LeavingExtends(n, key, d, other);
    }
    forall other | LeavesPathAt(h, level, key, d, other) ensures Extends(other, n, beside) {
      LeavingExtends(n, key, d, other);
    }
    if FullNode(h, n, level, beside) == FullNode(h, n, [], beside) {
      FullNodeDeterminesStored(h, n, level, [], beside);
    }
    if !SomethingLeaves(h, level, key, d) {
      FullNodeDependsOnStored(h, n, level, [], beside);
    }
  }

  /** The bit of a depth is a binary digit of the bitmap, the most significant one of each byte first. */
  lemma BitmapIsBinary(bitmap: seq<bv8>, d: nat)
    requires d < 8 * |bitmap|
    ensures IsSet(bitmap, d) <==> Digit(bitmap[d / 8], d % 8)
  {
    BitOfByte(bitmap[d / 8], d % 8);
  }

  /** The compressed proof of a tree sets its bit at a depth exactly when something is stored beside the path there. */
  lemma BitsSayWhatIsStored(h: Hash, n: nat, level: Leaves, key: Path, c: Compressed, d: nat)
    requires Ideal(h) && Tree(n, level) && d < |key| == n
    requires Compresses(h, Siblings(h, n, level, key, 0), c)
    ensures IsSet(c.bitmap, d) <==> SomethingLeaves(h, level, key, d)
  {
    SiblingIsEmptyExactly(h, n, level, key, d);
    MarkedIsReal(h, Siblings(h, n, level, key, 0), c, d);
  }

  lemma MarkedIsReal(h: Hash, siblings: seq<Blob>, c: Compressed, d: nat)
    requires Compresses(h, siblings, c) && d < |siblings|
    ensures IsSet(c.bitmap, d) <==> siblings[d] != Empty(h, |siblings| - 1 - d)
  {
  }

  /** An empty tree's compressed proof lists no sibling, whatever the hash. */
  lemma EmptyTreeListsNothing(h: Hash, n: nat, key: Path, c: Compressed)
    requires |key| == n && Compresses(h, Siblings(h, n, [], key, 0), c)
    ensures c.siblings == []
  {
    forall d | 0 <= d < n ensures Siblings(h, n, [], key, 0)[d] == EmptyAt(h, n, d) {
      EmptySibling(h, n, key, d);
    }
    NoneIsReal(h, Siblings(h, n, [], key, 0), n);
  }

  lemma EmptySibling(h: Hash, n: nat, key: Path, d: nat)
    requires d < |key| == n
    ensures Siblings(h, n, [], key, 0)[d] == EmptyAt(h, n, d)
  {
    SiblingIsBeside(h, n, [], key, 0, d);
    EmptyIsFull(h, n, Beside(key, d));
  }

  lemma {:induction false} NoneIsReal(h: Hash, siblings: seq<Blob>, d: nat)
    requires d <= |siblings| && forall k :: 0 <= k < |siblings| ==> siblings[k] == EmptyAt(h, |siblings|, k)
    ensures RealSiblings(h, siblings, d) == []
  {
    if d > 0 {
      NoneIsReal(h, siblings, d - 1);
    }
  }
}
