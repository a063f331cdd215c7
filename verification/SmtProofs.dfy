/** Membership and non-membership proofs of the sparse Merkle tree. */
module SmtProofs {
  import opened Options
  import opened Primitives
  import opened OrderedMap
  import opened KeyBits
  import opened SparseMerkle

  // ---- Specification ----------------------------------------------------------------------------

  /** siblings[d] is the sibling at depth d on the way down to `key`. */
  function Siblings(h: Hash, n: nat, level: Leaves, key: Path, depth: nat): (s: seq<Blob>)
    requires KeysFit(n, level) && |key| == n && depth <= n
    ensures |s| == n - depth
    decreases n - depth
  {
    if depth == n then []
    else
      [SmtNode(h, n, Side(n, level, depth, !key[depth]), depth + 1)]
      + Siblings(h, n, Side(n, level, depth, key[depth]), key, depth + 1)
  }

  /** The node a verifier reaches at `depth` when it starts from a leaf at the bottom. */
  function Climb(h: Hash, n: nat, key: Path, leaf: Blob, siblings: seq<Blob>, depth: nat): Blob
    requires |key| == n == |siblings| && depth <= n
    decreases n - depth
  {
    if depth == n then leaf
    else Combine(h, key[depth], Climb(h, n, key, leaf, siblings, depth + 1), siblings[depth])
  }

  predicate Accepts(h: Hash, n: nat, root: Blob, key: Path, leaf: Option<Blob>, siblings: seq<Blob>)
    requires |key| == n
  {
    |siblings| == n && Climb(h, n, key, leaf.GetOr(Empty(h, 0)), siblings, 0) == root
  }

  /** What the tree holds under a key. */
  function LeafOf(level: Leaves, key: Path): Option<Blob> {
    if key in Contents(level) then Some(Contents(level)[key]) else None
  }

  // ---- The loops --------------------------------------------------------------------------------

  lemma {:induction false} SideAppend(n: nat, level: Leaves, e: Entry<Path, Blob>, depth: nat, bit: bool)
    requires KeysFit(n, level) && KeysFit(n, level + [e]) && depth < n
    requires |e.key| == n
    ensures Side(n, level + [e], depth, bit) ==
            Side(n, level, depth, bit) + if e.key[depth] == bit then [e] else []
  {
    if level == [] {
      assert level + [e] == [e] && [e][1..] == [];
    } else {
      assert (level + [e])[1..] == level[1..] + [e];
      SideAppend(n, level[1..], e, depth, bit);
    }
  }

  method Split(n: nat, level: Leaves, depth: nat) returns (left: Leaves, right: Leaves)
    requires KeysFit(n, level) && depth < n
    ensures left == Side(n, level, depth, false) && right == Side(n, level, depth, true)
  {
    left, right := [], [];
    for i := 0 to |level|
      invariant left == Side(n, level[..i], depth, false) && right == Side(n, level[..i], depth, true)
    {
      assert level[..i + 1] == level[..i] + [level[i]];
      SideAppend(n, level[..i], level[i], depth, false);
      SideAppend(n, level[..i], level[i], depth, true);
      if level[i].key[depth] { right := right + [level[i]]; } else { left := left + [level[i]]; }
    }
    assert level[..|level|] == level;
  }

  lemma SiblingsStep(h: Hash, n: nat, level: Leaves, key: Path, depth: nat, above: seq<Blob>)
    requires KeysFit(n, level) && |key| == n && depth < n
    ensures above + Siblings(h, n, level, key, depth) ==
            (above + [SmtNode(h, n, Side(n, level, depth, !key[depth]), depth + 1)])
            + Siblings(h, n, Side(n, level, depth, key[depth]), key, depth + 1)
  {
  }

  method ProveSiblings(h: Hash, n: nat, leaves: Leaves, key: Path) returns (siblings: seq<Blob>)
    requires KeysFit(n, leaves) && |key| == n
    ensures siblings == Siblings(h, n, leaves, key, 0)
  {
    siblings := [];
    var level := leaves;
    for depth := 0 to n
      invariant KeysFit(n, level)
      invariant siblings + Siblings(h, n, level, key, depth) == Siblings(h, n, leaves, key, 0)
    {
      SiblingsStep(h, n, level, key, depth, siblings);
      var left, right := Split(n, level, depth);
      var goRight := key[depth];
      siblings := siblings + [SmtNode(h, n, if goRight then left else right, depth + 1)];
      level := if goRight then right else left;
    }
  }

  /** True exactly for a full list of siblings that leads from the leaf, or the empty leaf, to the root. A key of
      another length is read bit by bit all the same. */
  method VerifySmtProof(h: Hash, n: nat, root: Blob, key: Path, leafOrNull: Option<Blob>, siblings: seq<Blob>)
    returns (ok: bool)
    ensures ok <==> Accepts(h, n, root, Fit(key, n), leafOrNull, siblings)
  {
    if |siblings| != n { return false; }
    var leaf := if leafOrNull.None? then Empty(h, 0) else leafOrNull.value;
    var node := leaf;
    for depth := n downto 0
      invariant node == Climb(h, n, Fit(key, n), leaf, siblings, depth)
    {
      var sib := siblings[depth];
      node := if !BitOrZero(key, depth) then NodeHash(h, node, sib) else NodeHash(h, sib, node);
    }
    return node == root;
  }

  // ---- One step of the walk ---------------------------------------------------------------------

  lemma SideOnThePath(h: Hash, n: nat, level: Leaves, key: Path, depth: nat)
    requires |key| == n && depth < n && KeysFit(n, level) && Below(n, level, key[..depth])
    ensures Below(n, Side(n, level, depth, key[depth]), key[..depth + 1])
    ensures Stored(h, Side(n, level, depth, key[depth]), key) == Stored(h, level, key)
    ensures SmtNode(h, n, level, depth) ==
            Combine(h, key[depth], SmtNode(h, n, Side(n, level, depth, key[depth]), depth + 1),
                    Siblings(h, n, level, key, depth)[0])
  {
    SmtNodeUnfolds(h, n, level, depth);
    SideBelow(n, level, key[..depth], key[depth]);
    SideStores(h, n, level, depth, key);
    assert key[..depth] + [key[depth]] == key[..depth + 1];
  }

  // ---- Completeness -----------------------------------------------------------------------------

  lemma {:induction false} ClimbFollowsTree(
    h: Hash, n: nat, level: Leaves, key: Path, siblings: seq<Blob>, depth: nat)
    requires |key| == n == |siblings| && depth <= n && KeysFit(n, level) && Below(n, level, key[..depth])
    requires forall i :: depth <= i < n ==> siblings[i] == Siblings(h, n, level, key, depth)[i - depth]
    ensures Climb(h, n, key, Stored(h, level, key), siblings, depth) == SmtNode(h, n, level, depth)
    decreases n - depth
  {
    if depth == n {
      assert key[..n] == key;
      BottomIsStored(h, n, level, key);
    } else {
      SideOnThePath(h, n, level, key, depth);
      ClimbFollowsTree(h, n, Side(n, level, depth, key[depth]), key, siblings, depth + 1);
    }
  }

  /** Every proof the tree gives verifies against its root, for present and for absent keys. */
  lemma ProofsVerify(h: Hash, n: nat, level: Leaves, key: Path)
    requires KeysFit(n, level) && |key| == n
    ensures Accepts(h, n, Root(h, n, level), key, LeafOf(level, key), Siblings(h, n, level, key, 0))
  {
    ClimbFollowsTree(h, n, level, key, Siblings(h, n, level, key, 0), 0);
  }

  // ---- Soundness --------------------------------------------------------------------------------

  lemma ClimbIsDigest(h: Hash, n: nat, key: Path, leaf: Blob, siblings: seq<Blob>, depth: nat)
    requires Ideal(h) && |key| == n == |siblings| && depth < n
    ensures IsDigest(Climb(h, n, key, leaf, siblings, depth))
  {
  }

  /** Reaching the tree's node from any leaf forces every sibling above the deepest one. */
  lemma {:induction false} ClimbForcesSibling(
    h: Hash, n: nat, level: Leaves, key: Path, leaf: Blob, siblings: seq<Blob>, depth: nat, i: nat)
    requires Ideal(h) && |key| == n == |siblings| && depth <= i < n - 1
    requires KeysFit(n, level) && Below(n, level, key[..depth]) && LeavesAreDigests(level)
    requires Climb(h, n, key, leaf, siblings, depth) == SmtNode(h, n, level, depth)
    ensures siblings[i] == Siblings(h, n, level, key, depth)[i - depth]
    decreases n - depth
  {
    ClimbForcesOne(h, n, level, key, leaf, siblings, depth);
    if depth < i {
      SideOnThePath(h, n, level, key, depth);
      ClimbForcesSibling(h, n, Side(n, level, depth, key[depth]), key, leaf, siblings, depth + 1, i);
    }
  }

  /** At the bottom it forces the concatenation of leaf and sibling. */
  lemma {:induction false} ClimbForcesDeepest(
    h: Hash, n: nat, level: Leaves, key: Path, leaf: Blob, siblings: seq<Blob>, depth: nat)
    requires Ideal(h) && |key| == n == |siblings| && depth < n
    requires KeysFit(n, level) && Below(n, level, key[..depth]) && LeavesAreDigests(level)
    requires Climb(h, n, key, leaf, siblings, depth) == SmtNode(h, n, level, depth)
    ensures Bottom(key[n - 1], leaf, siblings[n - 1]) ==
            Bottom(key[n - 1], Stored(h, level, key), Siblings(h, n, level, key, depth)[n - 1 - depth])
    decreases n - depth
  {
    if depth + 1 == n {
      ClimbForcesBottom(h, n, level, key, leaf, siblings);
    } else {
      SideOnThePath(h, n, level, key, depth);
      ClimbForcesOne(h, n, level, key, leaf, siblings, depth);
      ClimbForcesDeepest(h, n, Side(n, level, depth, key[depth]), key, leaf, siblings, depth + 1);
    }
  }

  lemma ClimbForcesOne(h: Hash, n: nat, level: Leaves, key: Path, leaf: Blob, siblings: seq<Blob>, depth: nat)
    requires Ideal(h) && |key| == n == |siblings| && depth + 1 < n
    requires KeysFit(n, level) && Below(n, level, key[..depth]) && LeavesAreDigests(level)
    requires Climb(h, n, key, leaf, siblings, depth) == SmtNode(h, n, level, depth)
    ensures siblings[depth] == Siblings(h, n, level, key, depth)[0]
    ensures Climb(h, n, key, leaf, siblings, depth + 1)
            == SmtNode(h, n, Side(n, level, depth, key[depth]), depth + 1)
  {
    var same := Side(n, level, depth, key[depth]);
    SideOnThePath(h, n, level, key, depth);
    ClimbIsDigest(h, n, key, leaf, siblings, depth + 1);
    SmtNodeIsDigest(h, n, same, depth + 1);
    CombineInjective(h, key[depth], Climb(h, n, key, leaf, siblings, depth + 1), siblings[depth],
                     SmtNode(h, n, same, depth + 1), Siblings(h, n, level, key, depth)[0]);
  }

  lemma ClimbForcesBottom(h: Hash, n: nat, level: Leaves, key: Path, leaf: Blob, siblings: seq<Blob>)
    requires Ideal(h) && |key| == n == |siblings| && n > 0
    requires KeysFit(n, level) && Below(n, level, key[..n - 1]) && LeavesAreDigests(level)
    requires Climb(h, n, key, leaf, siblings, n - 1) == SmtNode(h, n, level, n - 1)
    ensures Bottom(key[n - 1], leaf, siblings[n - 1]) ==
            Bottom(key[n - 1], Stored(h, level, key), Siblings(h, n, level, key, n - 1)[0])
  {
    SideOnThePath(h, n, level, key, n - 1);
    assert key[..n] == key;
    BottomIsStored(h, n, Side(n, level, n - 1, key[n - 1]), key);
    CombineFixesBottom(h, key[n - 1], leaf, siblings[n - 1], Stored(h, level, key),
                       Siblings(h, n, level, key, n - 1)[0]);
  }

  lemma {:induction false} ClimbAgrees(
    h: Hash, n: nat, key: Path, a: Blob, s: seq<Blob>, b: Blob, t: seq<Blob>, depth: nat)
    requires |key| == n == |s| == |t| && depth <= n
    requires forall i :: 0 <= i < depth ==> s[i] == t[i]
    requires Climb(h, n, key, a, s, depth) == Climb(h, n, key, b, t, depth)
    ensures Climb(h, n, key, a, s, 0) == Climb(h, n, key, b, t, 0)
  {
    if depth > 0 {
      ClimbAgrees(h, n, key, a, s, b, t, depth - 1);
    }
  }

  /** The siblings above the deepest are the tree's own, and the deepest pair reads as the same text. */
  ghost predicate ReadsAlike(h: Hash, n: nat, level: Leaves, key: Path, claimed: Blob, siblings: seq<Blob>)
    requires KeysFit(n, level) && |key| == n > 0 && |siblings| == n
  {
    var own := Siblings(h, n, level, key, 0);
    && (forall i :: 0 <= i < n - 1 ==> siblings[i] == own[i])
    && Bottom(key[n - 1], claimed, siblings[n - 1]) == Bottom(key[n - 1], Stored(h, level, key), own[n - 1])
  }

  lemma AcceptedReadsAlike(h: Hash, n: nat, level: Leaves, key: Path, claimed: Blob, siblings: seq<Blob>)
    requires Ideal(h) && Tree(n, level) && |key| == n > 0 && |siblings| == n
    requires Climb(h, n, key, claimed, siblings, 0) == Root(h, n, level)
    ensures ReadsAlike(h, n, level, key, claimed, siblings)
  {
    ClimbForcesDeepest(h, n, level, key, claimed, siblings, 0);
    forall i | 0 <= i < n - 1 ensures siblings[i] == Siblings(h, n, level, key, 0)[i] {
      ClimbForcesSibling(h, n, level, key, claimed, siblings, 0, i);
    }
  }

  lemma ReadsAlikeIsAccepted(h: Hash, n: nat, level: Leaves, key: Path, claimed: Blob, siblings: seq<Blob>)
    requires Ideal(h) && Tree(n, level) && |key| == n > 0 && |siblings| == n
    requires ReadsAlike(h, n, level, key, claimed, siblings)
    ensures Climb(h, n, key, claimed, siblings, 0) == Root(h, n, level)
  {
    var own, held := Siblings(h, n, level, key, 0), Stored(h, level, key);
    CombineFixesBottom(h, key[n - 1], claimed, siblings[n - 1], held, own[n - 1]);
    ClimbAgrees(h, n, key, claimed, siblings, held, own, n - 1);
    ProofsVerify(h, n, level, key);
  }

  /** Acceptance, exactly: the siblings above the deepest are the tree's own, and the deepest pair
      reads as the same text. */
  lemma AcceptedExactly(h: Hash, n: nat, level: Leaves, key: Path, leaf: Option<Blob>, siblings: seq<Blob>)
    requires Ideal(h) && Tree(n, level) && |key| == n > 0 && |siblings| == n
    ensures Accepts(h, n, Root(h, n, level), key, leaf, siblings)
            <==> ReadsAlike(h, n, level, key, leaf.GetOr(Empty(h, 0)), siblings)
  {
    if Accepts(h, n, Root(h, n, level), key, leaf, siblings) {
      AcceptedReadsAlike(h, n, level, key, leaf.GetOr(Empty(h, 0)), siblings);
    }
    if ReadsAlike(h, n, level, key, leaf.GetOr(Empty(h, 0)), siblings) {
      ReadsAlikeIsAccepted(h, n, level, key, leaf.GetOr(Empty(h, 0)), siblings);
    }
  }

  /** With a 32-symbol leaf (or null), an accepted proof carries the stored leaf and the tree's own
      siblings; with no empty leaf stored, null is accepted only for absent keys and a leaf only
      for keys that hold it. */
  lemma AcceptedProofsAreHonest(h: Hash, n: nat, level: Leaves, key: Path, leaf: Option<Blob>, siblings: seq<Blob>)
    requires Ideal(h) && Tree(n, level) && |key| == n > 0
    requires leaf.Some? ==> IsDigest(leaf.value)
    requires Accepts(h, n, Root(h, n, level), key, leaf, siblings)
    ensures siblings == Siblings(h, n, level, key, 0)
    ensures leaf.GetOr(Empty(h, 0)) == LeafOf(level, key).GetOr(Empty(h, 0))
    ensures Empty(h, 0) !in Contents(level).Values && leaf != Some(Empty(h, 0)) ==> leaf == LeafOf(level, key)
  {
    var own := Siblings(h, n, level, key, 0);
    AcceptedExactly(h, n, level, key, leaf, siblings);
    EmptyIsDigest(h, 0);
    StoredIsDigest(h, level, key);
    SplitBottom(key[n - 1], leaf.GetOr(Empty(h, 0)), siblings[n - 1], Stored(h, level, key), own[n - 1]);
    if key in Contents(level) {
      assert Contents(level)[key] in Contents(level).Values;
    }
  }

  /** An accepted leaf has 32 symbols exactly when it is the value stored where the key's bits lead, with the tree's
      own siblings there. */
  lemma AcceptedLeafIsStored(h: Hash, n: nat, level: Leaves, key: Path, leaf: Blob, siblings: seq<Blob>)
    requires Ideal(h) && Tree(n, level) && n > 0
    requires Accepts(h, n, Root(h, n, level), Fit(key, n), Some(leaf), siblings)
    ensures IsDigest(leaf) <==>
            leaf == Stored(h, level, Fit(key, n)) && siblings == Siblings(h, n, level, Fit(key, n), 0)
  {
    StoredIsDigest(h, level, Fit(key, n));
    if IsDigest(leaf) {
      AcceptedProofsAreHonest(h, n, level, Fit(key, n), Some(leaf), siblings);
    }
  }

  lemma StoredKeysFit(n: nat, level: Leaves, key: Path)
    requires KeysFit(n, level) && key in Contents(level)
    ensures |key| == n
  {
    HasKey(level, key);
  }

  /** With no empty leaf stored, what is accepted for a key of any length is what the tree holds under it exactly
      when it is null, or a 32-symbol leaf for a key of the tree's depth. */
  lemma LengthsDecideHonesty(h: Hash, n: nat, level: Leaves, key: Path, leaf: Option<Blob>, siblings: seq<Blob>)
    requires Ideal(h) && Tree(n, level) && n > 0
    requires Empty(h, 0) !in Contents(level).Values && leaf != Some(Empty(h, 0))
    requires Accepts(h, n, Root(h, n, level), Fit(key, n), leaf, siblings)
    ensures leaf == LeafOf(level, key) <==> (leaf.Some? ==> IsDigest(leaf.value) && |key| == n)
  {
    if key in Contents(level) {
      StoredKeysFit(n, level, key);
      StoredIsDigest(h, level, key);
    }
    if |key| == n && (leaf.Some? ==> IsDigest(leaf.value)) {
      AcceptedProofsAreHonest(h, n, level, key, leaf, siblings);
    }
  }

  /** The key length cannot be dropped: a key cut short of zero bits, or followed by more bits, is accepted with the
      leaf stored under the key it is read as, though nothing is stored under it. */
  lemma OtherLengthKeyIsAccepted(h: Hash, n: nat, level: Leaves, key: Path)
    requires Tree(n, level) && |key| != n && Fit(key, n) in Contents(level)
    ensures Accepts(h, n, Root(h, n, level), Fit(key, n), LeafOf(level, Fit(key, n)), Siblings(h, n, level, Fit(key, n), 0))
    ensures LeafOf(level, Fit(key, n)).Some? && IsDigest(LeafOf(level, Fit(key, n)).value)
    ensures LeafOf(level, key) == None
  {
    ProofsVerify(h, n, level, Fit(key, n));
    HasKey(level, Fit(key, n));
    var i :| 0 <= i < |level| && level[i].key == Fit(key, n);
    HasEntry(level, i);
    if key in Contents(level) {
      StoredKeysFit(n, level, key);
    }
  }

  /** The length condition cannot be dropped: for every tree and key, a leaf of another length is
      accepted when the deepest sibling makes up for it. */
  lemma WrongLengthLeafIsAccepted(h: Hash, n: nat, level: Leaves, key: Path)
    returns (leaf: Blob, siblings: seq<Blob>)
    requires Ideal(h) && Tree(n, level) && |key| == n > 0
    ensures !IsDigest(leaf) && Some(leaf) != LeafOf(level, key)
    ensures Accepts(h, n, Root(h, n, level), key, Some(leaf), siblings)
  {
    var own, held := Siblings(h, n, level, key, 0), Stored(h, level, key);
    leaf := Bottom(key[n - 1], held, own[n - 1]);
    siblings := own[n - 1 := []];
    StoredIsDigest(h, level, key);
    LastSiblingIsDigest(h, n, level, key, 0);
    assert Bottom(key[n - 1], leaf, []) == leaf;
    AcceptedExactly(h, n, level, key, Some(leaf), siblings);
  }

  lemma {:induction false} LastSiblingIsDigest(h: Hash, n: nat, level: Leaves, key: Path, depth: nat)
    requires Ideal(h) && KeysFit(n, level) && LeavesAreDigests(level) && |key| == n && depth < n
    ensures IsDigest(Siblings(h, n, level, key, depth)[n - 1 - depth])
    decreases n - depth
  {
    if depth + 1 == n {
      SmtNodeIsDigest(h, n, Side(n, level, depth, !key[depth]), n);
    } else {
      LastSiblingIsDigest(h, n, Side(n, level, depth, key[depth]), key, depth + 1);
    }
  }
}
