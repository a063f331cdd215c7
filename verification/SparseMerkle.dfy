/** The sparse Merkle tree over fixed-length key paths, with empty subtrees pruned to a constant.

    The depth is a parameter `n`; the source's SMT_DEPTH is 256. */
module SparseMerkle {
  import opened Primitives
  import opened OrderedMap
  import opened KeyBits

  type Leaves = seq<Entry<Path, Blob>>

  // ---- The pruned tree --------------------------------------------------------------------------

  ghost predicate KeysFit(n: nat, level: Leaves) {
    forall i :: 0 <= i < |level| ==> |level[i].key| == n
  }

  ghost predicate LeavesAreDigests(level: Leaves) {
    forall i :: 0 <= i < |level| ==> IsDigest(level[i].value)
  }

  /** The entries whose key has the given bit at this depth, in order. */
  function Side(n: nat, level: Leaves, depth: nat, bit: bool): (r: Leaves)
    requires KeysFit(n, level) && depth < n
    ensures KeysFit(n, r)
    ensures LeavesAreDigests(level) ==> LeavesAreDigests(r)
  {
    if level == [] then []
    else
      var rest := Side(n, level[1..], depth, bit);
      if level[0].key[depth] == bit then [level[0]] + rest else rest
  }

  function SmtNode(h: Hash, n: nat, level: Leaves, depth: nat): Blob
    requires KeysFit(n, level) && depth <= n
    decreases n - depth
  {
    if |level| == 0 then Empty(h, n - depth)
    else if depth == n then level[0].value
    else NodeHash(h, SmtNode(h, n, Side(n, level, depth, false), depth + 1),
                  SmtNode(h, n, Side(n, level, depth, true), depth + 1))
  }

  /** Pruning is invisible: every inner node, empty or not, is the hash of its two children. */
  lemma SmtNodeUnfolds(h: Hash, n: nat, level: Leaves, depth: nat)
    requires KeysFit(n, level) && depth < n
    ensures SmtNode(h, n, level, depth) ==
            NodeHash(h, SmtNode(h, n, Side(n, level, depth, false), depth + 1),
                     SmtNode(h, n, Side(n, level, depth, true), depth + 1))
  {
  }

  lemma {:induction false} SmtNodeIsDigest(h: Hash, n: nat, level: Leaves, depth: nat)
    requires Ideal(h) && KeysFit(n, level) && LeavesAreDigests(level) && depth <= n
    ensures IsDigest(SmtNode(h, n, level, depth))
  {
    EmptyIsDigest(h, n - depth);
  }

  // ---- The full tree, as a reference ------------------------------------------------------------

  /** The value at a path: the stored leaf, or the empty leaf where nothing is stored. */
  ghost function Stored(h: Hash, level: Leaves, path: Path): Blob {
    if path in Contents(level) then Contents(level)[path] else Empty(h, 0)
  }

  /** The unpruned tree of 2^n leaves, addressed by path. */
  ghost function FullNode(h: Hash, n: nat, level: Leaves, prefix: Path): Blob
    requires |prefix| <= n
    decreases n - |prefix|
  {
    if |prefix| == n then Stored(h, level, prefix)
    else NodeHash(h, FullNode(h, n, level, prefix + [false]), FullNode(h, n, level, prefix + [true]))
  }

  ghost predicate Extends(path: Path, n: nat, prefix: Path) {
    |path| == n && prefix <= path
  }

  /** All keys of a level lie below one tree position. */
  ghost predicate Below(n: nat, level: Leaves, prefix: Path) {
    forall i :: 0 <= i < |level| ==> Extends(level[i].key, n, prefix)
  }

  ghost predicate SameStored(h: Hash, n: nat, a: Leaves, b: Leaves, prefix: Path) {
    forall path :: Extends(path, n, prefix) ==> Stored(h, a, path) == Stored(h, b, path)
  }

  lemma {:induction false} SideStores(h: Hash, n: nat, level: Leaves, depth: nat, path: Path)
    requires KeysFit(n, level) && depth < n && |path| == n
    ensures Stored(h, Side(n, level, depth, path[depth]), path) == Stored(h, level, path)
  {
    if level != [] {
      var rest := Side(n, level[1..], depth, path[depth]);
      SideStores(h, n, level[1..], depth, path);
      assert ([level[0]] + rest)[1..] == rest;
    }
  }

  lemma {:induction false} SideBelow(n: nat, level: Leaves, prefix: Path, bit: bool)
    requires KeysFit(n, level) && Below(n, level, prefix) && |prefix| < n
    ensures Below(n, Side(n, level, |prefix|, bit), prefix + [bit])
  {
    if level != [] {
      assert Below(n, level[1..], prefix);
      SideBelow(n, level[1..], prefix, bit);
      var path := level[0].key;
      assert Extends(path, n, prefix);
      if path[|prefix|] == bit {
        assert path[..|prefix| + 1] == prefix + [bit];
      }
    }
  }

  /** A full tree is decided by the values stored below it. */
  lemma {:induction false} FullNodeDependsOnStored(h: Hash, n: nat, a: Leaves, b: Leaves, prefix: Path)
    requires |prefix| <= n && SameStored(h, n, a, b, prefix)
    ensures FullNode(h, n, a, prefix) == FullNode(h, n, b, prefix)
    decreases n - |prefix|
  {
    if |prefix| == n {
      assert Extends(prefix, n, prefix);
    } else {
      forall bit: bool ensures SameStored(h, n, a, b, prefix + [bit]) {
        assert forall path :: Extends(path, n, prefix + [bit]) ==> Extends(path, n, prefix);
      }
      FullNodeDependsOnStored(h, n, a, b, prefix + [false]);
      FullNodeDependsOnStored(h, n, a, b, prefix + [true]);
    }
  }

  /** The pruned tree equals the full tree. */
  lemma {:induction false} PrunedIsFull(h: Hash, n: nat, level: Leaves, prefix: Path)
    requires |prefix| <= n && KeysFit(n, level) && Below(n, level, prefix)
    ensures SmtNode(h, n, level, |prefix|) == FullNode(h, n, level, prefix)
    decreases n - |prefix|
  {
    if |prefix| == n {
      BottomIsStored(h, n, level, prefix);
    } else {
      SmtNodeUnfolds(h, n, level, |prefix|);
      PrunedSideIsFull(h, n, level, prefix, false);
      PrunedSideIsFull(h, n, level, prefix, true);
    }
  }

  lemma {:induction false} PrunedSideIsFull(h: Hash, n: nat, level: Leaves, prefix: Path, bit: bool)
    requires |prefix| < n && KeysFit(n, level) && Below(n, level, prefix)
    ensures SmtNode(h, n, Side(n, level, |prefix|, bit), |prefix| + 1) == FullNode(h, n, level, prefix + [bit])
    decreases n - |prefix|, 0
  {
    var side := Side(n, level, |prefix|, bit);
    SideBelow(n, level, prefix, bit);
    PrunedIsFull(h, n, side, prefix + [bit]);
    forall path | Extends(path, n, prefix + [bit]) ensures Stored(h, side, path) == Stored(h, level, path) {
      assert path[|prefix|] == (prefix + [bit])[|prefix|] == bit;
      SideStores(h, n, level, |prefix|, path);
    }
    FullNodeDependsOnStored(h, n, side, level, prefix + [bit]);
  }

  lemma BottomIsStored(h: Hash, n: nat, level: Leaves, path: Path)
    requires |path| == n && KeysFit(n, level) && Below(n, level, path)
    ensures SmtNode(h, n, level, n) == Stored(h, level, path)
  {
    if level != [] {
      assert Extends(level[0].key, n, path);
      assert level[0].key[..n] == path[..n];
      assert level[0].key == path;
    }
  }

  lemma StoredIsDigest(h: Hash, level: Leaves, path: Path)
    requires Ideal(h) && LeavesAreDigests(level) && Distinct(level)
    ensures IsDigest(Stored(h, level, path))
  {
    EmptyIsDigest(h, 0);
    HasKey(level, path);
    if path in Contents(level) {
      var i :| 0 <= i < |level| && level[i].key == path;
      HasEntry(level, i);
    }
  }

  lemma FullNodeIsDigest(h: Hash, n: nat, level: Leaves, prefix: Path)
    requires Ideal(h) && LeavesAreDigests(level) && Distinct(level) && |prefix| <= n
    ensures IsDigest(FullNode(h, n, level, prefix))
  {
    StoredIsDigest(h, level, prefix);
  }

  /** Equal full trees store the same value at every path. */
  lemma {:induction false} FullNodeDeterminesStored(h: Hash, n: nat, a: Leaves, b: Leaves, prefix: Path)
    requires Ideal(h) && Tree(n, a) && Tree(n, b) && |prefix| <= n
    requires FullNode(h, n, a, prefix) == FullNode(h, n, b, prefix)
    ensures SameStored(h, n, a, b, prefix)
    decreases n - |prefix|
  {
    if |prefix| == n {
      assert forall path :: Extends(path, n, prefix) ==> path == prefix;
    } else {
      FullNodeIsDigest(h, n, a, prefix + [false]);
      FullNodeIsDigest(h, n, b, prefix + [false]);
      NodeHashInjective(h, FullNode(h, n, a, prefix + [false]), FullNode(h, n, a, prefix + [true]),
                        FullNode(h, n, b, prefix + [false]), FullNode(h, n, b, prefix + [true]));
      FullNodeDeterminesStored(h, n, a, b, prefix + [false]);
      FullNodeDeterminesStored(h, n, a, b, prefix + [true]);
      forall path | Extends(path, n, prefix) ensures Stored(h, a, path) == Stored(h, b, path) {
        assert path[..|prefix| + 1] == prefix + [path[|prefix|]];
        if path[|prefix|] {
          assert Extends(path, n, prefix + [true]);
        } else {
          assert Extends(path, n, prefix + [false]);
        }
      }
    }
  }

  // ---- Root and contents ------------------------------------------------------------------------

  /** A well-formed tree: paths of n bits, no key twice, 32-symbol leaves. */
  ghost predicate Tree(n: nat, level: Leaves) {
    KeysFit(n, level) && Distinct(level) && LeavesAreDigests(level)
  }

  function Root(h: Hash, n: nat, level: Leaves): Blob
    requires KeysFit(n, level)
  {
    SmtNode(h, n, level, 0)
  }

  /** The entries a root can see: those whose leaf is not the empty leaf. */
  ghost function Visible(h: Hash, m: map<Path, Blob>): map<Path, Blob> {
    map k | k in m && m[k] != Empty(h, 0) :: m[k]
  }

  lemma SameStoredIsSameVisible(h: Hash, n: nat, a: Leaves, b: Leaves)
    requires KeysFit(n, a) && KeysFit(n, b)
    ensures SameStored(h, n, a, b, []) <==> Visible(h, Contents(a)) == Visible(h, Contents(b))
  {
    var va, vb := Visible(h, Contents(a)), Visible(h, Contents(b));
    forall path {:trigger Stored(h, a, path)}
      ensures path in va <==> Stored(h, a, path) != Empty(h, 0)
      ensures path in vb <==> Stored(h, b, path) != Empty(h, 0)
    {
    }
    if SameStored(h, n, a, b, []) {
      forall path | path in va || path in vb ensures path in va && path in vb && va[path] == vb[path] {
        HasKey(a, path);
        HasKey(b, path);
        assert Extends(path, n, []);
        assert Stored(h, a, path) == Stored(h, b, path);
      }
      assert va == vb;
    }
    if va == vb {
      forall path | Extends(path, n, []) ensures Stored(h, a, path) == Stored(h, b, path) {
        assert path in va ==> Stored(h, a, path) == va[path];
        assert path in vb ==> Stored(h, b, path) == vb[path];
      }
    }
  }

  /** A root commits to exactly the visible key-to-leaf map: nothing else moves it, nothing hides. */
  lemma RootIsCanonical(h: Hash, n: nat, a: Leaves, b: Leaves)
    requires Ideal(h) && Tree(n, a) && Tree(n, b)
    ensures Root(h, n, a) == Root(h, n, b) <==> Visible(h, Contents(a)) == Visible(h, Contents(b))
  {
    PrunedIsFull(h, n, a, []);
    PrunedIsFull(h, n, b, []);
    SameStoredIsSameVisible(h, n, a, b);
    if Root(h, n, a) == Root(h, n, b) {
      FullNodeDeterminesStored(h, n, a, b, []);
    }
    if Visible(h, Contents(a)) == Visible(h, Contents(b)) {
      FullNodeDependsOnStored(h, n, a, b, []);
    }
  }

  /** With no stored leaf equal to EMPTY[0], equal roots mean equal maps. */
  lemma RootDeterminesMap(h: Hash, n: nat, a: Leaves, b: Leaves)
    requires Ideal(h) && Tree(n, a) && Tree(n, b)
    requires Empty(h, 0) !in Contents(a).Values && Empty(h, 0) !in Contents(b).Values
    ensures Root(h, n, a) == Root(h, n, b) <==> Contents(a) == Contents(b)
  {
    RootIsCanonical(h, n, a, b);
    assert Visible(h, Contents(a)) == Contents(a);
    assert Visible(h, Contents(b)) == Contents(b);
  }

  /** Why callers must delete instead of storing the empty leaf: the root cannot tell the two apart. */
  lemma StoringTheEmptyLeafIsInvisible(h: Hash, n: nat, level: Leaves, key: Path)
    requires Ideal(h) && Tree(n, level) && |key| == n && key !in Contents(level)
    ensures Tree(n, Put(level, key, Empty(h, 0)))
    ensures Root(h, n, Put(level, key, Empty(h, 0))) == Root(h, n, level)
    ensures Contents(Put(level, key, Empty(h, 0))) != Contents(level)
  {
    EmptyIsDigest(h, 0);
    TreeAfterPut(n, level, key, Empty(h, 0));
    RootIsCanonical(h, n, Put(level, key, Empty(h, 0)), level);
  }

  lemma TreeAfterPut(n: nat, level: Leaves, key: Path, leaf: Blob)
    requires Tree(n, level) && |key| == n && IsDigest(leaf)
    ensures Tree(n, Put(level, key, leaf))
    ensures Contents(Put(level, key, leaf)) == Contents(level)[key := leaf]
  {
    PutContents(level, key, leaf);
  }

  lemma TreeAfterRemove(n: nat, level: Leaves, key: Path)
    requires Tree(n, level)
    ensures Tree(n, Remove(level, key))
    ensures Contents(Remove(level, key)) == Contents(level) - {key}
  {
    RemoveContents(level, key);
  }

  // ---- Histories --------------------------------------------------------------------------------

  datatype Update = SetLeaf(key: Path, leaf: Blob) | DeleteLeaf(key: Path)

  function ApplyAll(history: seq<Update>): Leaves {
    if history == [] then []
    else
      var before := ApplyAll(history[..|history| - 1]);
      match history[|history| - 1]
      case SetLeaf(k, leaf) => Put(before, k, leaf)
      case DeleteLeaf(k) => Remove(before, k)
  }

  /** The same history on a plain map. */
  ghost function Replay(history: seq<Update>): map<Path, Blob> {
    if history == [] then map[]
    else
      var before := Replay(history[..|history| - 1]);
      match history[|history| - 1]
      case SetLeaf(k, leaf) => before[k := leaf]
      case DeleteLeaf(k) => before - {k}
  }

  ghost predicate ValidHistory(n: nat, history: seq<Update>) {
    forall i :: 0 <= i < |history| ==>
      |history[i].key| == n && (history[i].SetLeaf? ==> IsDigest(history[i].leaf))
  }

  lemma {:induction false} HistoryBuildsItsMap(n: nat, history: seq<Update>)
    requires ValidHistory(n, history)
    ensures Tree(n, ApplyAll(history)) && Contents(ApplyAll(history)) == Replay(history)
  {
    if history != [] {
      var earlier, last := history[..|history| - 1], history[|history| - 1];
      HistoryBuildsItsMap(n, earlier);
      match last
      case SetLeaf(k, leaf) => TreeAfterPut(n, ApplyAll(earlier), k, leaf);
      case DeleteLeaf(k) => TreeAfterRemove(n, ApplyAll(earlier), k);
    }
  }

  /** Two set/delete histories reach one root exactly when they end in the same visible map. */
  lemma RootForgetsHistory(h: Hash, n: nat, one: seq<Update>, two: seq<Update>)
    requires Ideal(h) && ValidHistory(n, one) && ValidHistory(n, two)
    ensures Tree(n, ApplyAll(one)) && Tree(n, ApplyAll(two))
    ensures Root(h, n, ApplyAll(one)) == Root(h, n, ApplyAll(two)) <==>
            Visible(h, Replay(one)) == Visible(h, Replay(two))
  {
    HistoryBuildsItsMap(n, one);
    HistoryBuildsItsMap(n, two);
    RootIsCanonical(h, n, ApplyAll(one), ApplyAll(two));
  }
}
