/** The byte layer of the light-client Merkle code: domain-separated hashes and the empty-subtree table.

    A hash into 32 real bytes cannot be injective, so assuming that would make every theorem below
    vacuous. Here a symbol is any integer instead of a byte: an injective hash with digests of
    exactly 32 symbols then exists (`IdealHashExists`), while the lengths of hashed texts, and so
    everything that can go wrong when two fields are concatenated, stay as they are in the source. */
module Primitives {

  type Blob = seq<int>
  type Hash = Blob -> Blob

  const DIGEST_SIZE := 32
  const LEAF_PREFIX: Blob := [0]
  const NODE_PREFIX: Blob := [1]
  const EMPTY_PREFIX: Blob := [2]
  // The bytes of "XCHAIN_EMPTY_LEAF".
  const EMPTY_TAG: Blob := [88, 67, 72, 65, 73, 78, 95, 69, 77, 80, 84, 89, 95, 76, 69, 65, 70]

  ghost predicate Collide(h: Hash, x: Blob, y: Blob) {
    h(x) == h(y)
  }

  /** Digests have 32 symbols and no two texts share one. */
  ghost predicate Ideal(h: Hash) {
    && (forall x {:trigger h(x)} :: |h(x)| == DIGEST_SIZE)
    && (forall x, y {:trigger Collide(h, x, y)} :: Collide(h, x, y) ==> x == y)
  }

  predicate IsDigest(x: Blob) {
    |x| == DIGEST_SIZE
  }

  function LeafHash(h: Hash, content: Blob): Blob {
    h(LEAF_PREFIX + content)
  }

  function NodeHash(h: Hash, left: Blob, right: Blob): Blob {
    h(NODE_PREFIX + left + right)
  }

  /** EMPTY[height]: the root of an all-empty subtree of that height. */
  function Empty(h: Hash, height: nat): Blob {
    if height == 0 then h(EMPTY_PREFIX + EMPTY_TAG)
    else NodeHash(h, Empty(h, height - 1), Empty(h, height - 1))
  }

  lemma EmptyIsDigest(h: Hash, height: nat)
    requires Ideal(h)
    ensures IsDigest(Empty(h, height))
  {
  }

  /** A node hash fixes the concatenation of its two halves, and nothing more. */
  lemma NodeHashFixesConcatenation(h: Hash, a: Blob, b: Blob, c: Blob, d: Blob)
    requires Ideal(h)
    ensures NodeHash(h, a, b) == NodeHash(h, c, d) <==> a + b == c + d
  {
    var x, y := NODE_PREFIX + a + b, NODE_PREFIX + c + d;
    assert x == NODE_PREFIX + (a + b) && y == NODE_PREFIX + (c + d);
    assert Collide(h, x, y) <==> h(x) == h(y);
    if x == y {
      assert x[1..] == a + b && y[1..] == c + d;
    }
  }

  /** Equal concatenations split alike as soon as one half on the same side has the same length. */
  lemma NodeHashInjective(h: Hash, a: Blob, b: Blob, c: Blob, d: Blob)
    requires Ideal(h)
    requires |a| == |c| || |b| == |d|
    requires NodeHash(h, a, b) == NodeHash(h, c, d)
    ensures a == c && b == d
  {
    NodeHashFixesConcatenation(h, a, b, c, d);
    assert |a + b| == |c + d|;
    assert (a + b)[..|a|] == a && (a + b)[|a|..] == b;
    assert (c + d)[..|c|] == c && (c + d)[|c|..] == d;
  }

  /** Leaves, nodes and the empty leaf are hashed under different first symbols and never coincide. */
  lemma DomainsAreSeparate(h: Hash, content: Blob, left: Blob, right: Blob)
    requires Ideal(h)
    ensures LeafHash(h, content) != NodeHash(h, left, right)
    ensures LeafHash(h, content) != Empty(h, 0)
    ensures NodeHash(h, left, right) != Empty(h, 0)
  {
    var leaf, node, empty := LEAF_PREFIX + content, NODE_PREFIX + left + right, EMPTY_PREFIX + EMPTY_TAG;
    assert leaf[0] == 0 && node[0] == 1 && empty[0] == 2;
    assert Collide(h, leaf, node) <==> h(leaf) == h(node);
    assert Collide(h, leaf, empty) <==> h(leaf) == h(empty);
    assert Collide(h, node, empty) <==> h(node) == h(empty);
  }

  lemma LeafHashInjective(h: Hash, content: Blob, content': Blob)
    requires Ideal(h) && LeafHash(h, content) == LeafHash(h, content')
    ensures content == content'
  {
    assert Collide(h, LEAF_PREFIX + content, LEAF_PREFIX + content');
    assert (LEAF_PREFIX + content)[1..] == content && (LEAF_PREFIX + content')[1..] == content';
  }

  // ---- One step of a proof: a node and its sibling, in path order -------------------------------

  function Combine(h: Hash, bit: bool, node: Blob, sibling: Blob): Blob {
    if bit then NodeHash(h, sibling, node) else NodeHash(h, node, sibling)
  }

  /** The text a verifier hashes for one step, after the prefix. */
  function Bottom(bit: bool, node: Blob, sibling: Blob): Blob {
    if bit then sibling + node else node + sibling
  }

  lemma CombineInjective(h: Hash, bit: bool, a: Blob, b: Blob, c: Blob, d: Blob)
    requires Ideal(h) && |a| == |c|
    requires Combine(h, bit, a, b) == Combine(h, bit, c, d)
    ensures a == c && b == d
  {
    if bit {
      NodeHashInjective(h, b, a, d, c);
    } else {
      NodeHashInjective(h, a, b, c, d);
    }
  }

  lemma CombineFixesBottom(h: Hash, bit: bool, a: Blob, b: Blob, c: Blob, d: Blob)
    requires Ideal(h)
    ensures Combine(h, bit, a, b) == Combine(h, bit, c, d) <==> Bottom(bit, a, b) == Bottom(bit, c, d)
  {
    NodeHashFixesConcatenation(h, a, b, c, d);
    NodeHashFixesConcatenation(h, b, a, d, c);
  }

  lemma SplitBottom(bit: bool, a: Blob, b: Blob, c: Blob, d: Blob)
    requires |a| == |c| && Bottom(bit, a, b) == Bottom(bit, c, d)
    ensures a == c && b == d
  {
    var whole, other := Bottom(bit, a, b), Bottom(bit, c, d);
    assert |whole| == |a| + |b| && |other| == |c| + |d|;
    if bit {
      assert whole[|b|..] == a && whole[..|b|] == b && other[|d|..] == c && other[..|d|] == d;
    } else {
      assert whole[..|a|] == a && whole[|a|..] == b && other[..|c|] == c && other[|c|..] == d;
    }
  }

  // ---- The hypothesis is satisfiable ------------------------------------------------------------

  function Pow2(k: nat): nat
    ensures Pow2(k) >= 1
  {
    if k == 0 then 1 else 2 * Pow2(k - 1)
  }

  function Fold(symbol: int): nat {
    if symbol < 0 then -2 * symbol - 1 else 2 * symbol
  }

  /** 2^times * m. */
  function Doubled(m: nat, times: nat): nat {
    if times == 0 then m else 2 * Doubled(m, times - 1)
  }

  /** A text as one number: 2^head * (2 * Code(tail) + 1). */
  function Code(x: Blob): nat {
    if x == [] then 0 else Doubled(2 * Code(x[1..]) + 1, Fold(x[0]))
  }

  lemma {:induction false} OddPartIsUnique(i: nat, a: nat, j: nat, b: nat)
    requires Doubled(2 * a + 1, i) == Doubled(2 * b + 1, j)
    ensures i == j && a == b
    decreases i + j
  {
    if i > 0 && j > 0 {
      OddPartIsUnique(i - 1, a, j - 1, b);
    }
  }

  lemma {:induction false} DoubledIsPositive(m: nat, times: nat)
    requires m > 0
    ensures Doubled(m, times) > 0
  {
    if times > 0 {
      DoubledIsPositive(m, times - 1);
    }
  }

  lemma CodePositive(x: Blob)
    requires x != []
    ensures Code(x) > 0
  {
    DoubledIsPositive(2 * Code(x[1..]) + 1, Fold(x[0]));
  }

  lemma {:induction false} CodeInjective(x: Blob, y: Blob)
    requires Code(x) == Code(y)
    ensures x == y
    decreases |x|
  {
    if x == [] || y == [] {
      if x != [] { CodePositive(x); }
      if y != [] { CodePositive(y); }
    } else {
      OddPartIsUnique(Fold(x[0]), Code(x[1..]), Fold(y[0]), Code(y[1..]));
      CodeInjective(x[1..], y[1..]);
      assert x == [x[0]] + x[1..] && y == [y[0]] + y[1..];
    }
  }

  /** Some hash meets `Ideal`, so the theorems that assume it are about something. */
  lemma IdealHashExists() returns (h: Hash)
    ensures Ideal(h)
  {
    h := (x: Blob) => seq(DIGEST_SIZE, _ => Code(x));
    forall x, y | Collide(h, x, y) ensures x == y {
      assert h(x)[0] == Code(x) && h(y)[0] == Code(y);
      CodeInjective(x, y);
    }
  }
}
