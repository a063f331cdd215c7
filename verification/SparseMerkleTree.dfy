/** The in-memory tree object: a map of value leaves, its root and its proofs. */
module MerkleTreeObject {
  import opened Options
  import opened Primitives
  import opened OrderedMap
  import opened KeyBits
  import opened SparseMerkle
  import opened SmtProofs
  import opened CompressedProofs

  datatype Proof = Proof(key: Path, leafValue: Option<Blob>, siblings: seq<Blob>, compressed: Compressed)

  /** The entries as the tree reads them: by the first n bits of their keys. */
  function Fitted(n: nat, leaves: Leaves): (r: Leaves)
    ensures KeysFit(n, r) && |r| == |leaves|
    ensures forall i :: 0 <= i < |r| ==> r[i] == Entry(Fit(leaves[i].key, n), leaves[i].value)
    ensures KeysFit(n, leaves) ==> r == leaves
  {
    if leaves == [] then []
    else
      var last := leaves[|leaves| - 1];
      Fitted(n, leaves[..|leaves| - 1]) + [Entry(Fit(last.key, n), last.value)]
  }

  class SparseMerkleTree {
    const h: Hash
    const keyBytes: nat
    var leaves: Leaves

    /** A map has each key once. Nothing is asked of the lengths of keys and leaves. */
    ghost predicate Valid()
      reads this
    {
      Distinct(leaves)
    }

    /** All keys have the tree's depth and all leaves 32 symbols, as callers must see to. */
    ghost predicate IsTree()
      reads this
    {
      Tree(8 * keyBytes, leaves)
    }

    /** The map the tree stands for, by key bits. */
    ghost function Model(): map<Path, Blob>
      reads this
    {
      Contents(leaves)
    }

    constructor (h: Hash, keyBytes: nat)
      ensures Valid() && IsTree() && Model() == map[] && this.h == h && this.keyBytes == keyBytes
    {
      this.h := h;
      this.keyBytes := keyBytes;
      leaves := [];
    }

    /** Null deletes; anything else is stored. */
    method Set(key: KeyBuf, leafOrNull: Option<Blob>)
      requires Valid()
      modifies this
      ensures Valid()
      ensures Model() == if leafOrNull.None? then old(Model()) - {Bits(key)} else old(Model())[Bits(key) := leafOrNull.value]
      ensures old(IsTree()) && |key| == keyBytes && (leafOrNull.Some? ==> IsDigest(leafOrNull.value)) ==> IsTree()
    {
      if leafOrNull.None? {
        Delete(key);
      } else {
        PutContents(leaves, Bits(key), leafOrNull.value);
        leaves := Put(leaves, Bits(key), leafOrNull.value);
      }
    }

    method Delete(key: KeyBuf)
      requires Valid()
      modifies this
      ensures Valid() && Model() == old(Model()) - {Bits(key)}
      ensures old(IsTree()) ==> IsTree()
    {
      RemoveContents(leaves, Bits(key));
      leaves := Remove(leaves, Bits(key));
    }

    method RootOf() returns (root: Blob)
      ensures root == Root(h, 8 * keyBytes, Fitted(8 * keyBytes, leaves))
      ensures root == FullNode(h, 8 * keyBytes, Fitted(8 * keyBytes, leaves), [])
    {
      PrunedIsFull(h, 8 * keyBytes, Fitted(8 * keyBytes, leaves), []);
      root := SmtNode(h, 8 * keyBytes, Fitted(8 * keyBytes, leaves), 0);
    }

    /** For any key the siblings verify against the root with the leaf its bits lead to. With keys of the tree's
        depth that is the leaf stored under the key, or none. */
    method Prove(key: KeyBuf) returns (proof: Proof)
      requires Valid()
      ensures
        var n, path := 8 * keyBytes, Fit(Bits(key), 8 * keyBytes);
        var entries := Fitted(n, leaves);
        && proof.key == Bits(key)
        && proof.leafValue == (if Bits(key) in Model() then Some(Model()[Bits(key)]) else None)
        && Accepts(h, n, Root(h, n, entries), path, LeafOf(entries, path), proof.siblings)
        && (IsTree() && |key| == keyBytes ==> proof.leafValue == LeafOf(entries, path))
        && Compresses(h, proof.siblings, proof.compressed)
        && Expanded(h, n, proof.compressed, n) == proof.siblings
    {
      var n, path := 8 * keyBytes, Fit(Bits(key), 8 * keyBytes);
      var entries := Fitted(n, leaves);
      var siblings := ProveSiblings(h, n, entries, path);
      var compressed := CompressSmtProof(h, n, siblings);
      assert siblings[..n] == siblings;
      ProofsVerify(h, n, entries, path);
      DecompressUndoesCompress(h, siblings, compressed.value);
      proof := Proof(Bits(key), LeafOf(leaves, Bits(key)), siblings, compressed.value);
    }
  }
}
