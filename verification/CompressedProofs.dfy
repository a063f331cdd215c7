/** The wire form of a proof: a bitmap saying which siblings are real, and only those siblings. */
module CompressedProofs {
  import opened Collections
  import opened Options
  import opened Primitives
  import opened KeyBits
  import opened SmtProofs

  datatype Compressed = Compressed(bitmap: seq<bv8>, siblings: seq<Blob>)

  /** A bit past the end of the bitmap reads as clear. */
  predicate IsSet(bitmap: seq<bv8>, d: nat) {
    d / 8 < |bitmap| && Has(bitmap[d / 8], d % 8)
  }

  predicate Has(b: bv8, k: nat)
    requires k < 8
  {
    b & Mask(k) != 0
  }

  function With(b: bv8, k: nat): bv8
    requires k < 8
  {
    b | Mask(k)
  }

  function SetCount(bitmap: seq<bv8>, d: nat): nat {
    if d == 0 then 0 else SetCount(bitmap, d - 1) + if IsSet(bitmap, d - 1) then 1 else 0
  }

  /** The empty constant for depth d: the root of the empty subtree beside it. */
  function EmptyAt(h: Hash, n: nat, d: nat): Blob
    requires d < n
  {
    Empty(h, n - 1 - d)
  }

  /** The first d siblings without the empty constants. */
  function RealSiblings(h: Hash, siblings: seq<Blob>, d: nat): seq<Blob>
    requires d <= |siblings|
  {
    if d == 0 then []
    else RealSiblings(h, siblings, d - 1)
         + if siblings[d - 1] != EmptyAt(h, |siblings|, d - 1) then [siblings[d - 1]] else []
  }

  /** The sibling a compressed form stands for at depth d; a position past its list is blank. */
  function SiblingAt(h: Hash, n: nat, c: Compressed, d: nat): Blob
    requires d < n
  {
    var at := SetCount(c.bitmap, d);
    if !IsSet(c.bitmap, d) then EmptyAt(h, n, d) else if at < |c.siblings| then c.siblings[at] else []
  }

  /** The first d of them. */
  function Expanded(h: Hash, n: nat, c: Compressed, d: nat): (s: seq<Blob>)
    requires d <= n
    ensures |s| == d && forall k :: 0 <= k < d ==> s[k] == SiblingAt(h, n, c, k)
  {
    if d == 0 then [] else Expanded(h, n, c, d - 1) + [SiblingAt(h, n, c, d - 1)]
  }

  /** What compression promises of its answer. */
  ghost predicate Compresses(h: Hash, siblings: seq<Blob>, c: Compressed) {
    && 8 * |c.bitmap| == |siblings|
    && (forall d :: 0 <= d < |siblings| ==> (IsSet(c.bitmap, d) <==> siblings[d] != EmptyAt(h, |siblings|, d)))
    && c.siblings == RealSiblings(h, siblings, |siblings|)
  }

  // ---- The loops --------------------------------------------------------------------------------

  lemma SetBit(b: bv8, j: nat, k: nat)
    requires j < 8 && k < 8
    ensures Has(With(b, j), k) <==> k == j || Has(b, k)
  {
  }

  function WithBit(bitmap: seq<bv8>, d: nat): seq<bv8>
    requires d / 8 < |bitmap|
  {
    bitmap[d / 8 := With(bitmap[d / 8], d % 8)]
  }

  lemma SetBitAt(bitmap: seq<bv8>, d: nat, e: nat)
    requires d / 8 < |bitmap|
    ensures IsSet(WithBit(bitmap, d), e) <==> e == d || IsSet(bitmap, e)
  {
    assert d == 8 * (d / 8) + d % 8 && e == 8 * (e / 8) + e % 8;
    if e / 8 == d / 8 {
      SetBit(bitmap[d / 8], d % 8, e % 8);
    }
  }

  /** The bitmap says which of the first d siblings are real. */
  ghost predicate Marks(h: Hash, siblings: seq<Blob>, bitmap: seq<bv8>, d: nat) {
    forall e :: 0 <= e < |siblings| ==> (IsSet(bitmap, e) <==> e < d && siblings[e] != EmptyAt(h, |siblings|, e))
  }

  lemma MarkNext(h: Hash, siblings: seq<Blob>, bitmap: seq<bv8>, d: nat)
    requires d < |siblings| && d / 8 < |bitmap| && Marks(h, siblings, bitmap, d)
    ensures siblings[d] == EmptyAt(h, |siblings|, d) ==> Marks(h, siblings, bitmap, d + 1)
    ensures siblings[d] != EmptyAt(h, |siblings|, d) ==> Marks(h, siblings, WithBit(bitmap, d), d + 1)
  {
    forall e | 0 <= e < |siblings| ensures IsSet(WithBit(bitmap, d), e) <==> e == d || IsSet(bitmap, e) {
      SetBitAt(bitmap, d, e);
    }
  }

  lemma NothingIsMarked(h: Hash, siblings: seq<Blob>, bitmap: seq<bv8>)
    requires forall i :: 0 <= i < |bitmap| ==> bitmap[i] == 0
    ensures Marks(h, siblings, bitmap, 0)
  {
    forall e | 0 <= e < |siblings| ensures !IsSet(bitmap, e) {
      if e / 8 < |bitmap| {
        assert bitmap[e / 8] == 0;
        NoBitOfZero(e % 8);
      }
    }
  }

  lemma NoBitOfZero(k: nat)
    requires k < 8
    ensures !Has(0, k)
  {
  }

  /** What the loop holds of the first d siblings. */
  ghost predicate Compressing(h: Hash, siblings: seq<Blob>, bitmap: seq<bv8>, listed: seq<Blob>, d: nat)
    requires d <= |siblings|
  {
    listed == RealSiblings(h, siblings, d) && Marks(h, siblings, bitmap, d)
  }

  lemma CompressNext(h: Hash, siblings: seq<Blob>, bitmap: seq<bv8>, listed: seq<Blob>, d: nat)
    requires d < |siblings| && d / 8 < |bitmap| && Compressing(h, siblings, bitmap, listed, d)
    ensures if siblings[d] == EmptyAt(h, |siblings|, d) then Compressing(h, siblings, bitmap, listed, d + 1)
            else Compressing(h, siblings, WithBit(bitmap, d), listed + [siblings[d]], d + 1)
  {
    MarkNext(h, siblings, bitmap, d);
  }

  lemma CompressedWhole(h: Hash, siblings: seq<Blob>, bitmap: seq<bv8>, listed: seq<Blob>)
    requires 8 * |bitmap| == |siblings| && Compressing(h, siblings, bitmap, listed, |siblings|)
    ensures Compresses(h, siblings, Compressed(bitmap, listed))
  {
  }

  /** Throws on a missing sibling, and ignores any beyond the depth. */
  method CompressSmtProof(h: Hash, n: nat, given: seq<Blob>) returns (r: Result<Compressed>)
    requires n % 8 == 0
    ensures r.Ok? <==> n <= |given|
    ensures r.Ok? ==> Compresses(h, given[..n], r.value)
  {
    if |given| < n { return Refused; }
    var siblings := given[..n];
    var bitmap: seq<bv8>, listed := seq(n / 8, _ => 0), [];
    NothingIsMarked(h, siblings, bitmap);
    for d := 0 to n
      invariant 8 * |bitmap| == n && Compressing(h, siblings, bitmap, listed, d)
    {
      CompressNext(h, siblings, bitmap, listed, d);
      if siblings[d] != EmptyAt(h, n, d) {
        bitmap := WithBit(bitmap, d);
        listed := listed + [siblings[d]];
      }
    }
    CompressedWhole(h, siblings, bitmap, listed);
    return Ok(Compressed(bitmap, listed));
  }

  /** Refused is the source's thrown error; a sibling read past the list is never returned. */
  method DecompressSmtProof(h: Hash, n: nat, c: Compressed) returns (r: Result<seq<Blob>>)
    ensures r.Ok? <==> SetCount(c.bitmap, n) == |c.siblings|
    ensures r.Ok? ==> r.value == Expanded(h, n, c, n)
  {
    var out, ri := [], 0;
    for d := 0 to n
      invariant ri == SetCount(c.bitmap, d) && out == Expanded(h, n, c, d)
    {
      if IsSet(c.bitmap, d) {
        out := out + [if ri < |c.siblings| then c.siblings[ri] else []];
        ri := ri + 1;
      } else {
        out := out + [EmptyAt(h, n, d)];
      }
    }
    if ri != |c.siblings| { return Refused; }
    return Ok(out);
  }

  method VerifyCompressedSmtProof(h: Hash, n: nat, root: Blob, key: Path, leafOrNull: Option<Blob>, c: Compressed)
    returns (r: Result<bool>)
    ensures r.Ok? <==> SetCount(c.bitmap, n) == |c.siblings|
    ensures r.Ok? ==> (r.value <==> Accepts(h, n, root, Fit(key, n), leafOrNull, Expanded(h, n, c, n)))
  {
    var siblings := DecompressSmtProof(h, n, c);
    if siblings.Refused? { return Refused; }
    var ok := VerifySmtProof(h, n, root, key, leafOrNull, siblings.value);
    return Ok(ok);
  }

  // ---- Round trips ------------------------------------------------------------------------------

  lemma {:induction false} ExpandedFrom(h: Hash, siblings: seq<Blob>, c: Compressed, d: nat)
    requires Compresses(h, siblings, c) && d <= |siblings|
    ensures SetCount(c.bitmap, d) == |RealSiblings(h, siblings, d)|
    ensures RealSiblings(h, siblings, d) <= c.siblings
    ensures Expanded(h, |siblings|, c, d) == siblings[..d]
    decreases d
  {
    RealSiblingsGrow(h, siblings, d, |siblings|);
    if d > 0 {
      ExpandedFrom(h, siblings, c, d - 1);
      RealAt(h, siblings, c, d - 1);
      OneMore(siblings, d - 1);
    }
  }

  lemma RealAt(h: Hash, siblings: seq<Blob>, c: Compressed, d: nat)
    requires Compresses(h, siblings, c) && d < |siblings|
    requires SetCount(c.bitmap, d) == |RealSiblings(h, siblings, d)| && RealSiblings(h, siblings, d + 1) <= c.siblings
    ensures SiblingAt(h, |siblings|, c, d) == siblings[d]
    ensures SetCount(c.bitmap, d + 1) == |RealSiblings(h, siblings, d + 1)|
  {
    var before := RealSiblings(h, siblings, d);
    if IsSet(c.bitmap, d) {
      assert RealSiblings(h, siblings, d + 1) == before + [siblings[d]];
      assert c.siblings[|before|] == (before + [siblings[d]])[|before|];
    }
  }

  lemma {:induction false} RealSiblingsGrow(h: Hash, siblings: seq<Blob>, d: nat, e: nat)
    requires d <= e <= |siblings|
    ensures RealSiblings(h, siblings, d) <= RealSiblings(h, siblings, e)
    decreases e
  {
    if d < e {
      RealSiblingsGrow(h, siblings, d, e - 1);
    }
  }

  /** Decompression undoes compression, for every sibling vector. */
  lemma DecompressUndoesCompress(h: Hash, siblings: seq<Blob>, c: Compressed)
    requires Compresses(h, siblings, c)
    ensures SetCount(c.bitmap, |siblings|) == |c.siblings|
    ensures Expanded(h, |siblings|, c, |siblings|) == siblings
  {
    ExpandedFrom(h, siblings, c, |siblings|);
    assert siblings[..|siblings|] == siblings;
  }

  /** The compressed form is unique. */
  lemma CompressionIsUnique(h: Hash, siblings: seq<Blob>, c: Compressed, c': Compressed)
    requires Compresses(h, siblings, c) && Compresses(h, siblings, c')
    ensures c == c'
  {
    forall i | 0 <= i < 8 * |c.bitmap| ensures BitAt(c.bitmap, i) == BitAt(c'.bitmap, i) {
      assert IsSet(c.bitmap, i) <==> IsSet(c'.bitmap, i);
    }
    BufferIsItsBits(c.bitmap, c'.bitmap);
  }

  /** No listed sibling is the constant a clear bit would have stood for. */
  ghost predicate ListsNoEmpty(h: Hash, n: nat, c: Compressed) {
    forall d :: 0 <= d < n && IsSet(c.bitmap, d) ==> Expanded(h, n, c, n)[d] != EmptyAt(h, n, d)
  }

  lemma {:induction false} RealSiblingsOfExpanded(h: Hash, n: nat, c: Compressed, d: nat)
    requires SetCount(c.bitmap, n) == |c.siblings| && ListsNoEmpty(h, n, c) && d <= n
    ensures SetCount(c.bitmap, d) <= |c.siblings|
    ensures RealSiblings(h, Expanded(h, n, c, n), d) == c.siblings[..SetCount(c.bitmap, d)]
    decreases d
  {
    if d > 0 {
      RealSiblingsOfExpanded(h, n, c, d - 1);
      SetCountGrows(c.bitmap, d, n);
      if IsSet(c.bitmap, d - 1) {
        OneMore(c.siblings, SetCount(c.bitmap, d - 1));
      }
    }
  }

  lemma {:induction false} SetCountGrows(bitmap: seq<bv8>, d: nat, e: nat)
    requires d <= e
    ensures SetCount(bitmap, d) <= SetCount(bitmap, e)
    decreases e
  {
    if d < e {
      SetCountGrows(bitmap, d, e - 1);
    }
  }

  /** Compressing an expanded form gives it back exactly when its bitmap has the right length and it
      lists no empty constant. */
  lemma CompressUndoesDecompress(h: Hash, n: nat, c: Compressed)
    requires SetCount(c.bitmap, n) == |c.siblings|
    ensures Compresses(h, Expanded(h, n, c, n), c) <==> 8 * |c.bitmap| == n && ListsNoEmpty(h, n, c)
  {
    if 8 * |c.bitmap| == n && ListsNoEmpty(h, n, c) {
      RealSiblingsOfExpanded(h, n, c, n);
    }
  }

  /** A form that lists the constant of its first depth is expanded, but compression would not list it. */
  lemma ListedEmptyIsNotRestored(h: Hash)
    ensures
      var c := Compressed([0x80], [EmptyAt(h, 8, 0)]);
      && SetCount(c.bitmap, 8) == |c.siblings| && 8 * |c.bitmap| == 8
      && !Compresses(h, Expanded(h, 8, c, 8), c)
  {
    var c := Compressed([0x80], [EmptyAt(h, 8, 0)]);
    assert IsSet(c.bitmap, 0) && forall d :: 1 <= d < 8 ==> !IsSet(c.bitmap, d);
    OneBitCounts(c.bitmap, 8);
    CompressUndoesDecompress(h, 8, c);
    assert SiblingAt(h, 8, c, 0) == EmptyAt(h, 8, 0);
  }

  lemma {:induction false} OneBitCounts(bitmap: seq<bv8>, d: nat)
    requires 1 <= d <= 8 && IsSet(bitmap, 0) && forall e :: 1 <= e < 8 ==> !IsSet(bitmap, e)
    ensures SetCount(bitmap, d) == 1
  {
    if d > 1 {
      OneBitCounts(bitmap, d - 1);
    }
  }

  /** Compressed and plain verification agree on every proof, whoever made it. */
  lemma CompressedVerificationAgrees(
    h: Hash, n: nat, root: Blob, key: Path, leaf: Option<Blob>, siblings: seq<Blob>, c: Compressed)
    requires |key| == n == |siblings| && Compresses(h, siblings, c)
    ensures Accepts(h, n, root, key, leaf, Expanded(h, n, c, n)) <==> Accepts(h, n, root, key, leaf, siblings)
  {
    DecompressUndoesCompress(h, siblings, c);
  }
}
