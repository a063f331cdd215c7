/** The signing text has one reading: equal texts sign equal fields. */
module CheckpointSigning {
  import opened Options
  import opened Decimal
  import opened PipeText
  import opened CheckpointText

  lemma RootsPipeFree(cp: Checkpoint)
    requires HasRoots(cp) && FieldsPipeFree(cp)
    ensures AllPipeFree(RootFields(cp))
  {
  }

  lemma FoldPipeFree(cp: Checkpoint)
    requires cp.fold.Some? && FieldsPipeFree(cp)
    ensures AllPipeFree(FoldFields(cp.fold.value))
  {
    var f := cp.fold.value;
    var raw := [f.matchBatchSeq, f.matchCount, f.batchCrc32, f.totalChunks];
    assert PipeFree(raw[0]) && PipeFree(raw[1]) && PipeFree(raw[2]) && PipeFree(raw[3]);
  }

  lemma RawFieldsPipeFree(g: Gates, cp: Checkpoint)
    requires Admissible(g, cp) && FieldsPipeFree(cp)
    ensures AllPipeFree(RawFields(SignedFields(g, cp))) && AllPipeFree(SignedFields(g, cp).fold)
  {
    var s := SignedFields(g, cp);
    if CommitmentActive(g, cp) { RootsPipeFree(cp); }
    if cp.fold.Some? { FoldPipeFree(cp); }
  }

  lemma TextFieldsPipeFree(g: Gates, cp: Checkpoint)
    requires Admissible(g, cp) && FieldsPipeFree(cp)
    ensures AllPipeFree(TextFields(EquivActive(g, cp), SignedFields(g, cp)))
  {
    var s := SignedFields(g, cp);
    RawFieldsPipeFree(g, cp);
    var head := ["EQUIV", "XCHECKPOINT", s.base[1], s.base[2], s.base[3], s.base[8]];
    var seqField := if |s.fold| == 4 then [s.fold[0]] else [];
    forall i | 0 <= i < 6 ensures PipeFree(head[i]) {
      assert PipeFree(s.base[1]) && PipeFree(s.base[2]) && PipeFree(s.base[3]) && PipeFree(s.base[8]);
    }
    assert AllPipeFree(seqField);
  }

  // ---- Reading the fields back --------------------------------------------------------------------

  lemma SplitEqual(a: seq<string>, b: seq<string>, c: seq<string>, d: seq<string>)
    requires |a| == |c| && a + b == c + d
    ensures a == c && b == d
  {
    assert a == (a + b)[..|a|] && c == (c + d)[..|a|];
    assert b == (a + b)[|a|..] && d == (c + d)[|a|..];
  }

  /** The shape every admissible checkpoint's signed content has. */
  ghost predicate Shaped(s: Signed, rooted: bool) {
    |s.base| == 10 && s.base[0] == "XCHECKPOINT" && |s.roots| == (if rooted then 4 else 0) && |s.fold| in {0, 4}
  }

  /** With the roots' presence known, the number of fields tells which suffixes are there. */
  lemma RawFieldsReadBack(a: Signed, b: Signed, rooted: bool)
    requires Shaped(a, rooted) && Shaped(b, rooted) && RawFields(a) == RawFields(b)
    ensures a == b
  {
    var restA, restB := SupersedeFields(a) + a.fold, SupersedeFields(b) + b.fold;
    assert RawFields(a) == (a.base + a.roots) + restA && RawFields(b) == (b.base + b.roots) + restB;
    SplitEqual(a.base + a.roots, restA, b.base + b.roots, restB);
    SplitEqual(a.base, a.roots, b.base, b.roots);
    assert |restA| == |restB|;
    SplitEqual(SupersedeFields(a), a.fold, SupersedeFields(b), b.fold);
    SupersedeReadsBack(a, b);
  }

  lemma SupersedeReadsBack(a: Signed, b: Signed)
    requires SupersedeFields(a) == SupersedeFields(b)
    ensures a.supersede == b.supersede
  {
    assert |SupersedeFields(a)| == |SupersedeFields(b)|;
    if a.supersede.Some? {
      DecimalRoundTrip(a.supersede.value.0);
      DecimalRoundTrip(b.supersede.value.0);
      assert SupersedeFields(a)[1] == SupersedeFields(b)[1] && SupersedeFields(a)[2] == SupersedeFields(b)[2];
    }
  }

  /** Header or none, and with or without the batch number, are told apart by fixed positions. */
  lemma HeaderReadsBack(wrappedA: bool, a: Signed, wrappedB: bool, b: Signed, rootedA: bool, rootedB: bool)
    requires Shaped(a, rootedA) && Shaped(b, rootedB)
    requires TextFields(wrappedA, a) == TextFields(wrappedB, b)
    ensures RawFields(a) == RawFields(b)
  {
    var fa, fb := TextFields(wrappedA, a), TextFields(wrappedB, b);
    assert fa[0] == if wrappedA then "EQUIV" else "XCHECKPOINT";
    assert fb[0] == if wrappedB then "EQUIV" else "XCHECKPOINT";
    assert wrappedA == wrappedB;
    if wrappedA {
      assert fa[7] == if |a.fold| == 4 then "0" else "";
      assert fb[7] == if |b.fold| == 4 then "0" else "";
      assert "0" != "";
      var headA := ["EQUIV", "XCHECKPOINT", a.base[1], a.base[2], a.base[3], a.base[8]]
                   + (if |a.fold| == 4 then [a.fold[0]] else []) + ["0", ""];
      var headB := ["EQUIV", "XCHECKPOINT", b.base[1], b.base[2], b.base[3], b.base[8]]
                   + (if |b.fold| == 4 then [b.fold[0]] else []) + ["0", ""];
      SplitEqual(headA, RawFields(a), headB, RawFields(b));
    }
  }

  lemma BaseOfRawFields(a: Signed, b: Signed, rootedA: bool, rootedB: bool)
    requires Shaped(a, rootedA) && Shaped(b, rootedB) && RawFields(a) == RawFields(b)
    ensures a.base == b.base
  {
    BehindBase(a);
    BehindBase(b);
    SplitEqual(a.base, a.roots + SupersedeFields(a) + a.fold, b.base, b.roots + SupersedeFields(b) + b.fold);
  }

  lemma BehindBase(s: Signed)
    ensures RawFields(s) == s.base + (s.roots + SupersedeFields(s) + s.fold)
  {
  }

  /** Two admissible checkpoints with '|'-free fields are signed over one text exactly when they
      agree in every signed field, although the roots and the fold are both four optional fields. */
  lemma SigningTextIsUnambiguous(g: Gates, a: Checkpoint, b: Checkpoint)
    requires Admissible(g, a) && Admissible(g, b) && FieldsPipeFree(a) && FieldsPipeFree(b)
    ensures CanonicalCheckpoint(g, a) == CanonicalCheckpoint(g, b) <==> SignedFields(g, a) == SignedFields(g, b)
  {
    var sa, sb := SignedFields(g, a), SignedFields(g, b);
    HeaderIsJoined(g, a);
    HeaderIsJoined(g, b);
    assert sa.base == sb.base ==> sa.base[2] == sb.base[2] && sa.base[9] == sb.base[9];
    if CanonicalCheckpoint(g, a) == CanonicalCheckpoint(g, b) {
      TextFieldsPipeFree(g, a);
      TextFieldsPipeFree(g, b);
      JoinInjective(TextFields(EquivActive(g, a), sa), TextFields(EquivActive(g, b), sb));
      HeaderReadsBack(EquivActive(g, a), sa, EquivActive(g, b), sb, CommitmentActive(g, a), CommitmentActive(g, b));
      BaseOfRawFields(sa, sb, CommitmentActive(g, a), CommitmentActive(g, b));
      RawFieldsReadBack(sa, sb, CommitmentActive(g, a));
    }
  }

  // ---- Why a missing commitment must be refused ----------------------------------------------------

  /** Without that refusal the text is ambiguous: after the flag day every rooted checkpoint without a
      fold has a rootless twin that prints the same, its fold reading like the roots. */
  lemma RootlessFoldPrintsLikeRoots(g: Gates, rooted: Checkpoint) returns (rootless: Checkpoint)
    requires CommitmentActive(g, rooted) && HasRoots(rooted) && !HasSupersedeFields(rooted) && rooted.fold.None?
    ensures RawText(g, rooted).Ok? && RawText(g, rootless) == RawText(g, rooted)
    ensures CommitmentMissing(g, rootless) && rootless.fold.Some?
  {
    var imitation := Fold(Lower(rooted.stateRoot.value), rooted.stateRootVersion.value,
                          rooted.blockMerkleRoot.value, rooted.blockMerkleVersion.value);
    rootless := rooted.(stateRoot := None, stateRootVersion := None, blockMerkleRoot := None,
                        blockMerkleVersion := None, fold := Some(imitation));
    var base, four := Join(BaseFields(rooted)), Join(RootFields(rooted));
    assert FoldFields(imitation) == RootFields(rooted);
    assert BaseFields(rootless) == BaseFields(rooted);
    assert base + "" == base && (base + "|" + four) + "" == base + "|" + four;
  }
}
