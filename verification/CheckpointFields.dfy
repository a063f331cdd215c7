/** What is admitted to verification and what a signature fixes, field by field. */
module CheckpointFields {
  import opened Options
  import opened PipeText
  import opened CheckpointText
  import opened CheckpointSigning

  ghost predicate Given(s: Option<string>) {
    exists text :: s == Some(text) && text != ""
  }

  /** Admitted exactly when an active commitment has both roots and both versions, and superseding fields are absent, or
      active and both there: a safe height and 64 hexadecimal digits. */
  lemma AdmissibleExactly(g: Gates, cp: Checkpoint)
    ensures Admissible(g, cp) <==> (
              && (g.commitment(cp.snapshotBlock, cp.network) ==>
                    Given(cp.stateRoot) && Given(cp.blockMerkleRoot) && cp.stateRootVersion.Some? && cp.blockMerkleVersion.Some?)
              && ((cp.supersedesFrom.None? && cp.rulesDigest.None?)
                  || (g.supersede(cp.snapshotBlock, cp.network) && cp.supersedesFrom.Some? && cp.supersedesFrom.value.Safe?
                      && cp.rulesDigest.Some? && |cp.rulesDigest.value| == 64 && IsHex(cp.rulesDigest.value))))
  {
    assert Given(cp.stateRoot) <==> cp.stateRoot.Some? && cp.stateRoot.value != "";
    assert Given(cp.blockMerkleRoot) <==> cp.blockMerkleRoot.Some? && cp.blockMerkleRoot.value != "";
  }

  /** The ten fields every checkpoint has. */
  ghost predicate SameBase(a: Checkpoint, b: Checkpoint) {
    && a.chain == b.chain && a.network == b.network && a.blockIndex == b.blockIndex && a.blockHash == b.blockHash
    && a.ledgerHash == b.ledgerHash && a.actionsHash == b.actionsHash && a.contractHash == b.contractHash
    && a.checkpointSeq == b.checkpointSeq && a.snapshotBlock == b.snapshotBlock
  }

  /** The roots up to letter case, and their versions. */
  ghost predicate SameRoots(a: Checkpoint, b: Checkpoint)
    requires HasRoots(a) && HasRoots(b)
  {
    && Lower(a.stateRoot.value) == Lower(b.stateRoot.value) && a.stateRootVersion == b.stateRootVersion
    && Lower(a.blockMerkleRoot.value) == Lower(b.blockMerkleRoot.value) && a.blockMerkleVersion == b.blockMerkleVersion
  }

  ghost predicate SameSupersede(a: Checkpoint, b: Checkpoint) {
    && a.supersedesFrom == b.supersedesFrom && a.rulesDigest.Some? == b.rulesDigest.Some?
    && (a.rulesDigest.Some? ==> Lower(a.rulesDigest.value) == Lower(b.rulesDigest.value))
  }

  ghost predicate SameFold(a: Checkpoint, b: Checkpoint) {
    && a.fold.Some? == b.fold.Some?
    && (a.fold.Some? ==>
          && a.fold.value.matchBatchSeq == b.fold.value.matchBatchSeq && a.fold.value.matchCount == b.fold.value.matchCount
          && Lower(a.fold.value.batchCrc32) == Lower(b.fold.value.batchCrc32)
          && a.fold.value.totalChunks == b.fold.value.totalChunks)
  }

  lemma BaseIsNine(a: Checkpoint, b: Checkpoint)
    ensures BaseFields(a) == BaseFields(b) <==> SameBase(a, b)
  {
    var x, y := BaseFields(a), BaseFields(b);
    assert x[1] == a.chain && x[2] == a.network && x[3] == a.blockIndex && x[4] == a.blockHash && x[5] == a.ledgerHash;
    assert x[6] == a.actionsHash && x[7] == a.contractHash && x[8] == a.checkpointSeq && x[9] == a.snapshotBlock;
    assert y[1] == b.chain && y[2] == b.network && y[3] == b.blockIndex && y[4] == b.blockHash && y[5] == b.ledgerHash;
    assert y[6] == b.actionsHash && y[7] == b.contractHash && y[8] == b.checkpointSeq && y[9] == b.snapshotBlock;
  }

  lemma RootsAreFour(a: Checkpoint, b: Checkpoint)
    requires HasRoots(a) && HasRoots(b)
    ensures RootFields(a) == RootFields(b) <==> SameRoots(a, b)
  {
    var x, y := RootFields(a), RootFields(b);
    assert x[0] == Lower(a.stateRoot.value) && x[1] == a.stateRootVersion.value;
    assert x[2] == Lower(a.blockMerkleRoot.value) && x[3] == a.blockMerkleVersion.value;
    assert y[0] == Lower(b.stateRoot.value) && y[1] == b.stateRootVersion.value;
    assert y[2] == Lower(b.blockMerkleRoot.value) && y[3] == b.blockMerkleVersion.value;
  }

  lemma FoldIsFour(a: Fold, b: Fold)
    ensures FoldFields(a) == FoldFields(b) <==> (
              && a.matchBatchSeq == b.matchBatchSeq && a.matchCount == b.matchCount
              && Lower(a.batchCrc32) == Lower(b.batchCrc32) && a.totalChunks == b.totalChunks)
  {
    var x, y := FoldFields(a), FoldFields(b);
    assert x[0] == a.matchBatchSeq && x[1] == a.matchCount && x[2] == Lower(a.batchCrc32) && x[3] == a.totalChunks;
    assert y[0] == b.matchBatchSeq && y[1] == b.matchCount && y[2] == Lower(b.batchCrc32) && y[3] == b.totalChunks;
  }

  /** One text is signed exactly for equal fields: the nine that are always there, with an active commitment the roots
      and versions, and the superseding and folded fields when there are any. */
  lemma TextFixesEveryField(g: Gates, a: Checkpoint, b: Checkpoint)
    requires Admissible(g, a) && Admissible(g, b) && FieldsPipeFree(a) && FieldsPipeFree(b)
    ensures CanonicalCheckpoint(g, a) == CanonicalCheckpoint(g, b) <==> (
              && SameBase(a, b)
              && (g.commitment(a.snapshotBlock, a.network) ==> HasRoots(a) && HasRoots(b) && SameRoots(a, b))
              && SameSupersede(a, b) && SameFold(a, b))
  {
    SigningTextIsUnambiguous(g, a, b);
    BaseIsNine(a, b);
    if SameBase(a, b) && g.commitment(a.snapshotBlock, a.network) {
      RootsAreFour(a, b);
    }
    if a.fold.Some? && b.fold.Some? {
      FoldIsFour(a.fold.value, b.fold.value);
    }
    assert a.fold.Some? ==> FoldFields(a.fold.value) != [];
    assert b.fold.Some? ==> FoldFields(b.fold.value) != [];
  }
}
