/** The canonical text a checkpoint is signed over. */
module CheckpointText {
  import opened Options
  import opened Decimal
  import opened PipeText

  /** The folded archive of a wrapper section. */
  datatype Fold = Fold(matchBatchSeq: string, matchCount: string, batchCrc32: string, totalChunks: string)

  /** `supersedes_from` as a number: a non-negative safe integer, or not one. */
  datatype Height = NotSafe | Safe(height: nat)

  /** Fields as the texts they print to. Optional ones are absent when null. */
  datatype Checkpoint = Checkpoint(
    chain: string, network: string, blockIndex: string, blockHash: string, ledgerHash: string,
    actionsHash: string, contractHash: string, checkpointSeq: string, snapshotBlock: string,
    stateRoot: Option<string>, stateRootVersion: Option<string>,
    blockMerkleRoot: Option<string>, blockMerkleVersion: Option<string>,
    supersedesFrom: Option<Height>, rulesDigest: Option<string>,
    fold: Option<Fold>)

  type Gate = (string, string) -> bool

  /** The flag days, each a predicate of snapshot block and network. */
  datatype Gates = Gates(commitment: Gate, supersede: Gate, equiv: Gate)

  predicate CommitmentActive(g: Gates, cp: Checkpoint) {
    g.commitment(cp.snapshotBlock, cp.network)
  }

  predicate SupersedeActive(g: Gates, cp: Checkpoint) {
    g.supersede(cp.snapshotBlock, cp.network)
  }

  predicate EquivActive(g: Gates, cp: Checkpoint) {
    g.equiv(cp.snapshotBlock, cp.network)
  }

  // ---- The text as the source builds it -----------------------------------------------------------

  function BaseFields(cp: Checkpoint): (f: seq<string>)
    ensures |f| == 10
  {
    ["XCHECKPOINT", cp.chain, cp.network, cp.blockIndex, cp.blockHash, cp.ledgerHash, cp.actionsHash,
     cp.contractHash, cp.checkpointSeq, cp.snapshotBlock]
  }

  predicate HasRoots(cp: Checkpoint) {
    cp.stateRoot.Some? && cp.blockMerkleRoot.Some? && cp.stateRootVersion.Some? && cp.blockMerkleVersion.Some?
  }

  function RootFields(cp: Checkpoint): seq<string>
    requires HasRoots(cp)
  {
    [Lower(cp.stateRoot.value), cp.stateRootVersion.value, Lower(cp.blockMerkleRoot.value), cp.blockMerkleVersion.value]
  }

  function FoldFields(f: Fold): seq<string> {
    [f.matchBatchSeq, f.matchCount, Lower(f.batchCrc32), f.totalChunks]
  }

  predicate HasSupersedeFields(cp: Checkpoint) {
    cp.supersedesFrom.Some? || cp.rulesDigest.Some?
  }

  predicate IsDigest64(s: string) {
    |s| == 64 && IsHex(s)
  }

  /** Throws unless both fields are present and well-formed. */
  function SupersedeSuffix(cp: Checkpoint): Result<string> {
    if !HasSupersedeFields(cp) then Ok("")
    else if cp.supersedesFrom.None? || cp.rulesDigest.None? then Refused
    else if cp.supersedesFrom.value.NotSafe? || !IsDigest64(cp.rulesDigest.value) then Refused
    else Ok("|SUPERSEDE|" + ToDecimal(cp.supersedesFrom.value.height) + "|" + Lower(cp.rulesDigest.value))
  }

  /** The text before the equivocation header, by appending the suffixes that apply. */
  function RawText(g: Gates, cp: Checkpoint): Result<string> {
    var base := Join(BaseFields(cp));
    var rooted := if CommitmentActive(g, cp) && HasRoots(cp) then base + "|" + Join(RootFields(cp)) else base;
    var suffix := if SupersedeActive(g, cp) && HasSupersedeFields(cp) then SupersedeSuffix(cp) else Ok("");
    if suffix.Refused? then Refused
    else
      var superseded := rooted + suffix.value;
      Ok(if cp.fold.Some? then superseded + "|" + Join(FoldFields(cp.fold.value)) else superseded)
  }

  function RoundId(cp: Checkpoint): string {
    cp.chain + "|" + cp.network + "|" + cp.blockIndex + "|" + cp.checkpointSeq
    + if cp.fold.Some? then "|" + cp.fold.value.matchBatchSeq else ""
  }

  /** EQUIV|TAG|ROUND|VIEW||CONTENT, once the flag day has passed. */
  function CanonicalCheckpoint(g: Gates, cp: Checkpoint): Result<string> {
    var raw := RawText(g, cp);
    if raw.Ok? && EquivActive(g, cp)
    then Ok("EQUIV|" + ("XCHECKPOINT" + "|" + RoundId(cp) + "|" + "0") + "||" + raw.value)
    else raw
  }

  // ---- Structural rejection -----------------------------------------------------------------------

  predicate Blank(s: Option<string>) {
    s.None? || s.value == ""
  }

  /** Active, yet a required field is absent; an empty root counts as absent, a version only when null. */
  predicate CommitmentMissing(g: Gates, cp: Checkpoint) {
    CommitmentActive(g, cp)
    && (Blank(cp.stateRoot) || Blank(cp.blockMerkleRoot) || cp.stateRootVersion.None? || cp.blockMerkleVersion.None?)
  }

  predicate SupersessionDisallowed(g: Gates, cp: Checkpoint) {
    HasSupersedeFields(cp) && !SupersedeActive(g, cp)
  }

  /** What verification lets through to the signatures. */
  predicate Admissible(g: Gates, cp: Checkpoint) {
    CanonicalCheckpoint(g, cp).Ok? && !CommitmentMissing(g, cp) && !SupersessionDisallowed(g, cp)
  }

  // ---- The fields that are signed -------------------------------------------------------------------

  /** The signed content, up to letter case of roots, checksum and digest. The roots and versions
      are outside it before the commitment flag day. */
  datatype Signed = Signed(base: seq<string>, roots: seq<string>, supersede: Option<(nat, string)>, fold: seq<string>)

  function SignedFields(g: Gates, cp: Checkpoint): Signed
    requires Admissible(g, cp)
  {
    Signed(BaseFields(cp),
           if CommitmentActive(g, cp) then RootFields(cp) else [],
           if HasSupersedeFields(cp) then Some((cp.supersedesFrom.value.height, Lower(cp.rulesDigest.value))) else None,
           if cp.fold.Some? then FoldFields(cp.fold.value) else [])
  }

  function SupersedeFields(s: Signed): (f: seq<string>)
    ensures |f| == if s.supersede.Some? then 3 else 0
  {
    if s.supersede.Some? then ["SUPERSEDE", ToDecimal(s.supersede.value.0), s.supersede.value.1] else []
  }

  /** All fields of the raw text in order. */
  function RawFields(s: Signed): seq<string> {
    s.base + s.roots + SupersedeFields(s) + s.fold
  }

  /** All fields of the signed text: behind the header when there is one. */
  function TextFields(wrapped: bool, s: Signed): seq<string>
    requires |s.base| == 10 && |s.fold| in {0, 4}
  {
    if wrapped then
      ["EQUIV", "XCHECKPOINT", s.base[1], s.base[2], s.base[3], s.base[8]]
      + (if |s.fold| == 4 then [s.fold[0]] else []) + ["0", ""] + RawFields(s)
    else RawFields(s)
  }

  predicate FieldsPipeFree(cp: Checkpoint) {
    && AllPipeFree(BaseFields(cp))
    && (cp.stateRoot.Some? ==> PipeFree(cp.stateRoot.value))
    && (cp.stateRootVersion.Some? ==> PipeFree(cp.stateRootVersion.value))
    && (cp.blockMerkleRoot.Some? ==> PipeFree(cp.blockMerkleRoot.value))
    && (cp.blockMerkleVersion.Some? ==> PipeFree(cp.blockMerkleVersion.value))
    && (cp.fold.Some? ==> AllPipeFree([cp.fold.value.matchBatchSeq, cp.fold.value.matchCount,
                                       cp.fold.value.batchCrc32, cp.fold.value.totalChunks]))
  }

  lemma SupersedeSuffixIsFields(cp: Checkpoint, text: string, s: Signed)
    requires HasSupersedeFields(cp) && SupersedeSuffix(cp).Ok?
    requires s.supersede == Some((cp.supersedesFrom.value.height, Lower(cp.rulesDigest.value)))
    ensures text + SupersedeSuffix(cp).value == Continued(text, SupersedeFields(s))
  {
    var number, digest := ToDecimal(s.supersede.value.0), s.supersede.value.1;
    var f := SupersedeFields(s);
    assert f[1..] == [number, digest] && f[1..][1..] == [digest];
    assert Join([digest]) == digest && Join([number, digest]) == number + "|" + digest;
    assert Join(f) == "SUPERSEDE" + "|" + (number + "|" + digest);
    assert SupersedeSuffix(cp).value == "|" + Join(f);
    assert text + ("|" + Join(f)) == text + "|" + Join(f);
  }

  lemma RawTextContinues(g: Gates, cp: Checkpoint)
    requires Admissible(g, cp)
    ensures
      var s := SignedFields(g, cp);
      RawText(g, cp) == Ok(Continued(Continued(Continued(Join(s.base), s.roots), SupersedeFields(s)), s.fold))
  {
    var s := SignedFields(g, cp);
    if HasSupersedeFields(cp) {
      SupersedeSuffixIsFields(cp, Continued(Join(s.base), s.roots), s);
    } else {
      assert Continued(Join(s.base), s.roots) + "" == Continued(Join(s.base), s.roots);
    }
  }

  lemma RawTextIsJoined(g: Gates, cp: Checkpoint)
    requires Admissible(g, cp)
    ensures RawText(g, cp) == Ok(Join(RawFields(SignedFields(g, cp))))
  {
    var s := SignedFields(g, cp);
    RawTextContinues(g, cp);
    ContinuedIsJoin(s.base, s.roots);
    ContinuedIsJoin(s.base + s.roots, SupersedeFields(s));
    ContinuedIsJoin(s.base + s.roots + SupersedeFields(s), s.fold);
  }

  function RoundFields(cp: Checkpoint): seq<string> {
    ["EQUIV", "XCHECKPOINT", cp.chain, cp.network, cp.blockIndex, cp.checkpointSeq]
  }

  function RoundSuffix(cp: Checkpoint): seq<string> {
    if cp.fold.Some? then [cp.fold.value.matchBatchSeq] else []
  }

  lemma RoundTextIsJoined(cp: Checkpoint)
    ensures "EQUIV|" + ("XCHECKPOINT" + "|" + RoundId(cp)) == Continued(Join(RoundFields(cp)), RoundSuffix(cp))
  {
    var inner := cp.chain + "|" + cp.network + "|" + cp.blockIndex + "|" + cp.checkpointSeq;
    JoinSix(RoundFields(cp));
    var text := "EQUIV" + "|" + ("XCHECKPOINT" + "|" + inner);
    assert Join(RoundFields(cp)) == text;
    if cp.fold.Some? {
      var last := cp.fold.value.matchBatchSeq;
      assert RoundId(cp) == inner + "|" + last;
    } else {
      assert RoundId(cp) == inner;
    }
  }

  lemma HeaderText(round: string, raw: string)
    ensures "EQUIV|" + ("XCHECKPOINT" + "|" + round + "|" + "0") + "||" + raw ==
            "EQUIV|" + ("XCHECKPOINT" + "|" + round) + "|" + "0|" + "|" + raw
  {
  }

  lemma HeaderIsJoined(g: Gates, cp: Checkpoint)
    requires Admissible(g, cp)
    ensures CanonicalCheckpoint(g, cp) == Ok(Join(TextFields(EquivActive(g, cp), SignedFields(g, cp))))
  {
    var raw := RawFields(SignedFields(g, cp));
    RawTextIsJoined(g, cp);
    if EquivActive(g, cp) {
      var round := RoundFields(cp) + RoundSuffix(cp);
      RoundTextIsJoined(cp);
      HeaderText(RoundId(cp), Join(raw));
      ContinuedIsJoin(RoundFields(cp), RoundSuffix(cp));
      ContinuedIsJoin(round, ["0", ""]);
      ContinuedIsJoin(round + ["0", ""], raw);
      assert ["0", ""][1..] == [""] && Join(["0", ""]) == "0|";
    }
  }

  lemma JoinSix(f: seq<string>)
    requires |f| == 6
    ensures Join(f) == f[0] + "|" + (f[1] + "|" + (f[2] + "|" + (f[3] + "|" + (f[4] + "|" + f[5]))))
  {
    var f1, f2 := f[1..], f[1..][1..];
    var f3, f4, f5 := f2[1..], f2[1..][1..], f2[1..][1..][1..];
    assert Join(f5) == f[5] && Join(f4) == f[4] + "|" + f[5];
    assert Join(f3) == f[3] + "|" + Join(f4);
    assert Join(f2) == f[2] + "|" + Join(f3);
    assert Join(f1) == f[1] + "|" + Join(f2);
  }
}
