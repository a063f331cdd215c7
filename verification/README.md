# Verified model of the XChain SDK's checks

This project models the parts of the SDK whose answers other parties rely on, and proves what those answers mean.
It covers the light-client Merkle layer, the gate a remote encoder's transaction passes before it is signed, the
checkpoint verifier with both of its quorum rules, the audit gate, the pinned-title comparison with its split record,
the JSON printer behind idempotency keys, the digest line normaliser, and the UTXO cache.

`dafny verify dfyconfig.toml` checks all of it.

## How the model is laid out

Code that updates state is a method or a class, proved against a specification function or predicate. What the source
promises is then proved about that specification, over all inputs, all runs or all interleavings.

| area | files |
|---|---|
| byte layer, maps, key bits, shared facts | `Primitives`, `OrderedMap`, `KeyBits`, `JsText`, `Collections`, `Sums`, `Options` |
| sparse Merkle tree | `SparseMerkle` (tree and roots), `SmtProofs`, `CompressedProofs`, `ProofShape` (which siblings are real), `SparseMerkleTree` (the object) |
| fixed Merkle tree and state root | `FixedMerkle` (definition and proofs), `FixedMerkleLoops` (the code's loops), `StateRoot`, `LayeredProofs`, `BalanceProofs` (the light client's balance check) |
| amounts | `Decimal`, `Amounts`, `AmountTexts` |
| pre-signature gate | `Reconcile` (the verdict on whole transactions), `ReconcileGate` (the running checks), `ReconcileLoss`, `ReconcileOrder`, `ReconcileVerdict` (the verdict in plain terms) |
| checkpoints | `PipeText`, `CheckpointText`, `CheckpointSigning`, `CheckpointFields`, `StakeQuorum`, `CheckpointVerify`, `CheckpointLiveness`, `CheckpointAgreement` |
| audit gate | `AuditGate` |
| title pin | `SuiteTitleMap`, `ComparisonFindings`, `DeclaredMoves`, `SplitMap`, `SplitRecords`, `SplitGrading`, `SplitCompare`, `SplitTheorems`, `SplitConservation`, `SplitClashes` |
| canonical JSON | `KeyOrder`, `JsonText`, `CanonicalJson`, `JsonReader` (the parser), `IdempotencyKey`, `CanonicalText` |
| digest lines | `DigestPieces` (the loop and the normal form), `DigestStability`, `DigestSpaces`, `DigestProtection` |
| UTXO cache | `UtxoCache`, `UtxoSpeculative` |

Three choices matter for reading the theorems.

- No hash into 32 real bytes is injective, so assuming that would make every theorem vacuous. `Primitives` lets a symbol
  be any integer: an ideal hash with 32-symbol digests then exists (`IdealHashExists`), while the lengths of hashed texts
  stay those of the source. That keeps visible what goes wrong when two fields are concatenated: a proof whose leaf does
  not have 32 symbols can be accepted (`WrongLengthLeafIsAccepted`).
- The depth of the sparse tree is a parameter; 256 is one instance.
- `Reconcile.Accepts` states the gate's verdict without any order of evaluation. `ReconcileGate.ReconcileEncoded` proves
  that the one-pass code decides exactly that.

Properties that turned out to need a condition:

- With no empty leaf stored, what the sparse verifier accepts for a key is what the tree holds under it exactly when it is
  null, or a 32-symbol leaf for a key of the tree's depth (`LengthsDecideHonesty`). A leaf of another length can be false
  (`WrongLengthLeafIsAccepted`), and a key of another length is read as the one its bits give (`OtherLengthKeyIsAccepted`).
- Compression undoes decompression exactly when the bitmap has the right length and no listed sibling is the constant of
  its depth (`CompressUndoesDecompress`, `ListedEmptyIsNotRestored`).
- The canonical JSON of a number that overflows to infinity is that of null, and minus zero prints as zero; apart from
  that, equal texts are equal values up to key order (`EqualTextMeansSameValue`, `InfinityPrintsAsNull`,
  `MinusZeroPrintsAsZero`). A text determines its value exactly when no such number is in it (`PlainIsDetermined`).
- The digest normaliser loses a protected line feed exactly when it ends a blank line behind an unprotected carriage
  return (`ProtectedIsKeptExactly`, `ProtectedLineFeedIsLost`).
- White space put in front of a line ending is seen in exactly one case: it cuts a line feed off its carriage return,
  and either the line before it and the lone line feed are not kept or dropped alike, or the text ends in an unended
  line, which repeats the ending (`SpacesBeforeEndingVanish`). A line with text shows the cut (`CutPairIsSeen`), a blank
  one does not (`BlankCutIsNotSeen`).
- A spent mark survives a run exactly when some mark of it is followed by no invalidation and by no refresh of another
  address (`MarkSurvivesExactly`).
- The UTXO cache offers an outpoint twice exactly when an unspent one is both confirmed and speculative
  (`OfferedTwiceExactly`), and a refresh of another address forgets the marks (`AnotherAddressForgetsTheMark`).
- The UTXO list held belongs to the address held exactly when the last answer to arrive is for the address whose refresh
  began last (`HoldsItsOwnExactly`); it does not when an older refresh answers last (`OlderRefreshAnswersLast`).
- An empty title comparison means that no title was lost exactly when no two of a script's pinned files are renamed to
  one path (`RunsDecideExactly`): of such files only the last in the order read has a say (`OnlyLastFilesDecide`), so a
  clash always has a pin that loses a title unnoticed (`ClashLosesTitle`).
- The code checks neither the number of siblings above a sub-root nor that the claimed leaf is no hash of two nodes. Over
  trees of hashed rows the two go together: an accepted pair of proofs with a 32-symbol leaf, or null, is honest exactly
  when the upper one has three siblings, and exactly when the claimed leaf is no hash of two nodes, which a hashed row
  never is (`LayeredProofsAreHonest`).
  Every state accepts an inner node as a leaf under two siblings (`InnerNodeIsAccepted`). The balance check is safe, as it
  claims only hashed amounts (`VerifiedAmountIsCommitted`).

## Model

| member | source | states |
|---|---|---|
| Primitives.IdealHashExists | src/merkle/primitives.js:57-65 | a hash with 32-symbol digests and no collisions exists in this model, so the theorems that assume one are not vacuous |
| Primitives.NodeHashFixesConcatenation | src/merkle/primitives.js:63-65 | a node hash fixes the concatenation of its children, and no more when their lengths are unknown |
| Primitives.NodeHashInjective | src/merkle/primitives.js:63-65 | with 32-symbol left children, equal node hashes have equal children |
| Primitives.DomainsAreSeparate | src/merkle/primitives.js:46-49 | leaf hashes, node hashes and the empty leaf are never equal, as section 2.1 of RFC 6962 asks |
| Primitives.LeafHashInjective | src/merkle/primitives.js:59-62 | equal leaf hashes have equal content |
| Primitives.EmptyIsDigest | src/merkle/primitives.js:71-76 | every constant of the empty-subtree table is a digest |
| KeyBits.PathDeterminesBuffer | src/merkle.js:81-83 | two key buffers with the same bit path are the same buffer |
| KeyBits.BitIsBinaryDigit | src/merkle.js:81-83 | bit i of a path is binary digit i modulo 8 of byte i / 8, the most significant first |
| KeyBits.FitCutsOrPads | src/merkle.js:81-83 | a longer key is read as its first bits, a shorter one as if clear bits followed |
| OrderedMap.PutContents | src/merkle.js:104-108 | setting a key overwrites its value and leaves all other entries, one per key |
| OrderedMap.RemoveContents | src/merkle.js:106-109 | deleting a key removes exactly that entry |
| OrderedMap.PutKeepsPlaces | src/merkle.js:104-108 | setting a present key keeps its place, a new one goes last |
| SparseMerkle.PrunedIsFull | src/merkle.js:90-96 | the pruned recursion gives the root of the full, unpruned subtree in which absent paths hold the empty leaf |
| SparseMerkle.FullNodeDeterminesStored | src/merkle.js:90-96 | equal full roots store the same leaf on every path below |
| SparseMerkle.RootIsCanonical | src/merkle.js:90-120 | two trees have one root exactly when their maps without empty leaves are equal |
| SparseMerkle.RootDeterminesMap | src/merkle.js:90-120 | with no stored leaf equal to the empty leaf, equal roots mean equal maps and conversely |
| SparseMerkle.StoringTheEmptyLeafIsInvisible | src/merkle.js:101-103 | storing the empty leaf changes the map but not the root, which is why callers must delete instead |
| SparseMerkle.HistoryBuildsItsMap | src/merkle.js:98-109 | any history of sets and deletes yields a well-formed tree holding what the history leaves in a plain map |
| SparseMerkle.RootForgetsHistory | src/merkle.js:98-120 | two histories reach one root exactly when they end in the same visible map |
| MerkleTreeObject.SparseMerkleTree.constructor | src/merkle.js:98-99 | a new tree is valid and empty |
| MerkleTreeObject.SparseMerkleTree.Set | src/merkle.js:104-108 | for any key and leaf the model map afterwards has the key set, or removed for null, and nothing else changed; keys of the depth and 32-symbol leaves keep it a tree |
| MerkleTreeObject.SparseMerkleTree.Delete | src/merkle.js:109 | the model map afterwards lacks exactly that key |
| MerkleTreeObject.SparseMerkleTree.RootOf | src/merkle.js:119-120 | the root of the held entries, their keys read bit by bit to the depth, pruned and full alike |
| MerkleTreeObject.SparseMerkleTree.Prove | src/merkle.js:125-140 | for any key the siblings verify, plain and compressed, with the leaf its bits lead to, which is the stored leaf or null that the answer carries when keys have the depth |
| SmtProofs.Split | src/merkle.js:130-131 | the loop separates the entries by their bit, keeping order |
| SmtProofs.ProveSiblings | src/merkle.js:125-136 | the descending loop collects the roots of the subtrees beside the path |
| SmtProofs.VerifySmtProof | src/merkle.js:145-154 | true exactly for a full-length sibling list whose climb from the leaf, or the empty leaf, gives the root, for keys of any length |
| SmtProofs.ProofsVerify | src/merkle.js:122-154 | for every tree and key the tree's own proof is accepted, for present and for absent keys |
| SmtProofs.AcceptedExactly | src/merkle.js:145-154 | acceptance exactly: the siblings above the deepest are the tree's own and the deepest pair reads as the same text |
| SmtProofs.AcceptedProofsAreHonest | src/merkle.js:143-154 | an accepted 32-symbol leaf, or null, is what the tree stores, with exactly the tree's siblings |
| SmtProofs.AcceptedLeafIsStored | src/merkle.js:143-154 | for a key of any length an accepted leaf has 32 symbols exactly when it is the value stored where the key's bits lead, with the tree's own siblings there |
| SmtProofs.LengthsDecideHonesty | src/merkle.js:143-154 | with no empty leaf stored, what is accepted for a key of any length is what the tree holds under that key exactly when it is null, or a 32-symbol leaf for a key of the depth |
| SmtProofs.OtherLengthKeyIsAccepted | src/merkle.js:81-83 | a key of another length is accepted with the leaf stored under the key it is read as, though the tree holds nothing under it |
| SmtProofs.WrongLengthLeafIsAccepted | src/merkle.js:148-153 | without the length condition soundness fails for every tree and key |
| CompressedProofs.CompressSmtProof | src/merkle.js:161-172 | throws exactly on fewer siblings than the depth; otherwise the bitmap marks exactly the siblings that differ from their depth's constant, and those are listed in order |
| CompressedProofs.DecompressSmtProof | src/merkle.js:173-184 | throws exactly when the number of set bits differs from the number of listed siblings |
| CompressedProofs.VerifyCompressedSmtProof | src/merkle.js:185-187 | the plain verdict on the decompressed siblings, with the same error condition, for keys of any length |
| CompressedProofs.DecompressUndoesCompress | src/merkle.js:161-184 | decompression restores every sibling vector |
| CompressedProofs.CompressionIsUnique | src/merkle.js:156-172 | a sibling vector has one compressed form |
| CompressedProofs.CompressUndoesDecompress | src/merkle.js:161-184 | compression restores a compressed form exactly when its bitmap is full length and it lists no empty constant |
| CompressedProofs.ListedEmptyIsNotRestored | src/merkle.js:161-184 | a form that lists an empty constant is expanded and not restored |
| CompressedProofs.CompressedVerificationAgrees | src/merkle.js:185-187 | compressed and plain verification give one verdict on every sibling vector |
| ProofShape.SiblingIsEmptyExactly | src/merkle.js:125-136 | a sibling of a tree's proof is the constant of its depth exactly when no stored key leaves the path there |
| ProofShape.BitsSayWhatIsStored | src/merkle.js:161-172 | the bitmap of a tree's proof has a bit set exactly where a stored key leaves the path |
| ProofShape.BitmapIsBinary | src/merkle.js:166-167 | the bit of a depth is a binary digit of the bitmap, the most significant of each byte first |
| ProofShape.EmptyTreeListsNothing | src/merkle.js:161-172 | an empty tree's compressed proof lists no sibling |
| FixedMerkleLoops.NextPow2 | src/merkle.js:193 | the least power of two not below the count |
| FixedMerkleLoops.FixedMerkleRoot | src/merkle.js:195-206 | the bottom-up padded loop computes the root of the recursively halved tree |
| FixedMerkleLoops.FixedMerkleProof | src/merkle.js:209-225 | refuses exactly an index out of range and otherwise returns the siblings of that position in the halved tree |
| FixedMerkleLoops.VerifyFixedMerkleProof | src/merkle.js:226-234 | the loop accepts exactly when the climb along the index bits gives the root |
| FixedMerkleLoops.MergeKeepsRoot | src/merkle.js:200-204 | hashing the lowest pairs of a tree together keeps its root |
| FixedMerkleLoops.MergeIsNextLayer | src/merkle.js:200-204 | the hashed pairs of a layer are the layer of the merged tree |
| FixedMerkle.FixedProofsVerify | src/merkle.js:209-234 | every in-range proof is accepted for the leaf at its index |
| FixedMerkle.AcceptedFixedProofsAreHonest | src/merkle.js:226-234 | a leaf accepted with log2(width) siblings is the padded vector's entry at the index modulo the width, with that vector's own siblings |
| FixedMerkle.PositionIsModulo | src/merkle.js:228-231 | reading k bits of any index, negative ones included, gives the index modulo 2^k |
| FixedMerkle.AcceptedFixedExactly | src/merkle.js:226-234 | for a leaf of any length, log2(width) siblings are accepted exactly when those above the deepest are the vector's own and the deepest pair reads as the same text |
| FixedMerkle.ContentFixesLength | src/merkle.js:189-192 | over hashed leaves no proof of another length is accepted for a hashed leaf, because leaf and node hashes never meet |
| FixedMerkle.SiblingCountDecidesContent | src/merkle.js:226-234 | over hashed leaves an accepted 32-symbol leaf is not the hash of two nodes exactly when the proof has log2(width) siblings |
| FixedMerkle.ContentProofNamesItsRow | src/merkle.js:189-234 | in a tree of hashed rows an accepted proof of any length and index proves the row at the index modulo the width |
| StateRoot.StateRootOf | src/merkle.js:243-246 | the fixed root over the five named sub-roots, an absent one being the empty tree's |
| StateRoot.StateRootProof | src/merkle.js:248-253 | refuses exactly unknown names; for all five, absent ones included, three siblings that verify |
| StateRoot.AcceptedSubRoot | src/merkle.js:226-253 | a sub-root accepted by three siblings at a sub-tree's index is that sub-tree's root |
| LayeredProofs.LayeredProofsAreHonest | src/merkle.js:145-253 | over trees of hashed rows, two accepted proofs with a 32-symbol leaf or null prove what the committed sub-tree holds where the key's bits lead exactly when the upper one has three siblings, and exactly when the claimed leaf is not the hash of two nodes |
| LayeredProofs.LayeredLeafIsHeldExactly | src/merkle.js:145-253 | with no empty leaf stored, the accepted leaf is the one held under the key itself exactly when it is null, or not the hash of two nodes and for a key of the depth |
| LayeredProofs.InnerNodeIsAccepted | src/merkle.js:226-234 | every state accepts, for every key, a false 32-symbol leaf under two siblings: an inner node |
| BalanceProofs.VerifyBalanceProof | src/protocol/light_client/proof_checks.js:48-91 | verified exactly when request, key, amount and leaf fit and both proofs lead to the trusted root at slot 0, returning the canonical amount |
| BalanceProofs.VerifiedAmountIsCommitted | src/protocol/light_client/proof_checks.js:48-91 | a verified proof returns the amount the trusted state commits for the proof's own address and tick, zero where it commits none |
| BalanceProofs.HonestProofVerifies | src/protocol/light_client/proof_checks.js:48-91 | the state's own proof of every balance verifies for every request it fits, with the committed amount |
| BalanceProofs.RequestedAmountIsCommitted | src/protocol/light_client/proof_checks.js:53-83 | a proof verified for a requested address and tick is of this address and tick, and its amount is what the trusted state commits for them, zero when nothing |
| BalanceProofs.NullVerifiesNothing | src/protocol/light_client/proof_checks.js:53-56 | a request for a null address or tick is answered by no proof |
| BalanceProofs.HonestProofAnswersExactly | src/protocol/light_client/proof_checks.js:48-91 | the state's own proof of a balance answers exactly the requests that leave address and tick open or name these two |
| BalanceProofs.VerifiesExactly | src/protocol/light_client/proof_checks.js:48-91 | a proof verifies exactly when it answers the request so and is the state's own: key, leaf, both roots' siblings, slot, and a text of the committed amount |
| Decimal.DecimalRoundTrip | src/merkle.js:73 | printing a number in decimal and reading it back gives the number, without superfluous zeros |
| Amounts.CanonicalAmountKeepsValue | src/merkle/primitives.js:86-94 | accepts exactly the well-formed amounts and prints their value canonically |
| Amounts.CanonicalIsUnique | src/merkle/primitives.js:81-94 | a value has one canonical text |
| Amounts.CanonicalMeansItsUnits | src/merkle/primitives.js:86-94 | a canonical amount is its own canonical form |
| Amounts.PrintUnitsIsCanonical | src/merkle.js:73-77 | padding and slicing on both sides of 18 digits print the number of units canonically |
| Amounts.SumCanonicalAmounts | src/merkle.js:67-78 | refused when any amount is; otherwise the canonical text of the exact sum |
| Amounts.SumIgnoresOrder | src/merkle.js:64-78 | the answers for two orders of the same amounts are the same text |
| Amounts.SumIgnoresGrouping | src/merkle.js:64-78 | summing some amounts first and the rest with that sum gives the same units |
| JsText.SpaceCodes | src/merkle/primitives.js:88 | white space and line endings are exactly those of ECMAScript (sections 12.2 and 12.3 of ECMA-262), by code point |
| AmountTexts.DigitsAreAnAmount | src/merkle/primitives.js:86-94 | digits, with a point and one to eighteen more or without, in white space or not, are an amount: the number in front times 10^18 and the digits behind it from the first decimal place |
| AmountTexts.OnlyDigitsAreAmounts | src/merkle/primitives.js:89-90 | no other text is an amount |
| AmountTexts.CanonicalDigits | src/merkle/primitives.js:91-94 | the canonical form of such digits is the one canonical text of that many units |
| ReconcileGate.TakeMatch | src/carrier/reconcile_encoded/script_matching.js:148-154 | finds a free entry of equal script and value exactly when there is one, and consumes one such entry |
| ReconcileGate.Reconciliation.ReadInputs | src/carrier/reconcile_encoded.js:71-102 | passes exactly trusted inputs with one unsigned among them, and holds the scripts of the unsigned ones of a single or nested key, all coins and the total |
| ReconcileGate.Reconciliation.CheckRequiredSpends | src/carrier/reconcile_encoded.js:105-118 | passes exactly when the required legs are included, as a multiset, in the spent coins |
| ReconcileGate.Reconciliation.ReadAuthorizedOutputs | src/carrier/reconcile_encoded.js:121-135 | one allowance per requested script, capped at that script's total over all entries |
| ReconcileGate.Reconciliation.ReconcileOutput | src/carrier/reconcile_encoded.js:152-198 | one more output passes exactly when all outputs so far together are acceptable, and the accumulators stay exact |
| ReconcileGate.Reconciliation.ReconcileOutputs | src/carrier/reconcile_encoded.js:201-218 | passes exactly when every output has a rule, every request is within its cap and every pinned leg has its spend |
| ReconcileGate.Reconciliation.CheckPhaseFundingCap | src/carrier/reconcile_encoded.js:221-240 | passes exactly a total within the ceiling; an unreadable ceiling refuses |
| ReconcileGate.Reconciliation.ReconcileFee | src/carrier/reconcile_encoded.js:243-272 | when the fee is computable, refuses exactly a negative one, a full burn, one above its ceiling, and any under an unreadable ceiling |
| ReconcileGate.ReconcileEncoded | src/carrier/reconcile_encoded.js:307-323 | accepts exactly the transactions that the order-free verdict accepts, which `AcceptedExactly` spells out, and reports their totals and legs |
| ReconcileLoss.ValueIsConserved | src/carrier/reconcile_encoded.js:152-218 | total in is the fee plus what goes to own, requested and shaped scripts |
| ReconcileLoss.LossIsBounded | src/carrier/reconcile_encoded.js:243-272 | what does not return to own scripts is at most requests, legs and fee, each within its cap, every requested script capped on its total |
| ReconcileLoss.TwoPhaseLossIsBounded | src/carrier/reconcile_encoded.js:105-118 | over two chained transactions the net loss is fees, requests and the second one's own legs; nothing stays in the first one's legs |
| ReconcileLoss.EveryLegHasItsOwnInput | src/carrier/reconcile_encoded.js:105-118 | each leg of the first transaction is consumed by its own distinct input of the second, named by its position among the inputs |
| ReconcileOrder.VerdictIgnoresOrder | src/carrier/reconcile_encoded.js:200-218 | reordering inputs, outputs or requests changes neither verdict, fee nor totals, and the reported legs only in order |
| ReconcileOrder.PermutedRequests | src/carrier/reconcile_encoded.js:120-135 | requested outputs in another order ask for the same |
| ReconcileOrder.SplitRequests | src/carrier/reconcile_encoded.js:120-135 | splitting a requested output into several to one script with one total asks for the same |
| ReconcileVerdict.AcceptedExactly | src/carrier/reconcile_encoded.js:71-272 | exactly these transactions are accepted: known inputs with one unsigned and one for every required leg; outputs of known value to data without value, to a script of the caller's own, asked for, or shaped; requests within what was asked; legs the companion spends, under their ceiling; a fee not negative, not everything, under its ceiling |
| ReconcileVerdict.CarriedValueComesBack | src/carrier/reconcile_encoded.js:255-256 | when all input values are known and one is positive, some output of an accepted transaction has value |
| ReconcileVerdict.EveryOutputIsAccountedFor | src/carrier/reconcile_encoded.js:86-197 | an output that is no data, not asked for and not shaped goes to a submitted change script, or to the script of an unsigned input of a single or nested key |
| ReconcileVerdict.OneMoreOutput | src/carrier/reconcile_encoded.js:152-198 | exactly what an accepted transaction may pay on top: data only without value, an own script always, a requested one up to what was asked, a shaped one up to its companion and ceiling, nobody else anything, and no more than the inputs leave |
| ReconcileVerdict.HonestAnswerIsAccepted | src/carrier/reconcile_encoded.js:152-198 | paying every requested output as asked, with change and empty data around it, is refused only for the inputs or the fee |
| ReconcileVerdict.ReportsItsTotals | src/carrier/reconcile_encoded.js:244-272 | fee and total in are reported exactly when every input value is known; fee and outputs add up to the inputs |
| AuditGate.ChainAcceptedIsLeastFixedPoint | bin/audit_gate.js:70-83 | the path-set recursion from an empty set decides exactly the least set closed under "every cause is accepted" |
| AuditGate.CyclesAreNeverAccepted | bin/audit_gate.js:70-83 | packages that keep blaming one another are never accepted |
| AuditGate.AcceptingMoreKeepsAccepted | bin/audit_gate.js:65-83 | accepting more advisories, or a shorter path, never un-accepts a package |
| AuditGate.AcceptedByItsCauses | bin/audit_gate.js:65-83 | a package is let through exactly when it blames something, and only advisories with identifiers, all of them accepted, and packages let through themselves |
| AuditGate.OneIdentifierKeepsOut | bin/audit_gate.js:65-68 | one identifier that is not accepted, or none at all, in one advisory keeps its package out |
| CheckpointText.HeaderIsJoined | src/checkpoint.js:52-85 | the signed text is its fields joined by the bar, behind the header fields when the header is active |
| CheckpointSigning.SigningTextIsUnambiguous | src/checkpoint.js:52-85 | admissible checkpoints with bar-free fields sign one text exactly when they agree in every signed field, letter case of roots and checksums aside |
| CheckpointSigning.RootlessFoldPrintsLikeRoots | src/checkpoint.js:169-176 | without refusing missing roots the text is ambiguous: a fold can read like roots |
| CheckpointFields.AdmissibleExactly | src/checkpoint.js:106-132 | admitted exactly when an active commitment has both roots, not empty, and both versions, and superseding fields are absent, or active, complete and well-formed |
| CheckpointFields.TextFixesEveryField | src/checkpoint.js:52-85 | one text is signed exactly for equal fields, named one by one: the nine always there, roots and versions when committed, superseding fields, fold |
| PipeText.LowerFoldsCase | src/checkpoint.js:66-78 | lower case makes texts equal exactly when they differ in nothing but the case of ASCII letters |
| StakeQuorum.IndexStakeSources | src/consensus/stake_weighted_quorum.js:103-127 | an index exactly when every entry has a source and every source's first entry a plain decimal weight |
| StakeQuorum.IndexHolds | src/consensus/stake_weighted_quorum.js:103-127 | the index weighs exactly the sources of the entries, each by its first entry, and maps exactly their keys, each to the source of its last entry |
| StakeQuorum.SumStakeWeights | src/consensus/stake_weighted_quorum.js:130-142 | the total over distinct sources, refused when a weight is negative or nothing is staked |
| StakeQuorum.SumSignerStake | src/consensus/stake_weighted_quorum.js:144-160 | the stake of the distinct sources behind the signers |
| StakeQuorum.MeetsStakeThreshold | src/consensus/stake_weighted_quorum.js:178-199 | true exactly when the signers' distinct sources hold more than two thirds of the stake of an untruncated set |
| StakeQuorum.WeightedQuorumsIntersect | src/consensus/stake_weighted_quorum.js:178-199 | two signer sets that meet the threshold share sources with more than a third of the stake |
| StakeQuorum.ExtraKeysOfASourceAddNothing | src/consensus/stake_weighted_quorum.js:144-160 | a further key of a counted source changes nothing |
| CheckpointVerify.CountSignatures | src/checkpoint.js:188-198 | the loop counts the distinct qualified keys that have a verifying entry |
| CheckpointVerify.HasWeights | src/checkpoint.js:134-140 | true exactly for a non-empty set whose entries all carry a source and a weight that reads as a finite double not below zero |
| CheckpointVerify.VerifyCheckpoint | src/checkpoint.js:158-216 | valid exactly for an admissible checkpoint whose good signers suffice in the regime of its block, as `CountSufficesExactly` and `StakeSufficesExactly` spell out |
| CheckpointVerify.OnlyGoodEntriesCount | src/checkpoint.js:188-198 | order, repetition and entries that do not verify never change who counts |
| CheckpointVerify.GoodEntriesIncluded | src/checkpoint.js:188-198 | more entries never remove a signer |
| CheckpointVerify.QuorumIsSafeAndReachable | src/checkpoint.js:161 | the quorum is at most n, more than n/2, and exactly 2f+1 of 3f+1 |
| CheckpointVerify.CountQuorumsIntersect | src/checkpoint.js:158-216 | two acceptances by count over one set share a signer, f+1 of them when there are 3f+1 keys |
| CheckpointLiveness.QuorumIsLeast | src/checkpoint.js:161 | the quorum is the least number above n/2 and above twice the tolerated faults |
| CheckpointLiveness.CountSufficesExactly | src/checkpoint.js:213-215 | by count a checkpoint is accepted exactly when more than half of at least one key, and more than twice the tolerated faults, signed |
| CheckpointLiveness.SilentKeysBlockExactly | src/checkpoint.js:161-215 | of 3f+1 keys at most f that do not sign cannot block a checkpoint, and more can |
| CheckpointLiveness.SilentStakeBlocksExactly | src/consensus/stake_weighted_quorum.js:178-199 | stake suffices exactly when it is positive and the sources that did not sign hold less than a third of it |
| CheckpointLiveness.StakeSufficesExactly | src/checkpoint.js:200-213 | by stake a checkpoint is accepted exactly for a whole, non-empty set of entries that all name a source with ink in it and a weight not below zero, when the silent sources hold less than a third |
| CheckpointLiveness.SignersAre | src/checkpoint.js:93-104 | a key counts exactly when it is a validator's in lower case, 64 hexadecimal digits, and an entry for it in any case has 128 hexadecimal digits that verify over a text that is not empty |
| CheckpointAgreement.DisagreementNamesDoubleSigners | src/checkpoint.js:52-216 | two checkpoints accepted by count that differ in a signed field show keys that signed two different texts, f+1 of 3f+1 |
| CheckpointAgreement.DisagreementNamesSources | src/checkpoint.js:52-216 | two checkpoints accepted by stake that differ in a signed field show sources with more than a third of the stake that signed two different texts |
| SuiteTitleMap.Compare | bin/suite-title-map.js:233-270 | the nested loops report the findings of the file-by-file comparison, which `ComparisonReports`, `ComparisonIsInTurn` and `ComparesCleanExactly` spell out |
| DeclaredMoves.ComparesCleanExactly | bin/suite-title-map.js:250-266 | in lookups of the rename tables alone: with no two files declared to move to one path, nothing is found exactly when every script has its files under their declared paths, or their old ones when none or an empty one is declared, with titles renamed likewise |
| DeclaredMoves.CaseIsDeclared | bin/suite_title_map/split_map.js:108-121 | with splits too every pinned file is compared under its declared path and its titles under their declared names |
| ComparisonFindings.ComparisonReports | bin/suite-title-map.js:239-268 | the findings exactly: scripts and files only one side has, and titles only one side has under a path |
| ComparisonFindings.ComparisonIsInTurn | bin/suite-title-map.js:239-268 | scripts come in code-unit order, and the files of a script likewise |
| SplitTheorems.FileFindingsAre | bin/suite-title-map.js:260-266 | a file only one side has is reported as added or dropped, otherwise exactly the titles only one side has, under their kind |
| SplitMap.ValidateSplits | bin/suite_title_map/split_map.js:70-91 | no problem exactly when every list names at least two paths, no path is named twice, and no part is another split file |
| SplitRecords.UsableExactly | bin/suite_title_map/split_map.js:70-91 | a record is usable exactly when every file has two parts or more, none empty, no part is named twice in it, and no part is another split file |
| SplitRecords.PartsAreDeclared | bin/suite_title_map/split_map.js:202-214 | a split file is graded by the parts listed beside it |
| SplitMap.CountTitles | bin/suite_title_map/split_map.js:124-128 | the counts of the concatenated lists, in order of first appearance |
| SplitGrading.CountsAreMultiplicities | bin/suite_title_map/split_map.js:124-128 | those counts are the multiset of titles |
| SplitGrading.CountsInOrder | bin/suite_title_map/split_map.js:124-128 | where an earlier counted title appears, no later one has appeared |
| SplitMap.MissingTitles | bin/suite_title_map/split_map.js:131-142 | the findings for every title wanted more often than found, moved when another file has it |
| SplitMap.SurplusTitles | bin/suite_title_map/split_map.js:145-155 | the findings for every title found more often than wanted, duplicated or added |
| SplitMap.GradeSplit | bin/suite_title_map/split_map.js:161-174 | collisions, then missing, then surplus titles of one split |
| SplitGrading.MovedNamesWhere | bin/suite_title_map/split_map.js:136-139 | a missing title is reported as moved exactly when a file outside the split has it, naming exactly those files |
| SplitGrading.LossesNameWhere | bin/suite_title_map/split_map.js:131-142 | every loss among the findings of a split is moved exactly when a file outside it has the title, and names the split file and then those files in order |
| SplitGrading.GainsNameHolders | bin/suite_title_map/split_map.js:145-155 | every gain is a duplicate exactly when the pinned file has the title at all, and names exactly the parts that hold it |
| SplitGrading.GradeIsDifference | bin/suite_title_map/split_map.js:131-174 | every title is reported lost, or gained, exactly as often as the pinned and the collected multisets differ |
| SplitGrading.TitleFindingsCountTheDifference | bin/suite_title_map/split_map.js:131-174 | the number of findings about titles is the size of the multiset difference both ways |
| SplitGrading.GradeIsEmptyExactly | bin/suite_title_map/split_map.js:161-174 | no finding exactly when the parts collect the pinned titles as a multiset and no part is a pinned file |
| SplitCompare.RenamedView | bin/suite_title_map/split_map.js:108-121 | the pin under its new paths and titles, which `CaseIsDeclared` reads off the tables, and which files came from where |
| SplitCompare.WithoutFiles | bin/suite_title_map/split_map.js:177-188 | the map without the dropped files of each script, everything else unchanged |
| SplitTheorems.FilesWithout | bin/suite_title_map/split_map.js:177-188 | afterwards a script's files are the others, with their titles and order |
| SplitCompare.CompareWithSplits | bin/suite_title_map/split_map.js:196-217 | an unusable record yields only record findings; otherwise the split findings and then the comparison of the rest; no split and a pure declared move find nothing (`ComparesCleanExactly`) |
| SplitTheorems.EmptyMeansEveryScriptPasses | bin/suite_title_map/split_map.js:196-217 | the result is empty exactly when, in every script looked at, every split is graded clean and the rest compares clean |
| SplitTheorems.NoSplitsIsComparison | bin/suite_title_map/split_map.js:190-217 | without splits the result is exactly the ordinary comparison |
| SplitConservation.PassingMeansConforming | bin/suite_title_map/split_map.js:190-217 | without clashing renames a script passes exactly when each split conserves its titles, every other file keeps its title set, and nothing else was collected |
| SplitConservation.EmptyMeansConserved | bin/suite_title_map/split_map.js:190-217 | the whole result is empty exactly when every script conforms in that sense |
| SplitClashes.OnlyLastFilesDecide | bin/suite_title_map/split_map.js:114-119 | of pinned files renamed to one path only the last in the order read decides the renamed pin |
| SplitClashes.HiddenTitlesAreNotCompared | bin/suite-title-map.js:253-268 | titles of a file that a later one in path order hides reach no finding of the ordinary comparison |
| SplitClashes.HiddenTitlesAreNotGraded | bin/suite_title_map/split_map.js:202-214 | nor, for one hidden in the order listed, any finding of a split |
| SplitClashes.ClashLosesTitle | bin/suite_title_map/split_map.js:114-119 | any two pinned files renamed to one path have a pin that loses a title and passes |
| SplitClashes.PassingDecidesExactly | bin/suite_title_map/split_map.js:190-217 | for given pinned files and renames, passing means conforming, whatever the titles, splits and collected files, exactly when no two of the files are renamed to one path |
| SplitClashes.RunsDecideExactly | bin/suite_title_map/split_map.js:190-217 | the same over whole runs: an empty result means that every script conforms exactly when no two files are renamed to one path |
| KeyOrder.SortSorts | mcp/server.js:80 | sorting keeps exactly the keys and puts them in ascending order, which `LessIsByCodeUnit` says is code-unit order |
| KeyOrder.LessIsByCodeUnit | mcp/server.js:80 | a key comes before another exactly when it has the smaller code unit where they first differ, or ends there |
| KeyOrder.OneAscendingOrder | mcp/server.js:80 | a set of keys has one ascending order |
| JsonText.EscapeIsRead | mcp/server.js:78 | every string, lone surrogates and control characters included, is read back from its quoted form whatever follows |
| JsonReader.PrintIsRead | mcp/server.js:77-83 | parsing a printed value gives its key-sorted value, whatever delimiter follows |
| JsonReader.PrintWritesCanon | mcp/server.js:77-83 | printing is sorting all keys first and writing the result plainly |
| JsonReader.TextDeterminesCanon | mcp/server.js:72-83 | two values print alike exactly when their key-sorted values are equal |
| IdempotencyKey.CanonMeansSame | mcp/server.js:72-83 | key-sorted values are equal exactly for values that are the same up to key order at every depth |
| IdempotencyKey.EqualTextMeansSameValue | mcp/server.js:72-83 | equal texts exactly for values that are the same up to key order, as their scalars print |
| IdempotencyKey.PlainIsShown | mcp/server.js:77-78 | between values without minus zero and overflowing numbers, "as their scalars print" means equal |
| IdempotencyKey.PlainIsDetermined | mcp/server.js:77-83 | a value holds no such number exactly when every value without them that prints alike is the same value |
| IdempotencyKey.MinusZeroPrintsAsZero | mcp/server.js:78 | minus zero prints as zero |
| IdempotencyKey.InfinityPrintsAsNull | mcp/server.js:78 | an overflowing number prints as null |
| IdempotencyKey.EqualKeysMeanSameSubmission | mcp/server.js:93-97 | two submissions share a key exactly when coin, action and parameters are the same, null or missing parameters being the empty object, or the hash collides on their texts |
| CanonicalText.CanonIsInOrder | mcp/server.js:77-83 | in the value a text stands for the keys of every object, at every depth, are in code-unit order |
| CanonicalText.PrintIsReadInOrder | mcp/server.js:77-83 | every printed text parses to a value with its keys in that order |
| CanonicalText.OrdinaryIsQuoted | mcp/server.js:78 | text without controls, quotes, backslashes and surrogates is printed as it is, between quotes |
| CanonicalText.OtherUnitIsEscaped | mcp/server.js:78 | any other single unit is escaped by its letter or its four hexadecimal digits |
| CanonicalText.WordsAre | mcp/server.js:78 | null, true and false are printed as these words |
| CanonicalText.ArrayText | mcp/server.js:79 | arrays are printed in brackets, their items in order with commas between |
| CanonicalText.RequestText | mcp/server.js:93-97 | the text hashed for a submission, brace by brace: action, coin, parameters |
| CanonicalText.NoParamsAreEmpty | mcp/server.js:95 | missing, null and empty parameters give one key |
| DigestPieces.NormalizeDigestPieces | bin/preflight_handler_dirs.js:75-106 | the character loop computes the line-by-line normal form |
| DigestStability.NormalizingTwice | bin/preflight_handler_dirs.js:75-106 | normalising plain text twice changes nothing more |
| DigestStability.NormalIsClean | bin/preflight_handler_dirs.js:87-103 | the normal form of unprotected text has no blank line and no line ending in white space |
| DigestStability.CleanTextIsFixed | bin/preflight_handler_dirs.js:75-106 | text with clean, ended lines is its own normal form |
| DigestSpaces.SpacesBeforeEndingVanish | bin/preflight_handler_dirs.js:83-99 | white space put in front of any line ending leaves the text alike, unless it cuts a line feed off its carriage return where the two are not kept or dropped alike or the ending is repeated, and in that case never |
| DigestSpaces.CutPairIsSeen | bin/preflight_handler_dirs.js:83-88 | a line with text loses its line feed that way |
| DigestSpaces.BlankCutIsNotSeen | bin/preflight_handler_dirs.js:83-88 | a blank line does not show the cut |
| DigestProtection.ProtectedIsKeptExactly | bin/preflight_handler_dirs.js:83-97 | protected characters are kept in order exactly when no blank line ends in an unprotected carriage return and a protected line feed |
| DigestProtection.ProtectedLineFeedIsLost | bin/preflight_handler_dirs.js:85-88 | such an ending loses its protected line feed |
| DigestProtection.NothingLostWithoutCrossing | bin/preflight_handler_dirs.js:83-97 | nothing is lost when no protected piece starts with a line feed right after an unprotected carriage return |
| UtxoCache.UTXOCache.constructor | src/carrier/utxo_cache.js:25-31 | a new cache is the initial state |
| UtxoCache.UTXOCache.Begin | src/carrier/utxo_cache.js:35-40 | the part of a refresh before its await is the state machine's begin step |
| UtxoCache.UTXOCache.End | src/carrier/utxo_cache.js:49-67 | the part after the await is the end step for that answer, malformed ones included |
| UtxoCache.UTXOCache.GetAvailable | src/carrier/utxo_cache.js:71-74 | confirmed and speculative outputs less the spent, in order |
| UtxoCache.UTXOCache.Mark | src/carrier/utxo_cache.js:78-83 | marks exactly the given outpoints |
| UtxoCache.UTXOCache.Add | src/carrier/utxo_cache.js:95-102 | adds an output whose outpoint is not yet listed |
| UtxoCache.UTXOCache.HasAvailable | src/carrier/utxo_cache.js:108-110 | true exactly when something is offered |
| UtxoCache.UTXOCache.Clear | src/carrier/utxo_cache.js:113-118 | forgets outputs and marks, not the address |
| UtxoCache.KeyIdentifiesOutpoint | src/carrier/utxo_cache.js:61-64 | the text key of an outpoint identifies it |
| UtxoCache.SpentIsNeverOffered | src/carrier/utxo_cache.js:35-83 | over all interleavings a marked outpoint is not offered until the cache is invalidated or another address is refreshed |
| UtxoCache.MarkSurvivesExactly | src/carrier/utxo_cache.js:35-118 | an outpoint is held as spent after a run exactly when some mark of it is followed by no invalidation and no refresh of another address |
| UtxoCache.AnotherAddressForgetsTheMark | src/carrier/utxo_cache.js:36-40 | another address's refresh forgets the mark while the old list is still held |
| UtxoCache.SpeculativeIsDistinct | src/carrier/utxo_cache.js:61-102 | after any run the speculative list repeats no outpoint |
| UtxoCache.RefreshOffersEverythingOnce | src/carrier/utxo_cache.js:49-74 | just after a refresh with a duplicate-free answer, what is offered is duplicate-free and is the tracker's and speculative outputs less the spent |
| UtxoCache.RunsOfferEverythingOnce | src/carrier/utxo_cache.js:25-118 | so it is after a refresh in every state a run reaches |
| UtxoCache.OfferedTwiceExactly | src/carrier/utxo_cache.js:71-74 | what is offered has a duplicate exactly when an unspent outpoint is both confirmed and speculative |
| UtxoCache.SpeculatingOnConfirmedOffersTwice | src/carrier/utxo_cache.js:95-102 | registering an unspent confirmed output offers it twice |
| UtxoCache.LastAnswerWins | src/carrier/utxo_cache.js:35-53 | after a run the list held is that of the last answer to arrive, the address held that of the last refresh begun |
| UtxoCache.HoldsItsOwnExactly | src/carrier/utxo_cache.js:35-53 | the list held was requested for the address held exactly when the last answer, with no invalidation behind it, is for the address whose refresh began last |
| UtxoCache.OlderRefreshAnswersLast | src/carrier/utxo_cache.js:49-53 | when an older refresh of another address answers last, its outputs are offered for the new address |
| UtxoSpeculative.SpeculativeExactly | src/carrier/utxo_cache.js:35-118 | an output is speculative after a run exactly when it was before or was added in it, and no later call was an invalidation, another address's refresh, or an answer while it was confirmed or spent |
| UtxoSpeculative.SpeculativeIsRecent | src/carrier/utxo_cache.js:36-118 | every speculative output was added after the last invalidation and the last refresh of another address |
| UtxoSpeculative.AnswersAreHeld | src/carrier/utxo_cache.js:49-53 | a bare and a wrapped list are held alike, of anything else nothing is |
| UtxoSpeculative.StaleExactly | src/carrier/utxo_cache.js:25-118 | the cache is stale exactly when no answer has come since the last invalidation |

## Left out

- Real cryptography: SHA-256, Ed25519 and hex encoding are an idealised hash over integer symbols and an uninterpreted
  `verify`; no bound on forging or colliding is modelled.
- The sparse tree's `has`, `size` and the hex text forms of keys, leaves and siblings.
- FixedMerkleLoops.NextPow2: JavaScript's 32-bit shift never ends beyond 2^30 leaves; the model's integers are unbounded.
- FixedMerkleLoops.VerifyFixedMerkleProof: indices outside 32 bits, which `>>=` truncates, are read as unbounded integers.
- CompressedProofs.CompressSmtProof: a depth that is not a multiple of eight is excluded; the source's is 256.
- BalanceProofs.VerifyBalanceProof: the derived key is a given function of chain, network, address and tick, reasons for
  refusal are not told apart, and fields of the request other than address and tick are not modelled.
- BalanceProofs.VerifiedAmountIsCommitted: two balances with one derived key are one balance to it.
- The other light-client checks (locked balances, contract state, actions, validator sets), which differ in key and slot.
- Key derivation, block content leaves and their order (`src/merkle.js:255` onwards, `src/merkle/primitives.js:96` onwards):
  injective joins with no further state.
- Amounts.SumCanonicalAmounts: elements are strings already; the source converts others with `String`.
- PSBT, script and address parsing, script shapes and prevout checks: the gate starts from parsed inputs and outputs, with
  "trusted", "pre-signed", "single key" and "shaped" as given facts.
- ReconcileGate.ReconcileEncoded: refusals are not told apart by code, because the first one raised depends on order.
- ReconcileLoss.TwoPhaseLossIsBounded: both transactions must have a computable fee; without input values there is no
  loss to state.
- Activation gates are arbitrary predicates of block and network; the registry rows behind them are not modelled.
- CheckpointVerify.VerifyCheckpoint: `validator_signatures` arrives as a list; JSON text, absent fields of an entry and
  lower-casing outside ASCII are not modelled.
- StakeQuorum.MeetsStakeThreshold: weights are real numbers already read from text; the bignumber library's precision is
  not modelled.
- CheckpointSigning.SigningTextIsUnambiguous: block index, sequence numbers and counts are their texts.
- Advisory identifiers are given; the regular expression that finds them is not modelled, nor are the report's other uses.
- SplitCompare.CompareWithSplits: objects keep insertion order, so integer-like file names, which JavaScript moves first,
  and prototype keys such as `__proto__` are not modelled; the wording of a finding's detail is not modelled either.
- IdempotencyKey.EqualKeysMeanSameSubmission: a finite number is its shortest decimal text, so that JavaScript prints
  different numbers differently is taken for granted; `undefined` inside a value cannot arrive as JSON.
- DigestPieces.NormalizeDigestPieces: pieces are given; the tokeniser that finds comments and protected text is not modelled.
- UtxoCache.UTXOCache.End: the answer's shape is given as one of the two accepted forms or neither; other fields of an
  output are carried along unread.
- Clients, hub discovery, sessions, tool registration, file and process handling: input and output only.
