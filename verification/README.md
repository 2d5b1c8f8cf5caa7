# Verified models of the CESS node core

This Dafny 4.11 project models six components of the `cess-node` sources and
proves what they keep over whole runs. Verify it with `dafny verify dfyconfig.toml`.

| component | files |
|---|---|
| PoDR2 storage proofs (`ces-pdp`), over RSA (sections 3.2 and 5.2 of RFC 8017) | `Modular`, `Rsa`, `ByteStrings`, `Podr2`, `Reading`, `Resign` |
| RRSC consensus engine (`rrsc`) | `Epochs`, `Authorship`, `Verification`, `HeaderMeaning`, `BlockTree`, `Import`, `Finality`, `Consensus`, `EpochSchedule`, `ImportMeaning`, `Leftovers`, `Revert`, `RevertRuns` |
| Audit pallet | `Audit`, `AuditPallet`, `AuditRuns`, `AuditSlips`, `AuditProperties`, `AuditClosing`, `AuditMeaning`, `AuditWitness` |
| Reference-counted store and its checkpoints (`ces-trie-storage`) | `MemoryDb`, `Checkpoint` |
| Message queue (`ces-mq`) and its per-block driver | `Mpsc`, `Merge`, `MergeRuns`, `Dispatcher`, `SendQueue` |
| Heap watermark (`ces-allocator`) | `Allocator` |

`Common` holds what several of them share.

Code that changes state in place is a class or a method with a loop, proved equal
to a specification function. The run theorems are about those functions: a run is
any sequence of steps that the environment allows. `Reading`, `HeaderMeaning`,
`ImportMeaning` and `AuditMeaning` say what these functions decide without naming them.

## What the main results say

- A storage proof made from a tagged file passes verification, singly and in
  batches, in every order in which worker results arrive. RSA's inverse law is
  derived from `n = p * q` by Fermat's little theorem; it is not assumed. Tags and
  answers read every byte: blocks of one length have one number each.
- Along every run of imports and finalizations, stored weights count primary
  blocks, exactly the live blocks have one, and the best block is the first
  heaviest block ever imported.
- In every reachable state a block is imported exactly if it is new, its parent is
  imported and genesis or live, its slot is later, it announces exactly as the first of
  its chain in its epoch must, and nothing that is asked fails.
- Failed imports are atomic in every reachable state, except when reading the best
  block's weight fails after an epoch was announced. That exception is exact, and
  `ReadFailureLeavesEpoch` exhibits it.
- On every accepted chain, with any epochs skipped, a block announces the next
  epoch exactly when it is the first of its chain in its epoch, and epoch `k`
  starts at the slot of the first block plus `k` durations.
- A header is accepted exactly when the authority it names claims that slot with
  its own key and made the seal. Its VRF is then over the index of the epoch that
  contains the slot, however many epochs were skipped.
- Audit slips agree with the open challenges after every event of a run exactly if
  every event meets a guard on the 32-bit casts: openings by the hook, openings by
  the root call and extensions each have their own.
- In all runs, whatever the casts do, a challenge is rewarded once exactly if both
  verdicts are true, keeps its verdicts, and is closed after at most three visits and
  within two extensions of its first verification deadline, if it is closed at all.
  Past that time it has been closed exactly if it was opened with its deadline ahead
  and each of its own extensions had a length; otherwise it stays open for ever.
- A challenge is gone after a block exactly if its deadline was reached and it was
  extended twice or every submitted proof has its verdict. A true idle verdict was
  reported, for this challenge, by the worker then in charge, on the snapshot's space
  and the submitted proof.
- After any content-addressed history a key of the store holds a value exactly if more
  was inserted than removed, and the value hashes to the key.
- Per-topic queues merged by `select!` behave like one queue, however dispatches,
  selects, clears and resets on empty queues interleave, block after block.
- Whenever nothing is in flight the two heap peaks hold the true maximum exactly if
  no reader overwrote the last trace of it by a stale peak. Any number of readers
  may overlap as long as no two are between loading and storing the peak. Between two
  resets the short-term peak is the largest total reached.

## Properties that fail, with their exact conditions

- Import atomicity: `Import.FailedImportExact`, `Consensus.ReadFailureLeavesEpoch`.
  An importer that answers without an error but does not import leaves an epoch
  behind as well: `Import.SkippedAnnouncementBlocksReimport`.
- Such a block can be imported later exactly if the epoch tree takes a block that it
  records already: `Leftovers.ReimportExactly`. The sources do not show what the tree
  does. If it refuses, the block is never imported: `Leftovers.SkippedIsNeverImported`.
- Weights of live blocks only: `Finality.CleanupExact` (both client answers must be
  complete), with `Finality.IncompleteAnswersLeaveWeights`; and
  `Consensus.ImportKeepsLiveExactly` (a child of genesis must not be imported once
  finality has moved on; the wrapped importer refuses it), with
  `Consensus.LateGenesisChildIsWeighed`.
- Revert collects everything above its point: `Revert.CoversAllExactly`, with
  `Revert.UnreadRouteKeepsWeight`.
- Audit slips under 32-bit casts and saturation: `AuditSlips.AgreementExactAlongRun`
  for whole runs; by step `AuditSlips.OpeningByCallExact`,
  `AuditSlips.OpeningByHookExact` and `AuditSlips.VisitExact`; with
  `AuditWitness.WrappedLifeIsOverdue` and `AuditWitness.WrappedExtensionIsStuck`.
- Every challenge closes in time: `AuditClosing.ClosedExactly`, with
  `AuditWitness.NeverClosed`, a challenge opened by the root call within its guard that
  no continuation of the run closes.
- Checkpoint round trip: `Checkpoint.RoundTripExact`, with `Checkpoint.OwedValueIsLost`.
- Egress queue under arbitrary acknowledgements:
  `SendQueue.QueueIsUnacknowledgedExactly`, with `SendQueue.EarlyAckLeavesMessages` and
  `SendQueue.FallingAckLosesMessages`.
- A tag signed again with a new key verifies under that key:
  `Resign.RedoneVerifiesExactly` (exactly if it is the tag the new key would have
  made), with `Resign.ResignedTagRejected`.
- Heap watermark with overlapping readers: `Allocator.WatermarkExactly`, with
  `Allocator.TwoReadersLoseThePeak`.

## Model

| member | source | states |
|---|---|---|
| `Rsa.RsaInverse` | cess-node/crates/ces-pdp/src/lib.rs:133-149 | for n a product of two different primes and matching exponents, x to the e·d is congruent to x for every x, units or not |
| `Podr2.Receive` | cess-node/crates/ces-pdp/src/lib.rs:292-311 | results stored by index give the same slice for every arrival order |
| `Podr2.SigGenWithData` | cess-node/crates/ces-pdp/src/lib.rs:258-326 | succeeds exactly if the data splits evenly, and the tag is then a function of the data alone |
| `Podr2.ProofGen` | cess-node/crates/ces-pdp/src/lib.rs:369-403 | mu is the unreduced sum, sigma the product of tag powers mod n; fails exactly on a malformed tag number |
| `Podr2.MultiplyHashes` | cess-node/crates/ces-pdp/src/lib.rs:425-459 | the loop computes the product of label powers, each of them reduced |
| `Podr2.Verify` | cess-node/crates/ces-pdp/src/lib.rs:425-459 | accepts exactly if the verification equation holds; fails exactly on malformed numbers |
| `Podr2.SigmaOpens` | cess-node/crates/ces-pdp/src/lib.rs:519-540 | the public exponent opens a block signature to label times power of u |
| `Podr2.ProductOpens` | cess-node/crates/ces-pdp/src/lib.rs:369-459 | the product over any list of challenges opens to the label product times u to the unreduced mu |
| `Podr2.Completeness` | cess-node/crates/ces-pdp/src/lib.rs:369-459 | every honest answer satisfies the equation that is checked, for every valid key, file and in-range challenge list |
| `Podr2.TagProveVerify` | cess-node/crates/ces-pdp/src/lib.rs:689-734 | tag, prove and verify end to end: accepted for every file that splits evenly, in every arrival order |
| `Podr2.MultiplySigmas` | cess-node/crates/ces-pdp/src/lib.rs:405-423 | the inner loop multiplies the base by one file's unreduced product |
| `Podr2.AggrProofGen` | cess-node/crates/ces-pdp/src/lib.rs:405-423 | the aggregate over any number of tags; fails exactly if one of them cannot be answered |
| `Podr2.AggregateOfSigmas` | cess-node/crates/ces-pdp/src/lib.rs:405-423 | the aggregate equals the product mod n of the single sigmas |
| `Podr2.ProductOfPermutation` | cess-node/crates/ces-pdp/src/lib.rs:461-516 | the product of worker results does not depend on their order |
| `Podr2.BatchVerify` | cess-node/crates/ces-pdp/src/lib.rs:461-516 | the verdict is the batch equation, the same for every arrival order |
| `Podr2.BatchCompleteness` | cess-node/crates/ces-pdp/src/lib.rs:405-516 | honest aggregates of any number of files satisfy the batch equation |
| `Podr2.AggregateAccepted` | cess-node/crates/ces-pdp/src/lib.rs:405-516 | the value the aggregation computes meets the value the batch check computes |
| `Podr2.AggregateVerify` | cess-node/crates/ces-pdp/src/lib.rs:736-851 | aggregate and verify end to end: accepted in every arrival order |
| `Reading.NumberOfConcat` | cess-node/crates/ces-pdp/src/lib.rs:519-540 | bytes are read big-endian: the number of two byte strings in a row is the first, shifted by the length of the second, plus the second |
| `Reading.NumbersTellBlocksApart` | cess-node/crates/ces-pdp/src/lib.rs:519-540 | blocks of one length that read as the same number are equal |
| `Reading.BlocksAreTheFile` | cess-node/crates/ces-pdp/src/lib.rs:258-326 | the blocks that are tagged, joined in order, are the data |
| `Reading.BlockHasItsSize` | cess-node/crates/ces-pdp/src/lib.rs:369-403 | a block that is read has the size asked for: the bytes of the file from its place on, then zeros |
| `Reading.TagNumberOpens` | cess-node/crates/ces-pdp/src/lib.rs:519-540 | the public exponent opens every number of a tag to the label of its name and position times u to the number of its block |
| `Reading.OneChallenge` | cess-node/crates/ces-pdp/src/lib.rs:369-459 | a challenge of one block gives the coefficient times its number, and powers by the coefficient in sigma and in the label product |
| `Reading.MuOfConcat` | cess-node/crates/ces-pdp/src/lib.rs:369-403 | the answers mu to two challenge lists add up |
| `Reading.SigmasOfConcat` | cess-node/crates/ces-pdp/src/lib.rs:369-403 | the sigma products of two challenge lists multiply |
| `Reading.LabelsOfConcat` | cess-node/crates/ces-pdp/src/lib.rs:425-459 | the label products of two challenge lists multiply |
| `Reading.ChangedBlockChangesMu` | cess-node/crates/ces-pdp/src/lib.rs:369-403 | changing any byte of a block challenged alone with a coefficient that is not zero changes mu |
| `Resign.RedoSigGenWithNewKey` | cess-node/crates/ces-pdp/src/lib.rs:328-367 | signs every number again in any arrival order; fails exactly if one is malformed |
| `Resign.RedoOnlyReduces` | cess-node/crates/ces-pdp/src/lib.rs:542-553 | signing again with any valid key equals reducing the old signature |
| `Resign.RedoneAcceptedLikeOld` | cess-node/crates/ces-pdp/src/lib.rs:328-459 | the new key accepts an answer made with the new tag exactly if it accepts the one made with the old tag |
| `Resign.RedoChangesNoVerdict` | cess-node/crates/ces-pdp/src/lib.rs:328-459 | signing again, proving and verifying give the verdict that the old tag gives |
| `Resign.RedoneVerifiesExactly` | cess-node/crates/ces-pdp/src/lib.rs:328-459 | the new tag passes every challenge under the new key exactly if every old number reduces to the new key's own signature of its block |
| `Resign.ResignedTagRejected` | cess-node/crates/ces-pdp/src/lib.rs:328-459 | two keys, a tagged block and a challenge for which the new tag's honest answer is rejected |
| `Resign.RedoKeepsOwnTag` | cess-node/crates/ces-pdp/src/lib.rs:328-367 | under its own key a tag signed again is unchanged |
| `Epochs.Epoch.CloneForSlot` | cess-node/crates/rrsc/src/lib.rs:240-263 | moves to the epoch that contains the slot on the same grid and keeps all other data; before the start it changes nothing |
| `Epochs.CloneIsRepeatedIncrement` | cess-node/crates/rrsc/src/lib.rs:179-263 | after any announcements an epoch has the clone's schedule exactly if it is the one that contains the slot |
| `Authorship.SlotHashPicksAuthor` | cess-node/crates/rrsc/src/authorship.rs:103-123 | the author is the one at the remainder of dividing the hash of randomness and slot by their number |
| `Authorship.ClaimPrimarySlot` | cess-node/crates/rrsc/src/authorship.rs:228-272 | the claim of the first own key whose score is below its threshold, none if there is no such key |
| `Authorship.ClaimSecondarySlot` | cess-node/crates/rrsc/src/authorship.rs:128-179 | the claim of the first own key that is the expected author, none if there is no such key |
| `Authorship.ClaimSlotUsingKeys` | cess-node/crates/rrsc/src/authorship.rs:201-222 | a primary claim if there is one, else a secondary claim of the kind the epoch allows |
| `Authorship.ClaimSlot` | cess-node/crates/rrsc/src/authorship.rs:185-197 | the same over all authorities of the epoch with their positions |
| `Authorship.ClaimedWhenOurs` | cess-node/crates/rrsc/src/authorship.rs:185-222 | a slot is claimed exactly if one of our authorities wins it or secondary slots are on and the expected author is ours |
| `Verification.FindPreDigest` | cess-node/crates/rrsc/src/lib.rs:903-923 | the one pre-digest of the header, the made-up one at genesis, and which error for none or several |
| `Verification.CheckHeader` | cess-node/crates/rrsc/src/verification.rs:67-143 | pops the seal, judges the rest, and puts the seal back on a deferred header |
| `Verification.AcceptedExactlyWhenClaimed` | cess-node/crates/rrsc/src/verification.rs:67-263 | accepted exactly if in time, the index names an authority, that authority made the seal and its own claim yields this pre-digest |
| `Verification.ClaimAcceptedExactly` | cess-node/crates/rrsc/src/authorship.rs:201-222 | a claim made with any key list is accepted exactly if its index names its own authority and, for a primary claim, wins there |
| `Verification.ClaimsAreAccepted` | cess-node/crates/rrsc/src/verification.rs:67-143 | every claim of ClaimSlot, sealed, is accepted for a past or present slot and deferred unchanged for a future one |
| `Verification.OneSecondaryAuthor` | cess-node/crates/rrsc/src/verification.rs:204-263 | all accepted secondary headers of a slot and epoch have one author |
| `HeaderMeaning.InputIsUnique` | cess-node/crates/rrsc/src/authorship.rs:228-246 | the VRF input of a slot is the one with its randomness, the slot and the index of the epoch that contains the slot; before the start the index is the epoch's own |
| `HeaderMeaning.InputAfterChanges` | cess-node/crates/rrsc/src/authorship.rs:228-246 | that index is the one the epoch has after the announcements that reach the slot |
| `HeaderMeaning.AcceptedMeans` | cess-node/crates/rrsc/src/verification.rs:67-263 | accepted exactly if in time, sealed by the named authority, of an allowed kind, with a VRF over that input, a score below the threshold of its place, or the author that the slot hash picks |
| `HeaderMeaning.ClaimMeans` | cess-node/crates/rrsc/src/authorship.rs:185-272 | every claim is for the slot, by a key of ours, and meets the same conditions for its place |
| `HeaderMeaning.ClaimNumbersPlace` | cess-node/crates/rrsc/src/authorship.rs:128-272 | the index in a claim is the place of its authority in the list, in 32 bits |
| `HeaderMeaning.ClaimedMeans` | cess-node/crates/rrsc/src/authorship.rs:185-272 | no claim is made only if no authority of ours has a winning VRF and, where secondary slots are on, the picked author is not ours |
| `HeaderMeaning.PreDigestMeans` | cess-node/crates/rrsc/src/lib.rs:903-923 | a header other than genesis has a pre-digest exactly if one of its logs, and no other, is one |
| `Import.RrscBlockImport.constructor` | cess-node/crates/rrsc/src/aux_schema.rs:82-89 | a first start: genesis only, no weights, no epoch changes |
| `Import.RrscBlockImport.LaunchEpoch` | cess-node/crates/rrsc/src/lib.rs:1528-1624 | prunes and adds the epoch after the current one, or leaves the epoch changes as they were |
| `Import.RrscBlockImport.ImportBlock` | cess-node/crates/rrsc/src/lib.rs:1409-1683 | the whole import, error by error, equals the step that the run theorems are about |
| `Import.FailedImportExact` | cess-node/crates/rrsc/src/lib.rs:1528-1680 | a failed import changes nothing, except exactly when it announced an epoch and then could not get the best block's weight |
| `Import.SkippedAnnouncementBlocksReimport` | cess-node/crates/rrsc/src/lib.rs:1672-1682 | an announcing block skipped without an error stays in the epoch changes, and its import fails whenever pruning keeps it there and the epoch tree refuses duplicates |
| `Leftovers.PruneKeepsLeftover` | cess-node/crates/rrsc/src/lib.rs:1694-1727 | pruning that keeps the answers above the finalized block keeps such an entry while it is above it |
| `Leftovers.ReimportExactly` | cess-node/crates/rrsc/src/lib.rs:1528-1682 | with everything else in order, importing a block whose epoch was left behind succeeds exactly if the epoch tree takes duplicates, and then records the same epoch |
| `Leftovers.ReimportAlongRun` | cess-node/crates/rrsc/src/lib.rs:1528-1682 | so it is in every reachable state |
| `Leftovers.SkippedIsNeverImported` | cess-node/crates/rrsc/src/lib.rs:1528-1682 | in every run in which the epoch tree refuses it as a duplicate, a block whose epoch was recorded without it is never imported afterwards |
| `Finality.AuxStorageCleanup` | cess-node/crates/rrsc/src/lib.rs:539-579 | the parent of the route's first block, the route without the finalized block, and the expanded stale forks |
| `Finality.CleanupRoute` | cess-node/crates/rrsc/src/lib.rs:539-579 | given the route from the last finalized block, that parent is the last finalized block |
| `Finality.CleanupExact` | cess-node/crates/rrsc/src/lib.rs:539-579 | live blocks keep their weights; exactly the live ones do if and only if both client answers were complete |
| `Finality.IncompleteAnswersLeaveWeights` | cess-node/crates/rrsc/src/lib.rs:539-579 | a state in which a failed metadata read or a missing fork leaves a weight too many |
| `Finality.ForksCoverStale` | cess-node/crates/rrsc/src/lib.rs:564-572 | expanding the leaves left behind gives exactly the stale blocks of those above the finalized block, and none on the chain of the new one |
| `Consensus.BestOfIsFirst` | cess-node/crates/rrsc/src/lib.rs:1639-1666 | the fork choice rule applied in import order gives the first maximum of weight and number |
| `Consensus.WeightsAreTrue` | cess-node/crates/rrsc/src/lib.rs:1481-1503 | with true stored weights, the total weight and the fork choice are those of the real chains |
| `BlockTree.WeightCountsPrimaries` | cess-node/crates/rrsc/src/lib.rs:1481-1503 | the weight of a chain is the number of its primary blocks |
| `Consensus.StepKeeps` | cess-node/crates/rrsc/src/lib.rs:1409-1683 | every import and finalization keeps the run invariant |
| `Consensus.ForkChoiceAlongRun` | cess-node/crates/rrsc/src/lib.rs:1633-1666 | in every reachable state weights are primary counts of exactly the live blocks and the best block is the first-seen maximum |
| `Consensus.FailedImportsAreAtomic` | cess-node/crates/rrsc/src/lib.rs:1528-1680 | in every reachable state a failed import leaves the state as it was, unless reading the best block's weight failed |
| `Consensus.LiveParentsHaveWeights` | cess-node/crates/rrsc/src/lib.rs:1482-1493 | building on a live block never lacks a weight, building on a dead one other than genesis always fails |
| `Consensus.ImportKeepsLiveExactly` | cess-node/crates/rrsc/src/lib.rs:1482-1493 | a successful import keeps the weights exact if and only if its parent is not genesis or nothing is finalized yet |
| `Consensus.LateGenesisChildIsWeighed` | cess-node/crates/rrsc/src/lib.rs:1482-1493 | a state and an import for which they do not stay exact |
| `Consensus.ReadFailureLeavesEpoch` | cess-node/crates/rrsc/src/lib.rs:1642-1657 | a reachable state and an import that fails at that read and leaves its epoch behind |
| `EpochSchedule.NextEpochTimely` | cess-node/crates/rrsc/src/lib.rs:1528-1583 | the announced epoch is the next one on the grid, starts after the block, and carries the announced data |
| `EpochSchedule.NewBlockScheduled` | cess-node/crates/rrsc/src/lib.rs:1461-1583 | a block that passes the announcement checks keeps its chain on schedule |
| `EpochSchedule.ImportKeepsAnswers` | cess-node/crates/rrsc/src/lib.rs:1585-1623 | whatever an import does to the epoch changes, successful or not, lookups for live blocks stay the same |
| `EpochSchedule.StepKeepsEpochs` | cess-node/crates/rrsc/src/lib.rs:1409-1727 | every import and finalization keeps the epoch invariant |
| `EpochSchedule.ScheduleHolds` | cess-node/crates/rrsc/src/lib.rs:1461-1583 | every imported block lies in its epoch, announces exactly as the first of its chain in it, and the next epoch on the grid is pending |
| `EpochSchedule.AnnouncementsAreRecorded` | cess-node/crates/rrsc/src/lib.rs:1528-1583 | every recorded epoch has the announced authorities and randomness, and the announced or inherited configuration |
| `EpochSchedule.OneAnnouncementPerEpoch` | cess-node/crates/rrsc/src/lib.rs:1511-1526 | announcements along a chain are for strictly later epochs |
| `ImportMeaning.AnnouncementMeans` | cess-node/crates/rrsc/src/lib.rs:1506-1526 | the announcement checks pass exactly with one announcement and at most one configuration for a first block, and neither for any other |
| `ImportMeaning.AheadMeansFirst` | cess-node/crates/rrsc/src/lib.rs:1481-1500 | the epoch found for a child starts after its parent exactly if the parent is genesis or lies in an earlier epoch of the grid |
| `ImportMeaning.ImportedExactly` | cess-node/crates/rrsc/src/lib.rs:1409-1683 | in every reachable state an import succeeds exactly if the block is new, its parent imported and genesis or live, its slot later, its announcements those its place in the epoch calls for, and nothing that is asked fails |
| `Revert.CollectWeightKeys` | cess-node/crates/rrsc/src/lib.rs:1909-1931 | the leaf walks with early stop collect exactly the blocks strictly above the revert point that lie under a leaf whose route was read |
| `Revert.CoversAllExactly` | cess-node/crates/rrsc/src/lib.rs:1913-1931 | these are all blocks strictly above the revert point exactly if the route to every leaf above it was read |
| `Revert.UnreadRouteKeepsWeight` | cess-node/crates/rrsc/src/lib.rs:1913-1931 | a tree in which a route that is not read keeps a weight above the revert point |
| `Revert.Walk` | cess-node/crates/rrsc/src/lib.rs:1919-1931 | one walk ends and leaves no gap between what is collected and the revert point |
| `Revert.RevertAux` | cess-node/crates/rrsc/src/lib.rs:1867-1939 | the collected weights and all epoch changes above the revert point go, all others stay |
| `Revert.RevertPoint` | cess-node/crates/rrsc/src/lib.rs:1882-1896 | the revert point is as many blocks back on the best chain as asked, or the finalized block if that is nearer |
| `Revert.RevertKeepsFinalized` | cess-node/crates/rrsc/src/lib.rs:1882-1931 | the epoch changes left are exactly those not announced strictly above the revert point, and no weight up to it is touched |
| `Revert.RevertKeepsWeighing` | cess-node/crates/rrsc/src/lib.rs:1909-1938 | with all routes read, exact weights of live blocks stay exact for the blocks left |
| `RevertRuns.StepKeeps` | cess-node/crates/rrsc/src/lib.rs:1409-1939 | imports, finalizations and reverts keep exact weights, a best block that has one, and the tree |
| `RevertRuns.WeightsAcrossReverts` | cess-node/crates/rrsc/src/lib.rs:1867-1939 | in every run with reverts stored weights are primary counts of exactly the live blocks |
| `RevertRuns.AtomicAcrossReverts` | cess-node/crates/rrsc/src/lib.rs:1528-1680 | and a failed import leaves the state as it was, unless reading the best block's weight failed |
| `AuditPallet.Pallet.OnInitialize` | cess-node/pallets/audit/src/lib.rs:322-328 | draw, clear and visit in this order, over every slip of the block once |
| `AuditPallet.Pallet.GenerateChallenge` | cess-node/pallets/audit/src/lib.rs:1014-1143 | opens at most one challenge, under the time and sampling conditions |
| `AuditPallet.Pallet.OpenChallenge` | cess-node/pallets/audit/src/lib.rs:750-845 | opens a challenge with its two slips, or changes nothing |
| `AuditPallet.Pallet.ClearChallenge` | cess-node/pallets/audit/src/lib.rs:862-902 | handles every expired proof deadline once, in some order |
| `AuditPallet.Pallet.ClearSlip` | cess-node/pallets/audit/src/lib.rs:862-902 | counts a miner without a service proof and drops the slip |
| `AuditPallet.Pallet.ClearVerifyMission` | cess-node/pallets/audit/src/lib.rs:917-1000 | handles every expired verification deadline once, in some order |
| `AuditPallet.Pallet.VisitMission` | cess-node/pallets/audit/src/lib.rs:917-1000 | closes a decided or twice reassigned challenge, else hands it on with a new deadline |
| `AuditPallet.Pallet.SubmitIdleProof` | cess-node/pallets/audit/src/lib.rs:346-382 | records an idle proof or returns the error the state calls for, changing nothing |
| `AuditPallet.Pallet.SubmitServiceProof` | cess-node/pallets/audit/src/lib.rs:398-434 | records a service proof or returns the error the state calls for, changing nothing |
| `AuditPallet.Pallet.SubmitVerifyIdleResult` | cess-node/pallets/audit/src/lib.rs:456-561 | records an idle verdict and rewards a second success, or returns an error and changes nothing |
| `AuditPallet.Pallet.SubmitVerifyServiceResult` | cess-node/pallets/audit/src/lib.rs:579-691 | records a service verdict and rewards a second success, or returns an error and changes nothing |
| `AuditRuns.StepKeeps` | cess-node/pallets/audit/src/lib.rs:322-691 | every block and extrinsic keeps VerifySlip equal to the open challenges at their deadlines, and the history in order, whatever the casts do |
| `AuditRuns.BlockKeeps` | cess-node/pallets/audit/src/lib.rs:862-1143 | a whole block of hooks keeps it, whatever the iteration order |
| `AuditRuns.ReassignedFits` | cess-node/pallets/audit/src/lib.rs:955-993 | an extension, cast or not, is at most one life long |
| `AuditSlips.BlockFollowsHooks` | cess-node/pallets/audit/src/lib.rs:322-328 | the block event of a run does to the storage what the hooks do |
| `AuditSlips.OpeningByCallExact` | cess-node/pallets/audit/src/lib.rs:750-845 | the root call keeps the slips in agreement exactly if the cast lives leave a proof deadline ahead that does not saturate and time after it |
| `AuditSlips.OpeningByHookExact` | cess-node/pallets/audit/src/lib.rs:862-1143 | generating and then clearing keeps it exactly if proofs get no time at all, or the same holds |
| `AuditSlips.VisitExact` | cess-node/pallets/audit/src/lib.rs:917-1000 | a visit keeps it exactly if it closes the challenge or the cast extension has a length and the clock has room |
| `AuditSlips.BlockExact` | cess-node/pallets/audit/src/lib.rs:322-328 | a whole block keeps it exactly if its opening and all its extensions meet these guards |
| `AuditSlips.StepExact` | cess-node/pallets/audit/src/lib.rs:322-845 | so does every event |
| `AuditSlips.AgreementExactAlongRun` | cess-node/pallets/audit/src/lib.rs:322-1143 | the slips agree after each of the first n events exactly if each of these events met its guards |
| `AuditSlips.UntruncatedMeetsGuards` | cess-node/pallets/audit/src/lib.rs:750-1143 | with a positive hour, lossless casts and sums that do not saturate the guards are met |
| `AuditProperties.AgreementMeans` | cess-node/pallets/audit/src/lib.rs:862-1143 | the agreement is this: both slip maps name exactly the open challenges at their deadlines still ahead, proofs before verification |
| `AuditProperties.SlipsAreExact` | cess-node/pallets/audit/src/lib.rs:862-1143 | so it is after every event of a guarded run |
| `AuditProperties.ClosedByDeadline` | cess-node/pallets/audit/src/lib.rs:917-1000 | in all runs closed challenges had at most three visits and were closed by their first verification deadline plus two extensions |
| `AuditClosing.GetsStuckExactly` | cess-node/pallets/audit/src/lib.rs:917-1000 | an open challenge passes its deadline unclosed exactly if it is reached, undecided, and extended by nothing |
| `AuditClosing.StuckForEver` | cess-node/pallets/audit/src/lib.rs:917-1000 | from then on it stays open under its number in every run |
| `AuditClosing.OpensStuckExactly` | cess-node/pallets/audit/src/lib.rs:750-1143 | a new challenge is in that state exactly if the root call opened it with no time at all or at the last block number; the hook never does |
| `AuditClosing.OverdueIsStuck` | cess-node/pallets/audit/src/lib.rs:917-1000 | a challenge open at its first deadline plus two extensions is in that state |
| `AuditClosing.ClosedExactly` | cess-node/pallets/audit/src/lib.rs:917-1000 | in all runs, past that time a challenge has been closed exactly if its deadline was ahead when seen open and each extension it got had a length |
| `AuditClosing.ClosedUnlessStuck` | cess-node/pallets/audit/src/lib.rs:917-1000 | that is, exactly if it never passed its deadline unclosed |
| `AuditProperties.RewardedExactlyOnce` | cess-node/pallets/audit/src/lib.rs:456-691 | in all runs one reward for each challenge with two true verdicts and none for any other number; every challenge ever opened is open or closed |
| `AuditProperties.VerdictsNeverChange` | cess-node/pallets/audit/src/lib.rs:456-691 | in all runs a recorded verdict stays, across reassignments and into the closed record |
| `AuditProperties.CountersBoundedAlongRun` | cess-node/pallets/audit/src/lib.rs:862-902 | the counter of missed deadlines stays below thirty in every run, so its overflow fallback is never reached |
| `AuditMeaning.NewDeadlines` | cess-node/pallets/audit/src/lib.rs:750-845 | the deadlines of a new challenge from its two spaces, the prove and verify rates, the number of workers and the hour, with casts to 32 bits and sums that saturate |
| `AuditMeaning.OpenedExactly` | cess-node/pallets/audit/src/lib.rs:750-1143 | a miner without a challenge has one after an event exactly if the root call drew it, or a tenth block after three days did and left it time |
| `AuditMeaning.GoneExactly` | cess-node/pallets/audit/src/lib.rs:917-1000 | an open challenge is gone after an event exactly if the event is a block that reaches its deadline and it was extended twice before or every submitted proof has its verdict |
| `AuditMeaning.UnjudgedGoesOn` | cess-node/pallets/audit/src/lib.rs:917-1000 | in every run a challenge with a submitted proof without a verdict goes on under its number past its first two deadlines |
| `AuditMeaning.UnjudgedOutlivesTwoDeadlines` | cess-node/pallets/audit/src/lib.rs:917-1000 | in every run a closed challenge with a proof that was never judged had three visits |
| `AuditMeaning.AfterBlock` | cess-node/pallets/audit/src/lib.rs:917-1000 | a challenge that stays open is unchanged, or has one more extension by a life of its larger space plus an hour, cast to 32 bits, with both proofs handed to the worker found |
| `AuditMeaning.IdleProofExactly` | cess-node/pallets/audit/src/lib.rs:346-382 | an idle proof is recorded exactly if the miner has a challenge without one, in time, and a worker was found; the missed-deadline counter is reset if the service proof is there |
| `AuditMeaning.ServiceProofExactly` | cess-node/pallets/audit/src/lib.rs:398-434 | the same for a service proof |
| `AuditMeaning.IdleVerdictExactly` | cess-node/pallets/audit/src/lib.rs:456-561 | an idle verdict is recorded exactly for the worker in charge and an unjudged proof, is true exactly if the report repeats space, accumulator and proof, and rewards exactly a second success |
| `AuditMeaning.ServiceVerdictExactly` | cess-node/pallets/audit/src/lib.rs:579-691 | a service verdict is recorded exactly for the worker in charge, an unjudged proof and the right filter, counts failures in a row, and rewards exactly a second success |
| `AuditMeaning.TrueIdleWasReported` | cess-node/pallets/audit/src/lib.rs:1341-1367 | in every run a true idle verdict was reported earlier, for the same challenge and by the worker then in charge, with front, rear and accumulator of the snapshot and the submitted proof |
| `AuditMeaning.MissesCounted` | cess-node/pallets/audit/src/lib.rs:862-902 | in every run whose slips agree a block counts a miss exactly for the open challenges whose later proof deadline it is and that have no service proof; the thirtieth starts the count again |
| `AuditWitness.WrappedLifeIsOverdue` | cess-node/pallets/audit/src/lib.rs:750-845 | a run in which the root call opens a challenge whose lives wrap to zero and whose slip is overdue at once |
| `AuditWitness.WrappedExtensionIsStuck` | cess-node/pallets/audit/src/lib.rs:955-993 | a run that opens a challenge within its guard and reaches its deadline undecided, where the extension wraps to nothing |
| `AuditWitness.NeverClosed` | cess-node/pallets/audit/src/lib.rs:917-1000 | no continuation of that run closes the challenge |
| `MemoryDb.MemoryDB.constructor` | cess-node/crates/ces-trie-storage/src/memdb.rs:205-212 | an empty store with the null node's hash |
| `MemoryDb.MemoryDB.Get` | cess-node/crates/ces-trie-storage/src/memdb.rs:401-412 | the null node's data for its hash, else the value under a positive count |
| `MemoryDb.MemoryDB.Emplace` | cess-node/crates/ces-trie-storage/src/memdb.rs:422-443 | count up, replace a value that was owed, drop at zero |
| `MemoryDb.MemoryDB.Insert` | cess-node/crates/ces-trie-storage/src/memdb.rs:445-453 | stores under the digest of the value, the null node excepted |
| `MemoryDb.MemoryDB.Remove` | cess-node/crates/ces-trie-storage/src/memdb.rs:455-474 | count down, owe a value that is missing, drop at zero |
| `MemoryDb.MemoryDB.RemoveAndPurge` | cess-node/crates/ces-trie-storage/src/memdb.rs:165-186 | does to the store what Remove does and returns the value it purged |
| `MemoryDb.MemoryDB.Consolidate` | cess-node/crates/ces-trie-storage/src/memdb.rs:261-285 | folds all drained entries onto their 32-byte suffixes |
| `MemoryDb.CountIsNet` | cess-node/crates/ces-trie-storage/src/memdb.rs:165-474 | after any history a count is inserts minus removes plus the consolidated counts of that suffix |
| `MemoryDb.ConsolidateAddsCounts` | cess-node/crates/ces-trie-storage/src/memdb.rs:261-285 | consolidation adds the suffix sum to every count |
| `MemoryDb.EntriesHashToTheirKey` | cess-node/crates/ces-trie-storage/src/memdb.rs:261-474 | after any content-addressed history every entry that owes nothing hashes to its key |
| `MemoryDb.GetIgnoresDrainOrder` | cess-node/crates/ces-trie-storage/src/memdb.rs:261-285 | what get returns does not depend on the order in which transactions were drained |
| `MemoryDb.GetExactly` | cess-node/crates/ces-trie-storage/src/memdb.rs:401-412 | after any content-addressed history a key other than the null node's holds a value exactly if its net count is positive, and the value hashes to the key |
| `MemoryDb.InsertThenGet` | cess-node/crates/ces-trie-storage/src/memdb.rs:401-453 | a value just inserted is found if nothing was owed and none was there, one that was there stays, and one that was owed is not found yet |
| `Checkpoint.Serialize` | cess-node/crates/ces-trie-storage/src/memdb.rs:310-321 | the entries in some iteration order, each once, without keys |
| `Checkpoint.Deserialize` | cess-node/crates/ces-trie-storage/src/lib.rs:73-102 | the map that hashing the entries gives, with the default null node |
| `Checkpoint.RoundTripExact` | cess-node/crates/ces-trie-storage/src/lib.rs:73-102 | the same store comes back exactly if every entry hashes to its key, for every iteration order |
| `Checkpoint.SettledHistoryRoundTrips` | cess-node/crates/ces-trie-storage/src/lib.rs:73-102 | every content-addressed history that owes nothing checkpoints without loss |
| `Checkpoint.OwedValueIsLost` | cess-node/crates/ces-trie-storage/src/memdb.rs:310-321 | a store with one early removal does not survive a checkpoint |
| `Checkpoint.SaveAndRestore` | cess-node/crates/ces-trie-storage/src/lib.rs:73-102 | a backend comes back as it was exactly if it is self-keyed and has the default null node |
| `Mpsc.Channel.Send` | cess-node/crates/ces-mq/src/simple_mpsc.rs:37-46 | appends unless every receiver is gone |
| `Mpsc.Channel.TryNext` | cess-node/crates/ces-mq/src/simple_mpsc.rs:81-89 | takes the oldest; empty and orphaned are told apart |
| `Mpsc.Channel.Peek` | cess-node/crates/ces-mq/src/simple_mpsc.rs:102-111 | the oldest without taking it |
| `Mpsc.Channel.Clear` | cess-node/crates/ces-mq/src/simple_mpsc.rs:48-52 | empties the queue and returns how many there were |
| `Mpsc.Channel.CloneSender` | cess-node/crates/ces-mq/src/simple_mpsc.rs:54-59 | one more live sender |
| `Mpsc.Channel.DropSender` | cess-node/crates/ces-mq/src/simple_mpsc.rs:61-69 | one live sender less |
| `Mpsc.Channel.CloneReceiver` | cess-node/crates/ces-mq/src/simple_mpsc.rs:119-124 | one more live receiver |
| `Mpsc.Channel.DropReceiver` | cess-node/crates/ces-mq/src/simple_mpsc.rs:113-117 | one live receiver less |
| `Merge.ScanIsSmallest` | cess-node/crates/ces-mq/src/dispatcher.rs:229-266 | the macro's scan finds the first smallest front, none exactly if all queues are empty |
| `Merge.SelectInStep` | cess-node/crates/ces-mq/src/dispatcher.rs:229-266 | one select takes the oldest message not yet taken; it finds none only if all were |
| `Merge.DispatchInStep` | cess-node/crates/ces-mq/src/dispatcher.rs:90-112 | one dispatch extends the order of messages to be taken |
| `Merge.TakenInDispatchOrder` | cess-node/crates/ces-mq/src/dispatcher.rs:90-266 | however dispatches and selects interleave, what was taken is a prefix of the dispatch order |
| `Merge.ResetNeedsEmptyQueues` | cess-node/crates/ces-mq/src/dispatcher.rs:114-125 | with a message left queued, resetting the index lets a later message overtake |
| `MergeRuns.MergeIsFifo` | cess-node/crates/ces-mq/src/dispatcher.rs:90-266 | however resets on empty queues, dispatches, selects and clears interleave, the messages come out as from one queue |
| `MergeRuns.BlocksAreSeparate` | cess-node/crates/cestory/src/ceseal_service.rs:967-1032 | blocks that reset first and clear last each hand over what they would alone and leave every queue empty |
| `MergeRuns.EveryBlockInOrder` | cess-node/crates/cestory/src/ceseal_service.rs:967-1032 | which is a prefix of the block's messages in dispatch order |
| `Dispatcher.MessageDispatcher.Subscribe` | cess-node/crates/ces-mq/src/dispatcher.rs:71-82 | a fresh empty channel at the end of the topic's subscribers |
| `Dispatcher.MessageDispatcher.Dispatch` | cess-node/crates/ces-mq/src/dispatcher.rs:90-112 | one number per message; every subscriber with a receiver gets it, the others are dropped, and the order of the rest stays |
| `Dispatcher.MessageDispatcher.Clear` | cess-node/crates/ces-mq/src/dispatcher.rs:119-125 | every subscribed queue is empty afterwards, and the number of messages that were waiting is returned |
| `Dispatcher.DropReceiverThenDispatch` | cess-node/crates/ces-mq/src/dispatcher.rs:90-112 | a subscriber that drops a receiver is unsubscribed by the next message exactly if it had no other and made no clone |
| `Dispatcher.Select` | cess-node/crates/ces-mq/src/dispatcher.rs:229-266 | reports a lost sender exactly if there is one, else takes the first smallest front |
| `Dispatcher.DropSenderThenSelect` | cess-node/crates/ces-mq/src/dispatcher.rs:229-266 | dropping a sender is reported exactly if it was the last, without a clone, of a receiver with nothing waiting |
| `Dispatcher.ProcessMessages` | cess-node/crates/cestory/src/system/mod.rs:147-159 | takes until nothing is left: all waiting messages, oldest first |
| `Dispatcher.HandleInboundMessages` | cess-node/crates/cestory/src/ceseal_service.rs:967-1032 | one block hands over exactly its messages for these topics, in order, and leaves every queue empty |
| `Dispatcher.HandleBlocks` | cess-node/crates/cestory/src/ceseal_service.rs:967-1032 | so does every block of any number of blocks |
| `SendQueue.MessageSendQueue.EnqueueMessage` | cess-node/crates/ces-mq/src/send_queue.rs:53-82 | spends one number; keeps the message unless in dummy mode |
| `SendQueue.MessageSendQueue.SetDummyMode` | cess-node/crates/ces-mq/src/send_queue.rs:84-88 | switches the mode of one sender and nothing else |
| `SendQueue.MessageSendQueue.Purge` | cess-node/crates/ces-mq/src/send_queue.rs:129-142 | keeps in every queue, in order, the messages from the acknowledged number on |
| `SendQueue.MessageSendQueue.Messages` | cess-node/crates/ces-mq/src/send_queue.rs:112-118 | the sender's queue, empty for an unknown sender |
| `SendQueue.QueueHoldsUnacknowledged` | cess-node/crates/ces-mq/src/send_queue.rs:53-142 | with acknowledgements that neither go down nor pass the counter, a queue is exactly the messages sent from the last one on |
| `SendQueue.NumbersNeverReused` | cess-node/crates/ces-mq/src/send_queue.rs:53-82 | numbers of sent messages strictly increase below the counter |
| `SendQueue.NumbersWithoutGaps` | cess-node/crates/ces-mq/src/send_queue.rs:53-88 | a sender never in dummy mode sends 0, 1, 2 and so on |
| `SendQueue.QueueHoldsSurvivors` | cess-node/crates/ces-mq/src/send_queue.rs:53-142 | for any acknowledgements a queue is exactly the sent messages that no later purge covered, in order |
| `SendQueue.QueueIsUnacknowledgedExactly` | cess-node/crates/ces-mq/src/send_queue.rs:53-142 | it is what was sent from the last acknowledgement on exactly if purges and last acknowledgement agree about every sent message |
| `SendQueue.EarlyAckLeavesMessages` | cess-node/crates/ces-mq/src/send_queue.rs:129-142 | an acknowledgement ahead of the counter leaves messages queued that it covers |
| `SendQueue.FallingAckLosesMessages` | cess-node/crates/ces-mq/src/send_queue.rs:129-142 | an acknowledgement that goes down asks for messages that are gone |
| `Allocator.KnownStep` | cess-node/crates/ces-allocator/src/lib.rs:32-70 | with any number of readers the maximum is lost by a store of a smaller peak over its last trace only, and regained by being reached again only |
| `Allocator.WatermarkExactly` | cess-node/crates/ces-allocator/src/lib.rs:32-70 | whenever nothing is in flight the larger of peak and spike is the largest value current ever had exactly if no such store came after it was last reached |
| `Allocator.WatermarkIsExact` | cess-node/crates/ces-allocator/src/lib.rs:32-70 | so it is if no two readers are ever between loading and storing the peak |
| `Allocator.SpikeIsExact` | cess-node/crates/ces-allocator/src/lib.rs:32-70 | with no thread inside an update when it was reset nor now, the short-term peak is the largest total that an allocation since then reached, 0 if there was none |
| `Allocator.TwoReadersLoseThePeak` | cess-node/crates/ces-allocator/src/lib.rs:32-44 | two stores that overlap can lose the maximum |

## Left out

- `phi_hash` and attestation in the PoDR2 tags: the hash is taken in arrival order and is not a function of the tag.
- Decimal strings in tags and proofs: a string is a number or malformed; formatting and parsing are not modelled.
- Reads of a challenged block that return fewer bytes than asked: a read fills the buffer as far as the file goes.
- Random choice of challenged blocks: challenge lists are arbitrary.
- Bodies of SHA-256, sr25519, the VRF and the floating-point threshold: fixed functions; signatures and VRF outputs are ideal.
- Fixed-width overflow of slots, epoch indices, block weights, message numbers and reference counts: unbounded here; the node stops or wraps where they would overflow.
- Authority lists longer than 2^32: the theorems that tie a claim to an index need at most that many, since indices travel in 32 bits.
- Header hash collisions in the consensus model: a block is identified with its chain.
- `sc_consensus_epochs`, fork tree and client internals: used through stated contracts (deepest started epoch, pruning keeps live lookups, the client refuses blocks at or below finality, notifications carry the route and the leaves left behind). What the epoch tree does with a block that it records already is an answer of the environment, since the sources do not show it.
- The time between looking up an epoch descriptor in the verifier and importing the block: the lookup is made at import.
- Full-state and block-gap imports: they reset or skip weights by design.
- Failed database reads during finality cleanup inside runs: `Finality.CleanupExact` says what they cause in one step.
- Failed metadata reads during revert: the source returns the error before writing anything. A failed route lookup skips its leaf and is modelled.
- The epoch schedule across reverts, and the client's own choice of a best block after one: the revert point becomes best.
- Restarts of the node, which reload the epoch changes from disk.
- Migration of old epoch formats, equivocation reports, the authoring worker and its timing.
- Other pallets in the audit model: miner registry, TEE registry, randomness and punishments answer as parameters and may fail.
- Root calls of the audit pallet that move slips by hand for trials: they break the slip invariant by design.
- Typed receivers in the message queue: decoding of payloads and the bounded queue variant add only easy members.
- Snapshot loading and saving of the message queue and the trie's own structure.
- Weak memory orderings in the allocator: atomic operations are sequentially consistent steps.
- Front ends, contracts, RPC clients, loggers, build scripts and enclave bindings.
