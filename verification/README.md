# Aperod node: a verified model of its hard parts

This project models, in Dafny, the parts of the Aperod blockchain node that keep a promise over
whole runs, and proves those promises. It covers:

- finality voting and signing safety (`Ledger`, `Votes`, `Process`, `Signing`, `Finality`,
  `FinalityRun`, `FinalityRepair`, `StagedVotes`, `MixedVotes`, `Engine`);
- the block transition over outputs, stake, chain and disk, and exactly when a failed one leaves no
  trace (`Utxos`, `SpendEffects`, `Reversal`, `StakeBurns`, `BlockUndo`, `Recency`, `Divergence`,
  `Canonical`, `CanonicalRun`);
- contract state: overlays, block execution, nonces, stored code and receipts, encodings, checkpointed
  recovery and static gas (`Bytes`, `AvmState`, `AvmExecutor`, `AvmNonces`, `AvmContracts`, `AvmCodec`,
  `AvmRecovery`, `StaticGas`);
- the wallet change feed and the wallet snapshot leases (`ChangeFeed`, `Leases`, `SnapshotManager`);
- the daily LPoD audit, per block, per day and per saved batch (`Sums`, `PositionAudit`, `BlockAudit`,
  `DayFold`, `DayReport`, `AuditRules`, `PositionLedger`, `DailyJobs`) and the screening of position requests
  (`VaultFilter`);
- fees, base fee and emission (`Fees`, `BaseFee`, `Emission`).

`Options` holds the optional value that all modules share.

`dafny verify dfyconfig.toml` checks everything. Code that updates objects in place is modelled by
classes and loops whose contracts tie the new state to a function of the old one; the properties are
then proved about those functions, over every input and every run.

## Modelling decisions

- A hash is a free term (`Digest(block)`): equal hashes have equal preimages. Signatures, ring proofs,
  range proofs and Merkle roots are outcomes (booleans or sets of authentic votes), not computations.
- Arithmetic is unbounded; every 64-bit or 32-bit guard, saturation and wrap-around of the source is
  written out.
- Disk writes, crashes, I/O failures, clocks and time budgets are parameters or steps, so each result
  holds for every pattern of them.
- The validator committee is fixed, the threshold is at least two thirds as an exact fraction, and
  fewer than a third of the committee is faulty. The source multiplies the committee size by a
  floating-point threshold; the model uses the exact quotient.
- The contract machine is an arbitrary deterministic function, except in `StaticGas`.
- Base-fee arithmetic uses exact rationals with halves rounded away from zero, where the source rounds
  a floating-point product.

## Where the code and its own words differ

- `nextBaseFee` is documented as capped at 12.5% per block. The code has no cap above twice the target
  size: `BaseFee.NoCapAboveTwiceTarget` gives the block, `BaseFee.RiseCap` the exact condition.
- `RollbackBlock` is documented to restore the set to the state before the block. It does so exactly
  under the condition of `BlockUndo.RollbackUndoesApply` (and, with stake burns, of
  `BlockUndo.EarlyExact` and `BlockUndo.LateExact`). Outside it, a block that repeats an indexed
  one-time key takes the old entry along (`BlockUndo.ReusedPubLeaks`, `BlockUndo.ReusedPubInput`), a
  full recency list loses its oldest output (`BlockUndo.FullListLoses`, `BlockUndo.FullListInput`),
  the fallback can revive a spent output (`BlockUndo.PooledMemberRevives`), and undoing a burn of a
  protocol-locked output adds an entry (`StakeBurns.LockedBurnLeaks`). A block with a wrong parent is
  refused only after it was applied and undone (`CanonicalRun.WrongParentLeaks`).
- A rollback never takes keys back off the recency list. In `CanonicalRun.ShiftedListDiverges` a
  refused block shifts a full list without changing an output, the next block is committed without
  any failure, and memory has lost an output that the state of the durable chain still holds.
  `CanonicalRun.UndoneRemembers` says when an undone block leaves the list alone too, and
  `Divergence.PushedExactly` when a kept block keeps two views equal under different lists.
- A certificate is checked at start-up against the height index only. Without a saved vote a clean
  start has its certified block on its chain exactly when the prev-links from its tip reach the
  indexed block (`Process.CleanStartExact`). `FinalityRepair.RaisedTipForks` is a run of one honest
  validator in which the offline repair tool raises the tip over a fork and two unrelated blocks are
  certified. The agreement theorems therefore speak of runs in which that walk succeeds at every such
  start, while signing safety (`Signing.NoDoubleVote`) holds of all runs;
  `FinalityRepair.LoweringIsWatched` shows that it does whenever repairs before the first saved vote
  only lower the tip.
- The audit accepts the removal of a position whose last withdrawal names less than the remainder
  (`PositionLedger.PartialRemoval`); `PositionLedger.RemovalExact` says when nothing is left behind.
- A contract key can be a signer's nonce key, or another contract's code key, exactly when the contract
  identifier is that prefix followed by the first bytes of the name (`AvmNonces.NamespaceClash`,
  `AvmContracts.CodeClash`).
- Votes for two blocks may arrive in any order. A certificate never goes down, so the order decides
  whether the lower block is finalized too: `MixedVotes.OrderDecides` gives the input,
  `MixedVotes.MixedConfluence` the exact condition.
- Validation reserves the first matching ring member of a position spend, application looks at the first
  member only. They agree exactly when the first member is a match (`SpendEffects.PositionExactly`).

## Model

| member | source | states |
|---|---|---|
| Finality.FinalizedChainIsUnique | consensus/poa.go:2376-2472 | over every run whose clean starts without a saved vote reach their certified height from the tip, any two finalized hashes of any honest nodes are related by ancestry, and are equal at one height |
| Finality.CertificatesAgree | consensus/poa.go:2437-2472 | over every such run, certificates that ever reached a disk lie on one chain |
| Signing.NoDoubleVote | consensus/poa.go:2339-2373 | over every run of blocks, failed writes, crashes, tip repairs and restarts, whatever the committee and the others do, an honest validator's released votes lie on one chain, never two blocks at one height |
| Signing.RunSigns | consensus/poa.go:2339-2373 | after every run a clean process extends its saved vote, which is above everything it released |
| Finality.RunKeeps | consensus/poa.go:2339-2496 | the joint invariant of disks, memories, vote books and certificates holds after every such run |
| Finality.QuorumsMeet | consensus/poa.go:2437-2440 | two quorums of the threshold rule share a validator that is not faulty |
| Finality.Agreement | consensus/poa.go:2437-2472 | quorum intersection plus one chain per honest voter makes certified blocks comparable |
| Finality.CleanStart | consensus/poa.go:2628-2709 | a process that passes both start-up checks, and without a saved vote also the walk to its certified height, has everything it ever signed among the ancestors of its tip |
| FinalityRepair.WatchedRunFinalizes | consensus/poa.go:2339-2472 | some run that the safety theorems cover finalizes a block and releases a vote for it |
| FinalityRepair.LoweringIsWatched | cmd/recover-tip/main.go:243-295 | runs whose tip repairs before the first saved vote only lower the tip are all covered |
| FinalityRepair.RaisedTipForks | consensus/poa.go:2524-2557 | a run of one honest validator with a repair that raises the tip over a fork certifies two unrelated blocks |
| Process.WalkSound | consensus/poa.go:2659-2709 | a completed ancestry walk proves the vote an ancestor of the tip and the index right on the way |
| Process.CleanStartExact | consensus/poa.go:2524-2557 | a clean start without a saved vote has its certified block on its chain if and only if the prev-links from its tip reach the indexed block |
| Votes.HandleVoteEffect | consensus/poa.go:2376-2496 | a vote changes the book only by staging it, counting its sender once, or saving a quorum certificate for its hash, never lower |
| Votes.CountsExactly | consensus/poa.go:2376-2445 | a counted vote joins the voters of its block; with a quorum the block is finalized under a certificate of exactly its voters and its tally cleared if the certificate can be saved, and otherwise the tally waits |
| Votes.OthersKept | consensus/poa.go:2478-2496 | whatever the vote, tallies of other blocks at most 256 heights below it keep voters and height, and finalized heights at most 256 below it stay |
| Votes.PrunesExactly | consensus/poa.go:2478-2496 | a counted vote forgets exactly the other tallies and finalized heights more than 256 below it |
| MixedVotes.MixedTally | consensus/poa.go:2387-2472 | after any interleaving of votes for two retained blocks the higher one is finalized exactly by its own voters, the lower one exactly if it had its quorum while the higher one had none, and an open tally holds exactly who voted |
| MixedVotes.MixedConfluence | consensus/poa.go:2417-2472 | the order of votes for two blocks never matters for the higher one, and matters for the lower one if and only if one order puts its quorum first and the other does not |
| MixedVotes.MixedBlockConfluence | consensus/poa.go:2387-2472 | the same for votes for the next block and a retained one, however they are split around the next block and replayed |
| MixedVotes.LowerAlone | consensus/poa.go:2417-2472 | without a quorum for the higher block the lower one is finalized exactly by its own voters, whatever the order |
| MixedVotes.OrderDecides | consensus/poa.go:2437-2472 | a sole validator's two votes finalize both blocks in one order and only the higher one in the other |
| Process.WindowMoves | core/chain.go:197-236 | a new tip moves the retained window by exactly one height |
| StagedVotes.VoteBlockConfluence | consensus/poa.go:2387-2445 | however votes for the next block are split around it and replayed, the finalized hash, the pending voters and what stays staged are the same |
| StagedVotes.VoteTwoBlocksConfluence | consensus/poa.go:2387-2445 | the same for votes for the block after next, staged before the next block, between the two or delivered after both, with the next block accepted and replayed in between |
| StagedVotes.TallyOrderFree | consensus/poa.go:2417-2472 | a tally depends on who voted, not on order or repetition |
| StagedVotes.WindowKept | consensus/poa.go:2387-2412 | every staged vote stays at most two heights above the tip |
| StagedVotes.ReplayKeepsWindow | consensus/poa.go:2602-2626 | replaying at a new block leaves only votes above it, inside the window |
| Engine.VoteEngine.Open | consensus/poa.go:344-465 | a restarted engine is the value-model restart of what is on disk |
| Engine.VoteEngine.RestoreFinalityCertificate | consensus/poa.go:2498-2595 | succeeds exactly for a certificate on the indexed chain with a quorum of committee voters |
| Engine.VoteEngine.VerifyLocalVoteAncestry | consensus/poa.go:2659-2709 | succeeds exactly when the walk over indexed bodies reaches the vote |
| Engine.VoteEngine.RestoreLocalFinalityVote | consensus/poa.go:2628-2654 | restores the saved vote or halts |
| Engine.VoteEngine.HandleVote | consensus/poa.go:2376-2496 | the in-place update is the book function, pruning included |
| Engine.VoteEngine.ReplayFutureVotes | consensus/poa.go:2602-2626 | drops staged votes up to the block and handles the matching ones |
| Engine.VoteEngine.CastVote | consensus/poa.go:2339-2373 | counts, saves, then releases the node's own vote; halts when it cannot be saved |
| Engine.VoteEngine.SaveFinalityCertificate | store/finality.go:77-96 | a saved certificate never regresses or conflicts |
| Engine.VoteEngine.SaveLocalFinalityVote | store/finality.go:39-58 | a saved vote never regresses or conflicts |
| Engine.VoteEngine.LatestLocalVote | consensus/poa.go:2713-2738 | relays the saved vote only if it is still on the durable chain, else halts |
| CanonicalRun.MemoryIsFoldOfDisk | consensus/poa.go:777-846 | in every run in which undone blocks are reversible and kept ones take the same outputs from memory and from the durable chain, memory is the fold of the durable chain; a halted engine is at most one block behind and never moves |
| CanonicalRun.ShiftedListDiverges | core/utxo.go:376-392 | a run without failures in which a refused block shifts a full recency list and the next committed block takes an output from memory only |
| CanonicalRun.UndoneRemembers | core/utxo.go:845-932 | an undone block leaves all of memory, recency list included, as it was if and only if it is reversible and does not move the list |
| CanonicalRun.UnshiftedExactly | core/utxo.go:376-392 | a list with room, or without keys of the block, is not moved if and only if nothing is tracked |
| Divergence.PushedExactly | core/utxo.go:376-392 | for a block with new hashes and one-time keys whose rings name one output each, two equal views under different lists stay equal if and only if the lists push off the same active outputs, apart from those the block spends |
| Divergence.LeavingExactly | core/utxo.go:728-830 | without the demand on rings: the views stay equal if and only if every old output leaves both sets or neither |
| Recency.SameDropsSameView | core/utxo.go:376-392 | lists that lose the same keys keep the views equal, whatever the block |
| CanonicalRun.UndoneExactly | consensus/poa.go:2107-2160 | a block that is taken back, for any reason and by either way, leaves outputs, registry and chain as they were if and only if it meets the exact condition of that way |
| CanonicalRun.OrdinaryIsReversible | consensus/poa.go:2107-2160 | a validated block with new hashes and one-time keys, room on the recency list, a silent fallback and burns that their keys find meets that condition |
| CanonicalRun.CommitsExactly | consensus/poa.go:2101-2163 | without failures exactly the blocks of the reference transition are committed, with exactly its memory |
| CanonicalRun.WrongParentLeaks | core/chain.go:197-212 | a block with a wrong parent that repeats an indexed one-time key is refused and leaves the index without it |
| Canonical.Engine.Accept | consensus/poa.go:2101-2163 | for every block and every pattern of failures the engine takes exactly the step of the value machine |
| Canonical.Engine.Insert | consensus/poa.go:815-846 | chain insertion and durability with both rollbacks, for every pattern of failures |
| Canonical.Engine.Undo | consensus/poa.go:282-297 | the rollback takes back outputs first, then registry and burns |
| Canonical.Engine.ApplyStakeTxs | core/staking.go:1222-1278 | stake transactions apply all together, or every burn is undone in the source's order and the registry restored |
| Canonical.DeclinedExact | core/staking.go:1222-1278 | refused stake transactions leave no trace if and only if every burned public key found the output put back last |
| Canonical.Engine.ApplyOneStake | core/staking.go:1086-1134 | burn, then registry; a registry refusal takes this burn back first |
| Canonical.Chain.AddBlock | core/chain.go:197-236 | appends exactly a block that extends the tip, and records how to undo it |
| Canonical.WindowMoves | core/chain.go:197-236 | a block that extends the tip moves the window of the last heights by exactly one |
| Canonical.Chain.RollbackLastBlock | core/chain.go:243-285 | brings back the exact window before the latest AddBlock, evicted block included |
| BlockUndo.RollbackUndoesApply | core/utxo.go:845-932 | rolling a block back restores the view if and only if the fallback stays silent, nothing is lost from the recency list, and no key image, output key or one-time key of the block was known |
| BlockUndo.LateExact | consensus/poa.go:282-297 | the exact condition for undoing the block and then its stake burns |
| BlockUndo.EarlyExact | consensus/poa.go:2114-2130 | the exact condition for undoing stake burns and then the block |
| BlockUndo.ReusedPubLeaks | core/utxo.go:871-879 | undoing a block that repeats an indexed one-time key removes the old entry |
| BlockUndo.ReusedPubInput | core/utxo.go:871-879 | one such set and block |
| BlockUndo.FullListLoses | core/utxo.go:376-393 | with a full recency list, undoing a block that creates an output does not bring back the oldest listed one |
| BlockUndo.FullListInput | core/utxo.go:376-393 | one such set and block |
| BlockUndo.PooledMemberRevives | core/utxo.go:886-905 | a hidden spend whose ring names a pooled output of its commitment revives that output |
| Reversal.ApplyExplained | core/utxo.go:728-830 | after applying a block every difference to the indexes is in the journal, fell off the recency list or belongs to an output of the block; pool, spent index, images and list are accounted for |
| Reversal.AppliedSound | core/utxo.go:728-830 | with new transaction hashes an applied block leaves a sound set for the next height |
| Reversal.UndoPool | core/utxo.go:886-905 | the fallback changes nothing, or a pooled output is active |
| SpendEffects.ReservedIsSpent | core/utxo.go:596-830 | for a validated block with new hashes whose rings look outside it and whose outputs fit the recency list, the journal holds exactly the reserved outputs, none of them is active afterwards, and exactly their public keys find nothing |
| SpendEffects.ReservedIsGone | core/utxo.go:596-830 | also with a full list, if every ring has one match at most and what falls off is found by its key, no reserved output is active afterwards |
| SpendEffects.RingSpend | core/utxo.go:745-790 | a spend without a named member removes the output of the first matching member from both indexes into journal, spent index and pool, and nothing if none matches |
| SpendEffects.NamedSpend | core/utxo.go:1190-1205 | a revealed spend removes the member at its real index, a position spend the first, or nothing |
| SpendEffects.HiddenSpend | core/utxo.go:745-790 | a hidden spend marks its key image only |
| SpendEffects.RingCheck | core/utxo.go:596-704 | a spend is validated if and only if its image is fresh and some member is unclaimed, and reserves the first such |
| SpendEffects.RevealedCheck | core/utxo.go:596-704 | a revealed spend is validated exactly for a fresh image and an existing, unclaimed named member |
| SpendEffects.HiddenCheck | core/utxo.go:596-704 | a hidden spend is validated exactly with a fresh image and reserves nothing else |
| SpendEffects.FreeCheck | core/utxo.go:596-704 | coinbase and stake transactions reserve no output; a stake proof must be a fresh image |
| SpendEffects.RingUndo | core/utxo.go:886-905 | undoing a spend revives the first pooled match unless a journaled member stands before it |
| SpendEffects.NamedUndo | core/utxo.go:886-905 | undoing a spend with a named member looks at that member alone |
| SpendEffects.PositionExactly | core/utxo.go:1190-1205 | the output reserved for a position spend leaves if and only if the first ring member is a match |
| SpendEffects.JournalForgets | core/utxo.go:776-790 | beyond 256 heights the journal drops exactly its oldest one |
| Utxos.CheckedImages | core/utxo.go:596-704 | a validated block spends no key image that is spent already, and none twice |
| StakeBurns.UnmarkExact | core/utxo.go:946-1010 | burns undone in any order restore both indexes if and only if every burned public key found the output put back last |
| StakeBurns.UnmarkUndoesMark | core/utxo.go:946-1010 | where public keys are unique, burns are undone exactly in any order if and only if none is protocol-locked |
| StakeBurns.LockedBurnLeaks | core/utxo.go:998-1010 | undoing a locked burn adds a public-key entry |
| ChangeFeed.FollowFeed | api/wallet_changes.go:455-567 | following cursors from any served position with any page limits yields every event from there on once, in order, and ends |
| ChangeFeed.ResumeFeed | api/wallet_changes.go:377-567 | what was delivered in the old snapshot and following the newer one from there give every event of the newer one once, in order |
| ChangeFeed.ScanPage | api/wallet_changes.go:470-562 | a page delivers the next events and the rest follows its cursor, which moves strictly forward by at most 128 heights; a page that leaves something out is full, or the next event or block does not fit |
| ChangeFeed.LoadBlock | api/wallet_changes.go:470-510 | a block is put off exactly at the decode bound and refused exactly when it is unreadable, too large or not linked |
| ChangeFeed.ReadPage | api/wallet_changes.go:455-567 | every request with valid coordinates is served |
| ChangeFeed.TakeEvents | api/wallet_changes.go:510-540 | takes the events that fit up to the first that does not; refuses only an event that cannot fit alone |
| ChangeFeed.ResumeIsAccepted | api/wallet_changes.go:377-424 | a position returned by a page is accepted in a newer snapshot whose witness is the old checkpoint if and only if the encoded event list of its block keeps the decode bound |
| ChangeFeed.ResumeExactlyOnce | api/wallet_changes.go:377-424 | resuming in a newer snapshot loses and repeats nothing |
| Leases.LeaseSafety | api/wallet_snapshot.go:75-172 | in every interleaving a read view is released at most once and never under an outstanding lease, and inflight counts the live leases |
| Leases.CapacityBounds | api/wallet_snapshot.go:216-349 | in every interleaving counters equal the live entries and the bounds 16, 2 and 32 MiB hold |
| Leases.CaptureExactly | api/wallet_snapshot.go:216-349 | in every interleaving a capture may begin exactly under the three bounds on unreleased views, and finishes with whatever fits the room it began with |
| Leases.RunKeeps | api/wallet_snapshot.go:75-349 | the joint invariant of entries, leases and counters holds after every interleaving |
| SnapshotManager.ReachableIsWired | api/wallet_snapshot.go:75-349 | every state reachable by any interleaving meets what the methods demand |
| SnapshotManager.Manager.ReleaseIfIdleLocked | api/wallet_snapshot.go:101-124 | the in-place release is the value step |
| SnapshotManager.Manager.ExpireLocked | api/wallet_snapshot.go:75-83 | expiry retires every listed entry whose deadline passed |
| SnapshotManager.Manager.Acquire | api/wallet_snapshot.go:142-155 | expires, then lends exactly an open entry of the same address |
| SnapshotManager.Manager.Close | api/wallet_snapshot.go:157-172 | retires exactly an open entry of the same address |
| SnapshotManager.Manager.Release | api/wallet_snapshot.go:126-140 | a lease is returned once, however often it is released |
| SnapshotManager.Manager.BeginCapture | api/wallet_snapshot.go:216-236 | the first critical section admits a capture only under the bounds |
| SnapshotManager.Manager.FinishCapture | api/wallet_snapshot.go:330-349 | the second critical section expires, refuses a taken id, and publishes with one lease |
| AvmState.MemoryStore.Apply | avm/state.go:99-116 | all writes or none, in order |
| AvmState.MemoryStore.Writes | avm/state.go:118-134 | the sorted listing rebuilds the store from nothing |
| AvmState.OverlayStore.Get | avm/state.go:43-54 | readers see buffered writes over the base |
| AvmState.OverlayStore.Apply | avm/state.go:56-68 | the view moves as if the base were written |
| AvmState.OverlayStore.Writes | avm/state.go:70-83 | the ordered writes applied to the base give the view for every key |
| AvmState.TransactionState.Get | avm/state.go:160-169 | a call reads its own writes first, then the block so far |
| AvmState.TransactionState.OrderedWrites | avm/state.go:175-189 | a call's ordered writes applied to the block give its view |
| AvmState.SortedListingUnique | avm/state.go:70-83 | a write set has one listing in key order |
| AvmExecutor.BlockExecutor.PrepareBlock | avm/block_executor.go:49-139 | the write set applied to the base gives the sequential result for every key; a failing transaction fails the block; the base is untouched |
| AvmExecutor.BlockExecutor.ExecutePayload | avm/block_executor.go:66-125 | one transaction on the overlay is one step of the sequential meaning |
| AvmExecutor.NetEffect | avm/block_executor.go:49-139 | the accumulated writes applied once give the state reached step by step |
| AvmNonces.NoncesNeverRepeat | avm/block_executor.go:74-118 | over every chain a signer's executed nonces run 0, 1, 2, ... and none repeats |
| AvmContracts.RunsDeployedCode | avm/block_executor.go:82-118 | after every chain a payload runs if and only if it is valid, carries the next nonce, and the machine runs the code its contract was deployed with, or its own for a contract never deployed |
| AvmContracts.ChainCode | avm/block_executor.go:118-120 | over every chain the stored code of a contract is that of its one deployment |
| AvmContracts.PayloadLeaves | avm/block_executor.go:117-133 | the value of every key after a payload: new nonce, code of a deployment, receipt, last host write, and otherwise what was there; the receipt counts different keys |
| AvmContracts.PayloadRuns | avm/block_executor.go:66-116 | a payload succeeds exactly when it is valid, its nonce is the stored one, its code is known and the machine runs it |
| AvmContracts.PayloadCode | avm/block_executor.go:82-120 | code changes only by a deployment, and only where there was none |
| AvmContracts.RunReceipts | avm/block_executor.go:121-133 | the receipts a run returns are the receipts it stores |
| AvmContracts.StoredReceiptReadsBack | avm/block_executor.go:232-246 | a stored receipt decodes to the returned one if and only if its return data is shorter than 2^32 |
| AvmContracts.ReceiptsInOrder | avm/block_executor.go:121-134 | one receipt for every contract transaction, in block order |
| AvmContracts.CodeClash | avm/block_executor.go:141-144 | some key of a contract is another's code key exactly for one form of contract identifier |
| AvmNonces.NamespaceClash | avm/block_executor.go:141-154 | some key of a contract is a signer's nonce key exactly for one form of contract identifier |
| AvmCodec.ReceiptRoundTrip | avm/block_executor.go:232-246 | decoding an encoded receipt gives it back exactly when its return data is shorter than 2^32 |
| AvmCodec.ReceiptCanonical | api/rest_avm.go:231-247 | encoding a decoded receipt gives the bytes back |
| AvmCodec.WriteSetInjective | avm/block_executor.go:248-259 | the bytes hashed for a write set determine it, up to absent versus empty values |
| AvmCodec.SnapshotPreimage | avm/checkpoint.go:126-152 | accepts exactly strictly ordered non-empty keys |
| AvmCodec.SnapshotInjective | avm/checkpoint.go:126-152 | the bytes hashed for a snapshot determine its entries |
| AvmCodec.DraftOrderFree | avm/checkpoint.go:239-248 | a draft's bytes do not depend on the order its entries were supplied in |
| AvmRecovery.ResumeEqualsFullReplay | avm/recovery.go:131-260 | replay resumed at any height between activation and tip equals replay from activation |
| AvmRecovery.Database.EnsureCanonicalState | avm/recovery.go:131-360 | for every source it recovers if and only if the source may start, the chain above it is intact, the stored entries fit, and disk and signing succeed; without error the stored state and tip marker are those of full replay, and a renewed checkpoint is truthful and recovers again without a write |
| AvmRecovery.Database.RecoverState | avm/recovery.go:131-335 | the same before the renewed checkpoint |
| AvmRecovery.Database.ReplayRange | avm/recovery.go:362-437 | succeeds if and only if the chain up to the tip is intact, and then the store holds the replay of the tip's ancestors with its commitment |
| AvmRecovery.Database.ReplayOne | avm/recovery.go:379-427 | one round succeeds exactly when the indexed body is readable and linked, is the tip where it must be, executes, and no stored marker disagrees |
| AvmRecovery.Database.RunBlock | avm/recovery.go:414-427 | succeeds exactly when the block executes and no stored marker disagrees |
| AvmRecovery.Database.PrepareStart | avm/recovery.go:164-262 | succeeds if and only if the conditions of the source hold: none without a checkpoint policy; with one an indexed genesis, and the era within the limit or a verified checkpoint of this chain, at or below the tip and recent enough |
| AvmRecovery.Database.ReplayToTip | avm/recovery.go:262-282 | a checkpoint of the tip needs no replay; otherwise succeeds if and only if the chain above the start is intact, and from a truthful checkpoint ends in the full-replay state |
| AvmRecovery.Database.SameState | avm/recovery.go:306-328 | every stored entry expected plus equal counts means equal states |
| AvmRecovery.Database.Reconcile | avm/recovery.go:284-335 | recovers if and only if marker and stored entries agree with the replay and the disk takes what is missing; the database then holds the replayed state, rebuilt only when something was missing |
| AvmRecovery.Database.ReplaceState | store/leveldb.go:984-1013 | one batch replaces the namespace and the tip marker, or nothing |
| AvmRecovery.CommitmentUnique | avm/block_executor.go:248-259 | a write set has one commitment |
| StaticGas.StaticGasBoundsExecution | avm/validate.go:122-202 | no call of an accepted body executes more instructions than counted, and the count is at most the body length |
| StaticGas.ValidateInstructions | avm/validate.go:122-202 | accepts exactly the bodies of admitted instructions within the nesting limit and returns their number |
| StaticGas.Scan | avm/validate.go:122-202 | the loop decodes every instruction and tracks nesting |
| StaticGas.SkipImmediate | avm/validate.go:130-199 | the step over an opcode's immediate, with every refusal |
| StaticGas.DecodesFormat | avm/validate.go:122-202 | a body of the binary format (section 5.4 of the WebAssembly Core Specification) is decoded into exactly its instructions |
| StaticGas.ScanFollowsGrammar | avm/validate.go:128-199 | on the format's own encodings the scan advances by exactly one instruction |
| StaticGas.AdmitsExactly | avm/validate.go:130-199 | of the format's instructions the scan admits exactly those that are no floating-point load or store, open no block of a floating-point type and call no local function |
| StaticGas.RefusesOpcodes | avm/validate.go:130-221 | whatever follows it, an opcode outside the list is refused |
| StaticGas.NestingBalances | avm/validate.go:147-160 | while ends do not outnumber openings, nesting is openings less ends |
| StaticGas.ConstantExactly | avm/validate.go:186-191 | a constant ends with its first byte below 0x80, at the tenth at the latest |
| StaticGas.ConditionalRuns | avm/validate.go:147-160 | a conditional runs one arm and never both |
| StaticGas.ReturnEnds | avm/validate.go:204-209 | nothing runs after a trap or a return |
| StaticGas.TotalSnoc | avm/validate.go:87-98 | the instruction total is that of all bodies |
| StaticGas.StraightLineRuns | avm/validate.go:99-102 | the bound is attained by code without control instructions |
| StaticGas.ReadsU32 | avm/validate.go:223-233 | reads every u32 of section 5.2.2 of the WebAssembly Core Specification, and beyond those only a fifth byte with extra bits |
| StaticGas.ReadU32 | avm/validate.go:223-233 | value and length of the first five-byte group, truncated to 32 bits |
| StaticGas.SkipsSigned | avm/validate.go:235-242 | every signed integer of the format is skipped exactly |
| StaticGas.SkipSigned | avm/validate.go:235-242 | length of the first terminated group |
| StaticGas.LoopsAreUnbounded | avm/validate.go:130-132 | a loop whose body branches back can run for any number of instructions |
| StaticGas.StaticCharge | avm/validate.go:87-103 | the charge of a module is 100 plus the instructions of all bodies |
| StaticGas.ChargeCoversCalls | avm/validate.go:99-101 | the charge covers one call of any function |
| PositionLedger.NothingLost | api/lpod_audit_daily.go:498-640 | over every pass and for every position, D times reported accrual plus closing carry and forfeited carry is opening carry plus exact interest; due moves by accrued minus paid; principal by what was deposited, returned and left, openings and removals included |
| PositionLedger.RecordBalances | api/lpod_audit_daily.go:1274-1388 | in a reconciled record every position balances, listed or not, new, removed or kept |
| PositionLedger.RemovalExact | store/lpod_positions.go:47-66 | a removal returns the whole remainder if and only if its withdrawal names no amount or the remainder |
| PositionLedger.PartialRemoval | api/lpod_audit_daily.go:1357-1366 | a whole record is accepted in which a removal returns any part of the remainder |
| PositionLedger.IdleVault | api/lpod_audit_daily.go:1180-1211 | a vault row that such a record can have |
| PositionAudit.AccrueConserves | api/lpod_audit_daily.go:1300-1311 | one block's accrual loses nothing to rounding |
| PositionAudit.VerifyRows | api/lpod_audit_daily.go:1252-1388 | succeeds exactly when the rows are the expected positions, each passes the given row check, and nothing overflows |
| PositionAudit.SumRows | api/lpod_audit_daily.go:1274-1387 | running totals and payouts of all rows |
| PositionAudit.OwedTotal | api/lpod_audit_daily.go:1381-1401 | beneficiaries are credited exactly what rows pay and return |
| PositionAudit.PayoutTotal | api/lpod_audit_daily.go:1095-1129 | outputs add up to everything owed |
| BlockAudit.VerifyRecord | api/lpod_audit_daily.go:978-1087 | accepts exactly the records, of blocks later than their parents, whose vaults, rows under the capped elapsed time, deltas and payouts reconcile |
| BlockAudit.PayoutsConserve | api/lpod_audit_daily.go:1054-1129 | payout outputs total leader plus guardian plus returned principal |
| BlockAudit.VerifyPayouts | api/lpod_audit_daily.go:1089-1129 | references and outputs are the one sorted list of positive amounts |
| BlockAudit.VerifyDeltas | api/lpod_audit_daily.go:1054-1079 | row and vault sums equal the checkpoint counter growth, leader credited without overflow |
| BlockAudit.CheckVaults | api/lpod_audit_daily.go:1180-1211 | accepts exactly distinct vault rows with sound tier and stake arithmetic |
| BlockAudit.TierOfIsHighest | lpod/accounting.go:39-49 | a stake between 100K and 100M gets the highest tier it reaches |
| BlockAudit.TierFor | lpod/accounting.go:39-49 | the downward scan computes that tier |
| DayFold.BatchesAreOnePass | api/lpod_audit_daily.go:447-640 | cutting the pass at any boundaries, with chain and certificate growing in between, equals one pass |
| DayFold.HashFixesPrefix | api/lpod_audit_daily.go:451-460 | an unchanged predecessor hash fixes everything below it |
| DayReport.CompleteCoversInterval | api/lpod_audit_daily.go:641-657 | a completed audit included exactly the heights strictly between anchor and witness, which are exactly the blocks of the day from the anchor to the certificate |
| DayReport.BoundsFixCoverage | api/lpod_audit_daily.go:311-383 | with searched bounds the included count at every height is fixed by anchor and witness |
| DayReport.FirstAtOrAfter | api/lpod_audit_daily.go:311-341 | under nondecreasing timestamps the search finds the first height at or after a time, or there is none |
| DayReport.FindBounds | api/lpod_audit_daily.go:300-383 | the searched anchor and witness bound the day wherever timestamps do not fall, keep the block bound, and exist exactly when the range reaches both ends of the day |
| DayReport.CompleteHasBounds | api/lpod_audit_daily.go:311-657 | a complete pass from a searched anchor has searched bounds, since the pass itself saw the timestamps rise |
| DayReport.SumsTelescope | api/lpod_audit_daily.go:548-628 | row sums equal closing minus opening checkpoint counters, cut or not |
| DayReport.SavedProgressIsValid | api/lpod_daily_job_integrity.go:83-151 | every progress a batch can save passes the progress validation |
| DayReport.FinishedProgressIsValid | api/lpod_daily_job_integrity.go:152-155 | a pass that reaches the certificate passes as a finished job if and only if the day has a block |
| AuditRules.StepExactly | api/lpod_audit_daily.go:526-639 | the pass goes on exactly over a linked block outside the day, or an audited one below 40000 blocks whose sums fit |
| AuditRules.TakenExactly | api/lpod_audit_daily.go:533-628 | what an audited block adds to counts, sums, burns and continuity, and when a sum no longer fits |
| AuditRules.ExpectedExactly | api/lpod_audit_daily.go:1252-1273 | a row is due for every position after the block, and before it for every one not returned and settled |
| AuditRules.RowsExactly | api/lpod_audit_daily.go:1262-1388 | rows are accepted exactly if each expected position has one, each passes and nothing overflows |
| AuditRules.FitsExactly | api/lpod_audit_daily.go:1274-1387 | row sums and every beneficiary's credit fit 64 bits |
| AuditRules.VaultRowExactly | api/lpod_audit_daily.go:1180-1211 | a vault row is sound exactly if its stakes add up, the total capped at 100M is in a tier, its rates are the tier's and its stake is the registry's |
| AuditRules.VaultsExactly | api/lpod_audit_daily.go:1180-1211 | vault rows are accepted exactly if each is sound and none repeats |
| AuditRules.DeltasExactly | api/lpod_audit_daily.go:1054-1079 | row and vault sums are the growth of the checkpoint counters |
| AuditRules.SmallExactly | api/lpod_audit_daily.go:1054-1079 | vault sums fit 64 bits |
| AuditRules.ElapsedExactly | api/lpod_audit_daily.go:1227-1235 | time counts from the parent, for at most fifteen seconds |
| AuditRules.RecordExactly | api/lpod_audit_daily.go:548-602 | what the pass demands of the record of a block inside the day |
| AuditRules.AddVaultExactly | api/lpod_audit_daily.go:603-616 | a vault row enters its vault's sums while they fit |
| AuditRules.AddPositionExactly | api/lpod_audit_daily.go:62-80 | a position row enters its position's sums while they fit and its named beneficiary stays |
| AuditRules.OwedExactly | api/lpod_audit_daily.go:1054-1087 | a block owes what its rows owe and to its leader what the vaults paid it |
| DailyJobs.DailyJob.RunBatch | api/lpod_daily_jobs.go:310-365 | a queued, current batch fails if and only if its progress does not resume, the pass up to its end fails or is incomplete at the certificate, the bindings are lost or saving fails; otherwise it saves exactly what one pass gives there and finishes at the certificate; a replaced job is left alone |
| DailyJobs.DailyJob.RunToEnd | api/lpod_daily_jobs.go:122-145 | batches repeated on a certified chain finish, whatever time each gets, with the report of one pass |
| DailyJobs.DailyJob.Resume | api/lpod_audit_daily.go:447-478 | resumes if and only if the saved predecessor is still canonical and certified, and then loses nothing |
| DailyJobs.AuditRange | api/lpod_audit_daily.go:498-639 | stops after 256 blocks, at the time limit or at the certificate, not before one block, and fails exactly when the pass does up to there |
| DailyJobs.AuditBlock | api/lpod_audit_daily.go:526-639 | one round of the ancestry loop is one fold step |
| DailyJobs.AccumulateVaults | api/lpod_audit_daily.go:603-616 | vault sums, refusing overflow |
| DayReport.AddPositionsSums | api/lpod_audit_daily.go:62-80 | accumulating rows raises the sum over all positions by exactly the rows' totals |
| VaultFilter.FilterPositions | consensus/lpod.go:235-332 | running totals equal recomputed ones, limits hold, every vault with a kept deposit is within 100M at the end, other transactions survive in order |
| VaultFilter.ScreenKeeps | consensus/lpod.go:271-330 | every kept request keeps totals exact without underflow; a kept deposit leaves its vault within 100M |
| VaultFilter.FilterKeeps | consensus/lpod.go:235-332 | the same over any list of transactions |
| VaultFilter.FilterIdempotent | consensus/lpod.go:235-332 | screening the kept list again keeps all of it |
| VaultFilter.KeptNonces | consensus/lpod.go:305-320 | the kept withdrawals from a position carry consecutive nonces |
| VaultFilter.DepositExactly | consensus/lpod.go:283-304 | a deposit is kept exactly for a new position below 4096, an active unseeded staying validator and a tier whose minimum it meets, and opens an untouched position |
| VaultFilter.WithdrawalExactly | consensus/lpod.go:305-320 | a withdrawal is kept exactly for an open position, its own deposit, the next nonce and at most the remainder, and closes the position exactly when nothing remains |
| VaultFilter.Load | consensus/lpod.go:244-258 | loading drops exactly the returned positions with nothing due and starts with exact totals |
| Fees.ConsensusBurns | consensus/poa.go:1028-1069 | for every block the burn is the reference total, or the sentinel exactly when something overflows; for every validated economic block nothing does and burned plus tips is the sum of fees |
| Fees.AuditBurns | api/lpod_audit_daily.go:1411-1465 | answers exactly the auditable blocks, with the burns seen from fee and minimum; for every validated economic block with a base fee they are the reference split |
| Fees.ApiBurns | api/server.go:1396-1454 | answers exactly the blocks whose markers and gas limits are in order, and wherever the audit answers, the same |
| Fees.CompareBurns | consensus/poa.go:1028-1076 | audit and API agree wherever the audit answers; for every validated economic block with a base fee the three totals coincide, with and without the gas-burn rule |
| Fees.AcceptedConserves | consensus/poa.go:1028-1069 | in a validated economic block nothing overflows and burns plus tips are the fees |
| Fees.ReferenceSnoc | consensus/poa.go:1028-1069 | the reference split in numbers: only coinbase and stake count for nothing, of the others the fee up to size times rate, the signed burn and ten units for each unit of gas |
| Fees.EconomicSnoc | consensus/poa.go:1297-1340 | the economics rules in numbers: who pays, how much, and the bounds on fees, minimums and gas |
| Fees.ValidateEconomics | consensus/poa.go:1280-1340 | the guarded loop accepts exactly the economic blocks |
| Fees.FreeProtocolFees | consensus/poa.go:1300-1335 | when exempt transactions are free the validator's bound covers all fees |
| Fees.AcceptedMarked | core/transaction.go:205-300 | structural validation and the economics rules leave burn markers on charged transactions only, all well formed |
| Fees.AcceptedFees | core/transaction.go:217-256 | the fees of a validated economic block fit 64 bits although only charged ones are added up |
| Fees.Saturates | core/transaction.go:501-512 | the 64-bit minimum fee is the exact one, saturated |
| BaseFee.RestartChangesNothing | consensus/poa.go:455-463 | from activation on, after any mix of blocks and restarts, the expected fee is that of an engine restarted at the tip |
| BaseFee.FeeIsFunctionOfSizes | consensus/poa.go:1351-1366 | wherever the fee rule is strict, from activation or from genesis, committed fees depend on the first one and on block sizes alone |
| BaseFee.FirstFee | consensus/poa.go:1351-1366 | the first strict fee at the activation height and after genesis |
| BaseFee.NextFeeExactly | consensus/poa.go:1001-1015 | the rule in numbers: the fee, 200 if there is none, moves by the integer nearest to fee * (size - 500000) / 4000000 and not below 50 |
| BaseFee.FeeAfter | consensus/poa.go:2170-2180 | what an accepted block leaves as the next fee, with a fee of its own, produced without one and received without one |
| BaseFee.MonotoneInSize | consensus/poa.go:1001-1015 | fuller blocks never lower the next fee |
| BaseFee.MovesAnEighth | consensus/poa.go:1001-1015 | up to twice the target the fee moves by at most one eighth, rounded |
| BaseFee.RiseCap | consensus/poa.go:1001-1015 | the exact condition under which the one-eighth cap holds above the target |
| BaseFee.NoCapAboveTwiceTarget | consensus/poa.go:997-1015 | a block of four times the target raises 200 to 275 |
| BaseFee.FixedAtTarget | consensus/poa.go:1001-1015 | at the target the fee stays |
| BaseFee.NeverBelowMinimum | consensus/poa.go:1011-1013 | the fee never falls below its floor |
| BaseFee.FeeEngine.AcceptBlock | consensus/poa.go:2170-2180 | validates the committed fee and advances the fee state |
| Emission.ConcurrentDraws | consensus/poa.go:562-590 | in every interleaving of compare-and-swap calls, n returned calls take exactly n rewards or empty the pool |
| Emission.DrawsAddUp | consensus/poa.go:562-590 | at every moment the balance is the initial one less one draw per returned call |
| Emission.Engine.DecrementPool | consensus/poa.go:542-591 | remaining has its closed form, drawn plus remaining stays the pool, then one tail reward per block |
| Emission.Engine.PayBlock | consensus/poa.go:1849-1867 | what a block pays is exactly what pool and tail then account for, the last pool payment perhaps partial |
| Emission.FundedClosedForm | consensus/poa.go:1849-1867 | the pool pays the first ceil(init/reward) blocks and no other |
| Emission.RewardIsQuotient | consensus/poa.go:974-984 | the reward at a height is the base divided by two to the power of the era |
| Emission.IssuanceBounded | consensus/poa.go:978-984 | the halving schedule issues less than two base intervals over any number of heights |
| Emission.EraSumBound | consensus/poa.go:978-984 | era rewards sum to less than twice the base |

## Left out

- Ring signatures, commitments, stealth addresses, range proofs, wallet sends: cryptography is not visible here.
- HTTP and JSON handlers, CORS, API keys, WebSocket hub, exports, metrics, logging: plumbing.
- Cursor tokens of the change feed: signing and parsing them; the model starts from the position they carry.
- Building wallet events from transactions: a block's items are given, and only amounts depend on the view.
- Wasm module decoding and the runtime: foreign code; control flow is modelled for the gas bound only, and freedom from floating point is not claimed because the admitted range 0xa7..0xb1 contains float conversions.
- Committee changes, finality migration and authority rotation: the committee is fixed.
- Proposer schedule, timestamps skew bans, slashing evidence, oracle prices and admin minting.
- The transaction index and the ring-sampling lookups over the decoy pool: no proved property reads them.
- The UTXO set, stake registry and journal are values that the engine reassigns: updates inside their maps are not shown one by one.
- Registry rules are an arbitrary function of registry, transaction and height; UpdateEpoch is not modelled.
- The daily reward summary, funding-identity details and registry replay: the last is an arbitrary function, and marker checks are booleans of a record.
- Settlement of LPoD payouts, sale orders and migrations inside the store.
- Checkpoint signing policies: a checkpoint's signature check is a boolean.
- Base fees before activation: zero-valued headers use different fallbacks, so the theorem starts there.
- Authorized rewards and the LPoD reward era: only the legacy pool and the halving schedule.
- BlockUndo.RollbackUndoesApply: takes a set whose indexes agree and a block that creates no output under the key of a pooled spent one; keys contain transaction hashes, so this is collision freedom.
- CanonicalRun.MemoryIsFoldOfDisk: the recency lists of memory and of the durable chain may differ after a rollback; only their lengths are related from block to block.
- Divergence.PushedExactly: takes rings in which at most one member matches, listed outputs that their one-time keys find, and old keys pushed off that are none of the block's; without the first two LeavingExactly is the exact statement.
- DayReport.SavedProgressIsValid: the checks of job date, state, registry keys and stored result are not modelled.
- Fees.CompareBurns: only blocks with a nonzero base fee, which the economics rules demand.
- StaticGas.Scan: takes the step over an immediate as a parameter; SkipImmediate proves the loops that compute it.
