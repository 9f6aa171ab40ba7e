# Verified model of the SYNTHOS chain core

This project models, in Dafny, the state machine of `internal/chain`, the ABCI application that runs it
(`cometapp/app`), and two satellites: the registry's reward keeper and the two Merkle builders. It proves
what these promise over every input, every run and every reachable state. `dafny verify dfyconfig.toml`
checks all of it.

## What is modelled

* **The chain** (`Ledger`, `ChainMachine`, `ChainObject`). `Transition` is the effect of a block;
  `View` holds the fields of the chain: hot window, checkpoint, live state. `ChainObject.Chain` is the
  object with those fields; each of its methods is proved equal to a step of the machine.
* **Its meaning** (`HotWindow`). `Node` adds the full history no field holds any more. Steps are the locked
  sections: finalize, change the window, begin a reorganization, swap one in. Any number of attempts may be
  under way, and anything may happen between a begin and its swap.
* **What holds of it**: certified histories (`CertifiedHistory`), the effect of a block and who decides the next
  ones (`BlockEffects`), fork choice (`ForkChoice`), block building (`BlockBuilding`, `BlockContents`), reads
  (`BlockReads`) and the stake quorum (`StakeQuorum`), all about the same machine.
* **Money**: fee split and epoch payout (`FeeEpoch`, `FeeLedger`, `EpochPayout`, `LedgerObject`), pools (`Dex`),
  citizen staking (`Citizen`). All amounts are uint64 with the wrap-around written out.
* **The ABCI application** (`AbciApp`, `ValidatorUpdates`, `EngineSync`, `EngineLedger`, `EngineRotation`) and the
  consensus engine that applies its updates (CometBFT v0.38 ABCI specification, application requirements,
  "Updating the Validator Set").
* **The reward keeper** (`Hardware`, `RewardKeeper`, `RewardLedger`, `RewardSelection`) and the **Merkle
  builders** (`TxMerkle`, `AdopterMerkle`).

Code that is opaque to the model -- signatures, hashes, `State.ApplyTx`, `State.Root`, the validator
registry, the clock, the cold archive, what a node answers to Submit -- is a function-valued parameter
(`Rules`, `AppRules`, `Hashing`, `World`, `Archive`), so every theorem holds for all of them. A chain's
configuration is fixed over a run. Times are unix nanoseconds in the chain, seconds in citizen staking and
milliseconds in the registry.

Hypotheses that carry a name:

* `InertGenesis`: genesis has no transactions and no end-of-block step is due at height 0.
* `Clear`: every reorganization a run installs is `ClearOfCorrections`, that is, no correction is configured
  for a height it replays. Only what is said of states needs it, and nothing else in a run is restricted: a
  chain with corrections that never reorganizes across them is covered, from genesis on
  (`HotWindow.ClearRuns`).
* `Improving`: every installation of a run improves on the chain it finds or repeats it; `Serial` (no attempt
  is installed over a later installation) implies it (`ForkChoice.SerialImproves`).
* `Faithful`: a cold archive, if there is one, answers with the block finalized at that height or not at all.
* `Unguarded` and `SkipsCleanly`: no validator set decides the next block, and candidates skipped while
  building it leave no trace in the state.
* `Regular`: the sums of a deposit to a pool that has shares fit in uint64 (`Fits`); `NeverFounds`: no deposit
  of the run goes to a pool without shares.
* `SetsWellFormed`: the registry lists each consensus key once, with positive power. `SnapshotStable`: with
  stake consensus off, which genesis demands, no transaction replaces the snapshot; `SnapshotUntouched` says so of
  the chain's own rules. `FeesUntouched`: no
  transaction touches the fee accumulators. `Orderly`: blocks come at consecutive heights, their votes carry
  at most the total supply, balances and fees fit in uint64, genesis starts with empty accumulators.
* `Filed`: a peer record is stored under its own, non-empty name, which every registration path sees to.
* `CollisionFree`: neither hash has collisions.

## Where the code does less than it says

Each of these is kept as the code has it, shown by a lemma, and fenced by the condition under which the
promise does hold.

* A reorganization installed while nothing has been trimmed leaves genesis out of the window. Heights then no
  longer equal index plus start (`ForkChoice.ReorgDropsGenesis`, exactly when: `HotWindow.RunAligned`), reads
  are off by one (`BlockReads.DroppedReadsAreOff`, `BlockReads.DroppedRangeIsOff`; which ranges are still
  right: `BlockReads.DroppedRangeExactly`) and later reorganizations cannot succeed
  (`HotWindow.DroppedRefusesReorg`).
* The recheck before a swap compares only length and start of the window, so an attempt can be installed over
  another one installed since it began: the weight falls and an abandoned history comes back
  (`ForkChoice.ConcurrentReorgsOscillate`). The weight never falls exactly when every installation passes one
  more comparison, of its branch against what the chain then holds (`ForkChoice.MonotoneExactly`).
* The scratch chain has no corrections, so a branch replayed across a corrected height is installed with a
  state its history does not replay to (`ForkChoice.ReorgForgetsCorrection`); the two replays agree at every
  height exactly when no correction of a replayed height changes a balance there
  (`HotWindow.ScratchReplaysExactly`).
* Without a cold reader, a range read that starts below the window and reaches into it answers with the
  window's blocks as if they came first (`BlockReads.NoArchiveSkipsGenesis`; exact condition in
  `BlockReads.BlocksRangeServesHistory`).
* `BuildBlock` debits a correction of the new height twice (`BlockBuilding.CorrectionSpoilsBlock`; exact
  condition in `BlockBuilding.BuiltBlockIsValid`) and keeps what a failed candidate did to the state
  (`BlockBuilding.DirtyFailureSpoilsBlock`; exact condition in `BlockBuilding.FaithfulExactly`).
* `sqrtUint64` divides by zero at the largest uint64 (`Dex.SqrtUint64`, `Dex.FirstDepositCrashes`). A deposit
  whose sums wrap loses liquidity per share (`Dex.WrappedDepositDilutes`, exactly when: `Dex.BookedExactly`).
  Products that wrap dilute nobody else, but underpay whoever withdraws and under-mint whoever deposits, on
  ordinary amounts (`Dex.WrappedWithdrawalUnderpays`, exactly when: `Dex.RemovePaysExactly`,
  `Dex.MintsFairExactly`).
* Citizen rewards are said to stay far from overflow, yet one percent of the supply staked for a year at the
  shipped rate is paid a tenth of its reward (`Citizen.AccrualWraps`, exactly when: `Citizen.AccrualExactly`).
  Even then no claim pays more than accrued, and no partial claim forfeits anything.
* Unstaking onto a balance that would overflow loses the stake (`Citizen.UnstakeConserves`).
* Quorums of total power T are sure to intersect exactly when twice T fits in uint64
  (`StakeQuorum.IntersectionExactly`); from 2^63 on two disjoint signers can both pass.
* A reward sum that wraps defeats the monthly cap (`RewardLedger.UnlimitedCapOverspends`, exactly when:
  `RewardLedger.OverspendsExactlyOnWrap`).
* The scratch chain is said to run the very checks the chain runs, but it enforces authorization and state
  roots from height 0: it refuses blocks the chain finalized before it enforced them
  (`ForkChoice.ScratchRefusesGrandfathered`, exactly which: `HotWindow.ScratchAcceptsExactly`).
* The transaction Merkle root does not tell an odd list from the same list with its last entry repeated
  (`TxMerkle.RepeatedLastKeepsRoot`; what a root does tell is `TxMerkle.RootsEqualExactly`).
* Three pieces of code cannot be reached: the second state-root check of `FinalizeBlock`, the final truncation
  in `BlocksRange` (both `assert false` in `ChainObject.Chain`), and the per-operator clamp of the epoch payout
  (`FeeEpoch.PayAllInFull`).

## Model

| member | source | states |
|---|---|---|
| `Ledger.RequiredFee` | internal/chain/abci_support.go:22-50 | a plain send pays the least fee between 10 and 1000 that covers a thousandth of the amount, capped at a million; everything else pays 10 |
| `Ledger.MinimumFee` | internal/chain/abci_support.go:70-85 | from FeeModelV2Height on nothing below that fee applies, and it changes nothing; otherwise the rules decide alone |
| `Ledger.SenderTimeIgnored` | internal/chain/abci_support.go:70-85 | under consensus time the time the sender wrote makes no difference |
| `Ledger.ReplayAppend` | internal/chain/chain.go:350-405 | replaying in two parts is replaying the whole |
| `Ledger.TransitionWithoutCorrections` | internal/chain/chain.go:1210-1230 | only corrections set at a block's own height reach its transition |
| `HotWindow.RunSound` | internal/chain/chain.go:350-405 | over every interleaving of finalizations, window changes and overlapping reorganizations, corrections configured or not, as long as no installed reorganization replays a corrected height: the window is the end of the history, the checkpoint its replay up to the window, the live state its whole replay, the bound is met, and every attempt's anchor is still right |
| `HotWindow.NextSound` | internal/chain/chain.go:808-840 | one locked section keeps that invariant, and drops genesis exactly when it installs over an untrimmed chain |
| `HotWindow.FreshChainSound` | internal/chain/chain.go:175-237 | a new chain satisfies the invariant |
| `HotWindow.TrimAgrees` | internal/chain/chain.go:350-405 | trimming never fails on finalized blocks, moves the checkpoint to the right replay and leaves exactly as many blocks as the bound allows |
| `HotWindow.CheckpointReplay` | internal/chain/chain.go:319-340 | replaying window blocks from the checkpoint is replaying the history to that height |
| `HotWindow.InstalledAgrees` | internal/chain/chain.go:1569-1585 | reorg safety: a swap whose recheck passes and which replayed no corrected height leaves blocks contiguous with the history below them and a state equal to its replay from the unchanged checkpoint |
| `HotWindow.ScratchReplaysExactly` | internal/chain/chain.go:1537-1550 | the scratch chain replays a branch through the same states as the chain's own rules if and only if no correction of a replayed height changes the state it would be applied to |
| `HotWindow.ClearRuns` | internal/chain/chain.go:1195-1230 | runs of a chain without corrections, and runs that install no reorganization, meet the hypothesis on corrections |
| `HotWindow.EvaluatedBranch` | internal/chain/chain.go:1528-1563 | a successful scratch replay is the anchor, the prefix and the stamped candidate, each linked to the one before, in the state it replays to |
| `HotWindow.RunAligned` | internal/chain/chain.go:1473-1487 | over every run at all, block index equals height minus window start if and only if no untrimmed chain was reorganized in it |
| `HotWindow.RunStanding` | internal/chain/chain.go:1440-1586 | over every run at all, reorganizations across corrected heights included, the window is the end of a linked history and every attempt's anchor is still right |
| `CertifiedHistory.RunCertified` | internal/chain/chain.go:738-840 | over every run, reorganizations included, every block above genesis is linked, hashed, made of genuine transactions that pay their fee, committed to by its root and authorized by the stake or roster of the state below it |
| `CertifiedHistory.ValidIsCertified` | internal/chain/chain.go:738-806 | what validation accepts is certified so |
| `CertifiedHistory.BranchCertified` | internal/chain/chain.go:1528-1563 | and so is every block of a branch that replayed |
| `BlockEffects.FinalizePays` | internal/chain/chain.go:808-840 | finalizing leaves every account what the transactions left it, plus the unburned fees for the payee, less the corrections due, never below zero |
| `BlockEffects.PayeeExactly` | internal/chain/chain.go:857-884 | the payee is the operator of the snapshotted member with the proposer's key under stake, the roster account otherwise, nobody if there is none |
| `BlockEffects.CorrectionsDebit` | internal/chain/chain.go:1210-1230 | a correction takes what is due and never more than there is |
| `BlockEffects.SnapshotTaken` | internal/chain/chain.go:892-898 | a block that ends an epoch snapshots the staked set of the state it leaves; every other block leaves the snapshot its transactions left |
| `BlockEffects.SnapshotHeights` | internal/chain/validator_staking.go:132-146 | epochs end at the block before stake consensus starts and every EpochBlocks blocks after |
| `BlockEffects.EpochAuthority` | internal/chain/validator_staking.go:132-146 | the set snapshotted at h decides blocks h+1 through h+EpochBlocks, whatever is finalized in between |
| `BlockEffects.FinalizedOnTime` | internal/chain/chain.go:749-756 | no finalized block is dated before its parent or more than five minutes ahead |
| `HotWindow.ScratchAcceptsExactly` | internal/chain/chain.go:1537-1550 | away from corrections, the scratch chain accepts exactly the blocks the chain accepts that also carry roster authorization and a true root, enforced or not |
| `HotWindow.ScratchFinalizesAlike` | internal/chain/chain.go:1528-1563 | over heights the chain enforces both at, without corrections, the scratch chain accepts the same blocks and reaches the same states |
| `HotWindow.DroppedRefusesReorg` | internal/chain/chain.go:332-340 | once genesis was dropped, no reorganization begun from that chain can be replayed |
| `ForkChoice.StepWeighs` | internal/chain/chain.go:1513-1525 | a step leaves the history alone or makes (verified approvals, length) strictly greater if and only if it is not an installation whose branch neither improves on nor repeats what the chain holds |
| `ForkChoice.SwapWeighs` | internal/chain/chain.go:1513-1586 | an installation makes the history heavier if and only if its prefix and candidate outweigh the chain's current blocks above the same point, and leaves it alone if and only if they are those blocks |
| `ForkChoice.MonotoneExactly` | internal/chain/chain.go:1440-1586 | along every run the weight never falls if and only if every installation passes that comparison |
| `ForkChoice.RunOutweighs` | internal/chain/chain.go:1440-1586 | over every such run, with overlapping attempts, finalizations and window changes in between, the history only gets heavier |
| `ForkChoice.NeverReturns` | internal/chain/chain.go:1513-1525 | a history once left never becomes current again in such a run |
| `ForkChoice.SerialImproves` | internal/chain/chain.go:1440-1586 | a run in which no attempt is installed over a later installation is such a run |
| `ForkChoice.ReorgInstallsExactly` | internal/chain/chain.go:1440-1586 | a branch that begins on an undisturbed chain is installed if and only if it replays and the history it leaves outweighs the current one: more approvals, or as many and longer |
| `ForkChoice.BeginsExactly` | internal/chain/chain.go:1440-1506 | a reorganization begins if and only if its candidate starts at a height above the anchor and at most the tip; it then contests exactly the blocks from there |
| `ForkChoice.ReorgDropsGenesis` | internal/chain/chain.go:1579-1585 | reorganizing a young, never trimmed chain leaves a window without genesis |
| `ForkChoice.ConcurrentReorgsOscillate` | internal/chain/chain.go:1569-1571 | two attempts begun together are both installed, the weight falls, and the abandoned history is brought back |
| `ForkChoice.ReorgForgetsCorrection` | internal/chain/chain.go:1537-1550 | a branch whose root ignores a correction inside the window, which the chain itself refuses, is installed with a state its history does not replay to |
| `ForkChoice.ScratchRefusesGrandfathered` | internal/chain/chain.go:1537-1550 | a block from before roots were enforced is finalized by the chain and refused by the scratch chain |
| `StakeQuorum.VerifyStakeAuthorization` | internal/chain/chain.go:930-972 | accepts exactly the blocks of a staked, signed proposer whose distinct valid approvers, under any spelling and in any map order, exceed two thirds of the power in uint64 arithmetic |
| `StakeQuorum.ApprovedPower` | internal/chain/chain.go:948-966 | the accumulated power is the sum over the set of distinct lower-cased keys with some valid signature |
| `StakeQuorum.ApprovedIsPowerOf` | internal/chain/chain.go:931-966 | with distinct keys that sum is the power of the approving members |
| `StakeQuorum.QuorumExactly` | internal/chain/chain.go:948-972 | where nothing wraps, a quorum is strictly more than two thirds of the power |
| `StakeQuorum.ApproversExactly` | internal/chain/chain.go:948-966 | an approver is a member for one of whose spellings a valid signature was sent |
| `StakeQuorum.QuorumIntersection` | internal/chain/chain.go:948-972 | two blocks of one height accepted against one set whose doubled total fits in uint64 share validators with more than a third of the power, each of which signed both |
| `StakeQuorum.WrappedPowersLoseIntersection` | internal/chain/chain.go:965-971 | for every greater total there is a set of uint64 powers in which two disjoint signers both pass |
| `StakeQuorum.IntersectionExactly` | internal/chain/chain.go:965-971 | quorums of total power T always intersect if and only if 2T < 2^64 |
| `BlockReads.BlocksRangeServesHistory` | internal/chain/chain.go:438-511 | a range read is the slice of the history asked for, cut only at the first height missing from the archive, if and only if there is a cold reader or the request does not reach from below the window into it |
| `BlockReads.NoArchiveSkipsGenesis` | internal/chain/chain.go:486-490 | genesis and one block trimmed to one, no reader: a read of everything answers with block 1 only |
| `BlockReads.BlocksRangeComplete` | internal/chain/chain.go:438-511 | with a complete archive it is exactly the slice from max(from, 0) of min(limit, available) blocks |
| `BlockReads.BlockAtServesHistory` | internal/chain/chain.go:1332-1368 | a single read answers with the block of that height, or nothing above the tip or across a gap |
| `BlockReads.DroppedReadsAreOff` | internal/chain/chain.go:1352-1368 | after genesis was dropped every in-window single read returns the next block |
| `BlockReads.DroppedRangeIsOff` | internal/chain/chain.go:438-511 | and every range read inside the window starts one block late |
| `BlockReads.DroppedRangeExactly` | internal/chain/chain.go:438-511 | a range read still serves the history if and only if it ends below the window, at its limit or at a gap in the archive |
| `BlockBuilding.BuiltBlockIsValid` | internal/chain/chain.go:643-708 | without a validator set and with clean skipping, a built block can be finalized if and only if its time suits tip and clock and applying its height's corrections once more leaves the enforced root alone; always with a monotone clock and no correction |
| `BlockBuilding.FaithfulExactly` | internal/chain/chain.go:672-680 | after every candidate the selection's state is what the chosen transactions produce, if and only if every skipped candidate left the state alone |
| `BlockBuilding.SelectedApplies` | internal/chain/chain.go:672-680 | then the final state is theirs, all of them genuine and within the limit |
| `BlockContents.BuiltBlockHolds` | internal/chain/chain.go:643-708 | a built block holds candidate i if and only if it has room and i applies to the state the earlier ones it holds lead to, in order, and names its builder, parent, height and time |
| `BlockBuilding.CandidatesOrdered` | internal/chain/chain.go:656-670 | the candidates are the mempool's transactions in the one order the comparison allows: fees never rise, and a sender's nonces rise within a fee |
| `BlockBuilding.DirtyFailureSpoilsBlock` | internal/chain/chain.go:672-680 | a candidate that writes before it fails makes the producer's block invalid |
| `BlockBuilding.CorrectionSpoilsBlock` | internal/chain/chain.go:684-691 | a correction at the new height makes the producer's block invalid |
| `ChainObject.Chain.constructor` | internal/chain/chain.go:175-237 | a new chain holds genesis only, unapplied |
| `ChainObject.Chain.TrimHotWindow` | internal/chain/chain.go:350-390 | is the machine's Trim; nothing else changes |
| `ChainObject.AdvanceCheckpoint` | internal/chain/chain.go:392-405 | the checkpoint moves by the replay of the evicted blocks, or not at all |
| `ChainObject.Chain.SetHotWindow` | internal/chain/chain.go:239-257 | sets the bound and trims to it |
| `ChainObject.Chain.ValidateBlock` | internal/chain/chain.go:738-806 | accepts exactly the valid blocks, and reports a root mismatch exactly when everything else about the block is sound |
| `ChainObject.Chain.FinalizeBlock` | internal/chain/chain.go:808-840 | succeeds exactly on valid blocks, is the machine's step, forgets the included transactions, changes nothing on error; its second root check never fires |
| `ChainObject.Chain.Authorize` | internal/chain/chain.go:757-766 | stake set, roster or nothing decides, by height and configuration |
| `ChainObject.VerifyRoster` | internal/chain/chain.go:1381-1411 | a roster block needs a signed member proposer and enough distinct valid approvals |
| `ChainObject.VerifiedApprovalCount` | internal/chain/block.go:70-88 | counts the distinct roster members with a valid approval |
| `ChainObject.IsHeavier` | internal/chain/chain.go:1513-1525 | strictly more approvals over the contested range, or as many and longer |
| `ChainObject.ApplyBlock` | internal/chain/chain.go:815-824 | transactions, fees and end-of-block steps compute the transition |
| `ChainObject.CreditFees` | internal/chain/chain.go:974-997 | the proposer gets the fees less the burned half, or the block fails on overflow |
| `ChainObject.FinishBlock` | internal/chain/chain.go:892-903 | corrections of the height, then the epoch snapshot |
| `ChainObject.Chain.SubmitTx` | internal/chain/chain.go:520-575 | admits exactly signed, new transactions of this chain with the next nonce and, for citizen rewards, a timely clock; every entry is filed under its ID; a refusal changes nothing |
| `ChainObject.Chain.BuildBlock` | internal/chain/chain.go:643-708 | the block depends on the mempool's contents only |
| `ChainObject.Chain.BlockAt` | internal/chain/chain.go:1332-1368 | is the read proved against the history |
| `ChainObject.Chain.BlocksRange` | internal/chain/chain.go:438-511 | is the range read proved against the history; its final truncation never cuts |
| `ChainObject.Chain.BeginReorg` | internal/chain/chain.go:1440-1506 | the refusals in order, then the snapshot of prefix, tail, checkpoint and length |
| `ChainObject.Chain.EvaluateReorg` | internal/chain/chain.go:1508-1563 | fork choice and replay on a scratch chain, touching nothing live |
| `ChainObject.Chain.SwapReorg` | internal/chain/chain.go:1565-1586 | swaps exactly when length and start are unchanged, and otherwise changes nothing |
| `ChainObject.Chain.TryReorg` | internal/chain/chain.go:1440-1586 | the three phases in one call; a refused or failed attempt changes nothing |
| `FeeEpoch.SplitAccounts` | internal/chain/abci_support.go:100-163 | total = burn + treasury + proposer under both fee models, the treasury and the proposer gain exactly their parts, every other balance and the rest of the state stay, the income grows by the treasury part, and everything is burned exactly when nobody can be paid |
| `FeeEpoch.BurnsHalfExactly` | internal/chain/abci_support.go:100-163 | half of the fees is burned if and only if taking the percentage does not wrap |
| `FeeEpoch.RecordVotesSound` | internal/chain/abci_support.go:166-178 | each operator's signed power grows by exactly its committed votes, the total by all votes, and the first never exceeds the second |
| `FeeEpoch.PortionsBounded` | internal/chain/abci_support.go:210-222 | floor shares of parts within the whole sum to at most the amount |
| `FeeEpoch.AmountsCovered` | internal/chain/abci_support.go:210-235 | amounts sum to at most half the income and, after scaling, to at most the treasury's balance |
| `FeeEpoch.PayAllInFull` | internal/chain/abci_support.go:237-260 | covered amounts are paid in full in operator order: the clamp is dead |
| `FeeEpoch.DistributePays` | internal/chain/abci_support.go:191-267 | the payout is bounded by half the income and by the treasury, moves each balance by exactly what is listed, conserves coins even if an operator is the treasury, and resets the epoch |
| `EpochPayout.PayoutExactly` | internal/chain/abci_support.go:191-267 | every operator receives the floor of half the income times its signed over the total power, or, when the treasury cannot cover all, the floor of that share's part of the balance |
| `EpochPayout.PayoutBounds` | internal/chain/abci_support.go:210-222 | where covered, a payout a of an operator with power w has a * total <= income / 2 * w < (a + 1) * total |
| `EpochPayout.UnpaidCovered` | internal/chain/abci_support.go:210-222 | what stays unpaid is what nobody signed for and less than a unit per operator |
| `EpochPayout.UnpaidScaled` | internal/chain/abci_support.go:227-235 | when it cannot cover all, the treasury pays out all but less than a unit per operator |
| `EpochPayout.EpochPays` | cometapp/app/app.go:371-388 | the last block of an epoch pays by the income and power of the whole epoch, its own included; no other block pays |
| `FeeLedger.RunInOrder` | cometapp/app/app.go:348-388 | over every run of block entries: settled epochs are 0, 1, 2, ... in order, cumulative payouts stay within half of cumulative treasury income, and the accumulators stay sound and within uint64 |
| `EngineLedger.RunAudited` | cometapp/app/app.go:232-439 | the same over every run of InitChain, CheckTx, FinalizeBlock and Commit, for what the committed blocks themselves reported |
| `EngineLedger.ExecuteCharges` | cometapp/app/app.go:345-414 | slashing and rotation leave the fee accumulators as the fee step left them, and the response reports that step |
| `FeeLedger.BoundaryHeights` | cometapp/app/app.go:374-376 | epochs settle exactly at FeeModelV2Height + k * 216000 - 1, numbered k - 1 |
| `LedgerObject.Book.ApplyBlockFees` | internal/chain/abci_support.go:100-163 | in place, the proved split |
| `LedgerObject.Book.RecordFeeEpochVote` | internal/chain/abci_support.go:166-178 | in place, the proved recording |
| `LedgerObject.Book.DistributeFeeEpochPayout` | internal/chain/abci_support.go:191-267 | in place, the proved payout, whatever order the map of signers is walked in |
| `LedgerObject.Book.ComputeAmounts` | internal/chain/abci_support.go:210-235 | the share and scaling loops compute the proved amounts |
| `ValidatorUpdates.ComputeUpdates` | cometapp/app/app.go:527-569 | emits the updates, or fails exactly when one has a malformed key or excessive power |
| `ValidatorUpdates.UpdatesConvert` | cometapp/app/app.go:527-556 | applied in order, power zero removing, they turn one set into the other exactly |
| `ValidatorUpdates.UpdatesAcceptable` | cometapp/app/app.go:527-556 | one update per key, and removals only of present validators |
| `ValidatorUpdates.UpdatesMinimal` | cometapp/app/app.go:527-556 | nobody whose power stays is mentioned |
| `AbciApp.App.InitChain` | cometapp/app/app.go:232-277 | installs genesis state, set, hash and mempool view and emits the whole set, or changes nothing |
| `AbciApp.App.CheckTx` | cometapp/app/app.go:292-308 | admits exactly what applies on top of what was admitted; a refusal changes nothing |
| `AbciApp.App.FinalizeBlock` | cometapp/app/app.go:313-423 | executes on a clone: only the pending block changes, to the specified result |
| `AbciApp.App.Commit` | cometapp/app/app.go:426-439 | the pending block becomes committed state and mempool view |
| `EngineSync.RunInSync` | cometapp/app/app.go:232-439 | over every run: the engine's set is the committed snapshot, never empty; the stored hash is the committed root; the mempool view is the admitted transactions applied to committed state |
| `EngineSync.ExecuteRotates` | cometapp/app/app.go:401-414 | a block's updates turn the committed snapshot into the one it leaves |
| `EngineRotation.RotatesExactly` | cometapp/app/app.go:401-414 | when someone was slashed or an epoch ends, and somebody is staked, the snapshot becomes the staked set and the updates lead there; otherwise it stays and no update is emitted |
| `EngineRotation.CommittedRotation` | cometapp/app/app.go:401-439 | once committed, the engine runs with the staked set if one was due and with the old one otherwise |
| `EngineRotation.ExecutesExactly` | cometapp/app/app.go:313-423 | a block is refused only for a missing treasury, fees that overflow or a set the engine cannot be told of |
| `EngineRotation.ExecTrace` | cometapp/app/app.go:327-343 | each transaction runs on what the ones before it left, and counts exactly when it decodes, is for this chain and applies |
| `EngineRotation.CheckedLikeExecuted` | cometapp/app/app.go:292-308 | CheckTx admits exactly what a block at the next height would execute on the mempool view |
| `EngineRotation.SlashTrace` | cometapp/app/app.go:390-399 | reports are acted on one after the other, and an effective one is remembered |
| `EngineRotation.VotesCounted` | cometapp/app/app.go:364-369 | votes reach the fee rules under their validator's operator with their power |
| `EngineRotation.InitsExactly` | cometapp/app/app.go:232-277 | genesis is accepted exactly when it is for this chain, sound, all validators bond and some are active, and what it then installs |
| `EngineRotation.BondTrace` | cometapp/app/app.go:249-253 | genesis validators are bonded one after the other until one cannot be |
| `EngineSync.FailedTxsErasable` | cometapp/app/app.go:313-423 | deleting every transaction reported with code 1 gives the same state, split, payouts, updates and hash |
| `Dex.SqrtUint64` | internal/chain/dex.go:43-54 | the floor square root, except a crash at the largest uint64 |
| `Dex.RunKeepsPool` | internal/chain/dex.go:68-215 | over every sequence of deposits, founding ones included, withdrawals and swaps whose deposit sums fit: no reserve underflows and shares held never exceed shares issued |
| `Dex.RunNeverDilutes` | internal/chain/dex.go:68-215 | and until the pool is founded anew liquidity per share never falls, wrapping products included |
| `Dex.RunBookedExactly` | internal/chain/dex.go:98-141 | all deposits of a run are booked if and only if none of their sums wraps |
| `Dex.AddKeeps` | internal/chain/dex.go:98-141 | a deposit whose sums fit mints at most its proportion and dilutes nobody |
| `Dex.BookedExactly` | internal/chain/dex.go:134-137 | a deposit adds shares and costs neither reserve value per share if and only if no sum wraps |
| `Dex.DepositTaken` | internal/chain/dex.go:98-141 | a deposit whose sums fit is taken if and only if it is worth a share; both reserves, the total and the provider gain exactly their part |
| `Dex.FoundingTaken` | internal/chain/dex.go:111-139 | a founding deposit is taken unless it mints nothing or its root crashes |
| `Dex.RemoveKeeps` | internal/chain/dex.go:143-178 | a withdrawal takes at most the reserves, exactly what it reports, and dilutes nobody |
| `Dex.SwapKeeps` | internal/chain/dex.go:180-215 | a swap adds the input, takes exactly the output, never lowers the product of the reserves and never empties one |
| `Dex.SwapsExactly` | internal/chain/dex.go:68-96 | a swap goes through if and only if both sides hold something and no number leaves uint64 |
| `Dex.AmountOutKeepsProduct` | internal/chain/dex.go:68-96 | the quote is below the reserve and keeps the product |
| `Dex.QuoteIsMost` | internal/chain/dex.go:68-96 | the quote is the greatest output that keeps the product with the fee held back |
| `Dex.FairMintIsMost` | internal/chain/dex.go:121-127 | the smaller exact proportion is the most shares that dilute neither reserve |
| `Dex.MintsFairExactly` | internal/chain/dex.go:121-127 | a deposit mints it if and only if at most one product wraps and that side still comes out no smaller; otherwise less |
| `Dex.RemovePaysExactly` | internal/chain/dex.go:143-178 | each side of a withdrawal is the shares' exact worth if and only if that side's product does not wrap |
| `Dex.HolderWithdraws` | internal/chain/dex.go:143-178 | whoever holds shares worth a unit on both sides can withdraw them, and only that holder changes |
| `Dex.WrappedWithdrawalUnderpays` | internal/chain/dex.go:162-163 | from an empty pool: 4e9 of 5e9 shares are paid 310,651,185 on either side instead of 4e9 |
| `Dex.SwapBackNeverProfits` | internal/chain/dex.go:180-215 | swapping and straight back returns at most what was put in |
| `Dex.AddThenRemoveNeverProfits` | internal/chain/dex.go:98-178 | depositing and withdrawing the minted shares returns at most the deposit on either side, as long as the share total fits |
| `Dex.FoundsFairExactly` | internal/chain/dex.go:111-116 | a founding deposit mints the root of the exact product if and only if that is below 2^64 - 1, or wraps to nothing and the amounts are within two of each other |
| `Dex.FirstDepositCrashes` | internal/chain/dex.go:111-116 | amounts whose product is the largest uint64 crash the first deposit |
| `Dex.WrappedDepositDilutes` | internal/chain/dex.go:134-137 | from an empty pool: a reserve sum that wraps costs the founder liquidity per share |
| `Dex.DEX.AddLiquidity` | internal/chain/dex.go:98-141 | one pool is updated as proved; a refused first deposit leaves an empty pool |
| `Dex.DEX.RemoveLiquidity` | internal/chain/dex.go:143-178 | one pool is updated as proved, a spent holder is deleted, a refusal changes nothing |
| `Dex.DEX.SwapTokens` | internal/chain/dex.go:180-215 | one pool is updated as proved, a refusal changes nothing |
| `Citizen.StakeConserves` | internal/chain/citizen.go:59-98 | spendable plus staked coins are conserved, also on the rolled-back overflow |
| `Citizen.UnstakeConserves` | internal/chain/citizen.go:100-135 | coins are conserved if and only if the request is not a valid one whose credit overflows |
| `Citizen.UnstakeCanLoseCoins` | internal/chain/citizen.go:118-130 | such a request exists |
| `Citizen.StakesExactly` | internal/chain/citizen.go:59-98 | staking succeeds if and only if the coins are there and the stake fits; a fresh stake accrues from now, an old one keeps its clocks, nobody else is touched |
| `Citizen.UnstakesExactly` | internal/chain/citizen.go:100-135 | unstaking succeeds if and only if the amount is staked and fits the balance; an emptied stake is gone |
| `Citizen.ClaimsExactly` | internal/chain/citizen.go:183-238 | a claim pays the lesser of pending and treasury, out of the treasury, and fails only unconfigured or on overflow |
| `Citizen.ClaimConserves` | internal/chain/citizen.go:183-238 | a claim conserves coins, even when claimant and treasury are one, and pays at most what is pending and held |
| `Citizen.AccrualExactly` | internal/chain/citizen.go:139-158 | the reward is the exact accrual if and only if amount times rate times elapsed does not wrap |
| `Citizen.AccrualWraps` | internal/chain/citizen.go:151-157 | a stake of 10^9 at 650 basis points is paid 6,505,758 for a year instead of 65,000,000 |
| `Citizen.CoveredExact` | internal/chain/citizen.go:240-249 | whatever the reward formula wraps to, its inverse never wraps, is the exact floor over what the stake accrues per second, and never exceeds the elapsed time |
| `Citizen.PartialClaimForfeitsNothing` | internal/chain/citizen.go:183-249 | after any partial claim at least the unpaid part is still pending, and the clock is not past now |
| `Citizen.ClaimSettles` | internal/chain/citizen.go:183-238 | the claim sequences below are sequences of the claim operation |
| `Citizen.ClaimsBacked` | internal/chain/citizen.go:139-249 | over any sequence of claims at all, D times what was paid is at most amount times rate times (seconds advanced + partial claims) |
| `Citizen.CitizenState.StakeCitizen` | internal/chain/citizen.go:59-98 | in place, the proved effect |
| `Citizen.CitizenState.UnstakeCitizen` | internal/chain/citizen.go:100-135 | in place, the proved effect |
| `Citizen.CitizenState.ClaimCitizenRewards` | internal/chain/citizen.go:183-238 | in place, the proved effect |
| `TxMerkle.TxMerkleRoot` | internal/chain/merkle.go:15-52 | the loops compute the level-by-level root |
| `TxMerkle.RootIsTree` | internal/chain/merkle.go:32-49 | that root is the root of one balanced tree defined top down |
| `TxMerkle.RootsEqualExactly` | internal/chain/merkle.go:15-52 | with a collision-free hash, lists with equally deep trees have equal roots if and only if they are equal once absent right halves are filled in |
| `TxMerkle.RootBinds` | internal/chain/merkle.go:15-52 | so equal roots of lists of equal length mean equal lists |
| `TxMerkle.RepeatedLastKeepsRoot` | internal/chain/merkle.go:34-47 | repeating the last of an odd number of transactions keeps the root |
| `AdopterMerkle.HashPairCommutes` | contracts/scripts/build-adopter-merkle.js:40-44 | the order of the pair does not matter |
| `AdopterMerkle.BuildTree` | contracts/scripts/build-adopter-merkle.js:46-100 | refuses exactly lists with duplicate leaves; otherwise lists every record once, each with a proof that verifies |
| `AdopterMerkle.Climb` | contracts/scripts/build-adopter-merkle.js:68-94 | folding any leaf's collected proof gives the root |
| `AdopterMerkle.NextLevel` | contracts/scripts/build-adopter-merkle.js:73-91 | each level's indexes partition the entries, each partial proof folds to its node, and the level halves |
| `Hardware.RanksAboveStrictTotal` | cmd/cloudless-registry/hardware.go:40-55 | the ranking is a strict total order on distinctly named peers |
| `Hardware.MarkSharedHardware` | cmd/cloudless-registry/hardware.go:57-98 | the two passes rewrite exactly the marks |
| `Hardware.MarkedIsRight` | cmd/cloudless-registry/hardware.go:57-98 | a peer is marked with the name of the senior live peer of its machine and household, or not at all if it is that one or takes no part |
| `Hardware.MarkDetermined` | cmd/cloudless-registry/hardware.go:57-98 | the mark does not depend on the order peers come in |
| `Hardware.LeaderProvedFirst` | cmd/cloudless-registry/hardware.go:40-55 | the senior member was the first to prove uptime and, among equals, registered no later |
| `Hardware.LiveForFiveMinutes` | cmd/cloudless-registry/hardware.go:25-28 | a node is live for five minutes after it was last heard of |
| `Hardware.HouseholdAddresses` | cmd/cloudless-registry/hardware.go:29-36 | which addresses count as a household |
| `Hardware.UnmarkedPair` | cmd/cloudless-registry/hardware.go:80-96 | two live members of one group both go unmarked if and only if its senior member has an empty name, which no registered node has |
| `Hardware.OneUnmarked` | cmd/cloudless-registry/hardware.go:57-98 | so of two live members of one group at most one goes unmarked |
| `RewardKeeper.Keeper.RewardKeeperCycle` | cmd/cloudless-registry/reward_keeper.go:296-411 | one cycle: confirm, choose, submit |
| `RewardKeeper.Keeper.ConfirmEarlier` | cmd/cloudless-registry/reward_keeper.go:304-352 | lines below the wallet's nonce are confirmed and their peers updated; reports whether any line is still open |
| `RewardKeeper.Keeper.RewardCandidates` | cmd/cloudless-registry/reward_keeper.go:414-453 | the candidates depend on the records, not on the map's order |
| `RewardKeeper.Keeper.SubmitCandidates` | cmd/cloudless-registry/reward_keeper.go:361-411 | one line per accepted transfer, in order, stopping at the first refusal |
| `RewardLedger.RunKeepsLedger` | cmd/cloudless-registry/reward_keeper.go:296-453 | over every run of cycles and peer changes: one line per node and month, each month within the cap, nonces strictly rising, a line confirmed exactly when the wallet was seen past its nonce, and for an unreplaced record 27 days of uptime between two lines, none but the first above the monthly reward |
| `RewardLedger.SubmitsOnlyWhenSettled` | cmd/cloudless-registry/reward_keeper.go:304-352 | whenever a cycle appends a line, every earlier line is confirmed |
| `RewardLedger.SubmitAppends` | cmd/cloudless-registry/reward_keeper.go:361-411 | the ledger grows by the first candidates, in order, with consecutive nonces, up to the first refused transfer |
| `RewardLedger.CandidatesEarned` | cmd/cloudless-registry/reward_keeper.go:414-477 | every candidate is an approved, heartbeating node outside the founder fleet, not registered before the program began, unpaid this month, live, unmarked, past 30 days and 27 new days, with its approved address; no node appears twice |
| `RewardLedger.ChosenWithinCap` | cmd/cloudless-registry/reward_keeper.go:444-451 | the candidates of a cycle together stay within the cap |
| `RewardLedger.OverspendsExactlyOnWrap` | cmd/cloudless-registry/reward_keeper.go:444-451 | over the whole walk, a month is paid past its cap if and only if some running sum reaches 2^64 |
| `RewardLedger.UnlimitedCapOverspends` | cmd/cloudless-registry/reward_keeper.go:444-451 | a cap of 2^64 - 1 nearly used up is overspent by the next activation reward |
| `RewardLedger.OnePerMachine` | cmd/cloudless-registry/reward_keeper.go:414-477 | no two candidates of a cycle share a hardware commitment or a household address |
| `RewardSelection.SelectsExactly` | cmd/cloudless-registry/reward_keeper.go:414-453 | list the deserving nodes in name order: the candidates are its first ones, each within the cap, and the next one would break it |
| `RewardSelection.ChosenExactly` | cmd/cloudless-registry/reward_keeper.go:429-451 | the walk takes qualifying peers in order and stops at the first that does not fit |
| `RewardSelection.LinesConfirmedExactly` | cmd/cloudless-registry/reward_keeper.go:314-340 | confirming changes status and time by nonce and hour alone: confirmed below the nonce, stuck after an hour |
| `RewardSelection.TotalsFollowLedger` | cmd/cloudless-registry/reward_keeper.go:319-331 | a cycle adds to a node's paid total exactly what its ledger confirmed for it |

## Left out

- Bodies of `State.ApplyTx`, `State.Root`, `ActiveValidatorSet`, slashing, genesis bonding and key lookups: parameters.
- Ed25519, SHA-256, Keccak, hex and JSON encodings: parameters; collision-freedom is a hypothesis where named.
- Genesis parsing, `RestoreHotWindow`, persistence, HTTP handlers, relays, tickers, dashboards: input and output only.
- `SimulateTx`, `HotWindowInfo`, `Info`, `Query`, `Read`, `Simulate`: easy reads of state modelled elsewhere.
- DEX resync, pool seeding and the Oracle stub around finalization: not part of the replay argument.
- Changing the validator keys, staking parameters, corrections or enforcement heights during a run: fixed per run.
- Events and log texts: an event list is determined by the split and the payouts, which are modelled.
- Whether a transfer whose Submit failed still reached the chain: an error counts as not accepted.
- Retroactive accrual when adding to a citizen stake: claim bounds are for a fixed stake amount.
- ASCII only: lower-casing and trimming treat non-ASCII letters and blanks as themselves.
- Aliasing of block pointers between chains: blocks are values, so a reorganization's copies are exact.
- The registry's installers, payment intents and sale, the bridge relayer, contract deployment, agents and UI.
