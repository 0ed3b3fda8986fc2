# Verified model of the beacon-chain core

This project models the parts of the `blockchain` package that decide what a beacon node stores,
accepts, confirms and pays, and proves what those parts promise. Apart from a few named examples, every
result is a statement over all inputs, all runs or all reachable states.

| component | modules |
|---|---|
| Finalized height index and cross-shard link lists | `BlockTree`, `CrossShardLinks`, `BeaconStore`, `CrossShardSenders`, `CrossShardRuns`, `CrossShardLoss`, `BeaconChain`, `ForkRun` |
| Merkle trees in linear arrays | `PowersOfTwo`, `Merkle` |
| Timeslot manager | `Timeslot`, `TimeslotManager` |
| Epochs and the random-number flag | `Epoch` |
| Choice of shard blocks by producer and validator | `ShardSelection` |
| Rewards: decay, minted total, cap, committee split | `Reward`, `Ledger`, `RewardCap`, `CommitteeReward` |
| Staking part of a block body | `Staking`, `StakingBody` |
| Bridge accounting | `Bridge` |

`Options`, `Lists` and `Arithmetic` hold shared helpers. Code that updates state in place is a class or a
method with loops, proved against a specification function; the lemmas are about those functions.

## What the proofs say

- **Index.** After any sequence of insertions, forks included, with the final view only moving to
  descendants, the height index maps every height up to the final view to its ancestor, and a lookup
  by height answers with the best view's ancestor, for exactly the heights that view has.
- **Cross-shard lists.** Along one branch, when each inserted block continues its shards where its
  parent's chain left off, the stored links, followed from 0, visit exactly the finalized shard blocks of
  the sender that name the receiver, in increasing height, and end at the cursor. Across branches this is
  false: the cursor lives in each view while the link table is shared, so a view beside the branch that
  finalized can carry a stale cursor. `ForkRun` gives a run of four insertions that loses a block in this
  way. `CrossShardLoss.RunExactIff` gives the exact condition over whole runs with any forks: a list is
  exact if and only if every step that confirmed something for the pair found its parent's cursor at the
  end of the list; so a list that is once inexact never recovers (`LostForGood`).
- **Merkle trees.** The transaction tree's empty slots are exactly those with no transaction below, its
  root is the recursive "pair up, double an odd last node" root, and a path cut out for a shard verifies
  against the root; any other leaf or path of that length that verifies has a step at which it hashes a
  pair different from the tree's own pair there to the same parent.
- **Timeslots.** Slots never decrease from the first anchor's start on, and over whole runs the slot of a
  time already reached never changes. Before the first anchor the code uses the *latest* anchor, which
  breaks the order; `Timeslot.OrderKeptIff` gives the exact condition and `Timeslot.FallbackExample` an
  instance. Runs that pass the timeslot check still have strictly increasing propose times and slots.
- **Epochs.** The epoch functions are inverses of one another across both epoch lengths. Height 1 is
  reported as first in its epoch only when the breakpoint is 1. A produced run has exactly one random
  instruction in an epoch if `randomTime + 1 < length`, and none at all otherwise.
- **Shard blocks.** Producer and validator, two separate loops, agree on the list, and the producer
  stops early only where it must. The shape check on a
  received block skips the last pair and accepts a list that starts at the best height;
  `ShardSelection.AcceptedFollowsIff` says exactly which accepted lists continue the chain.
- **Rewards.** The decayed reward is within 11 units of the exact geometric value, the minted total has
  a finite bound, the cap holds over every run, and what shards may request grows by fees plus exactly
  what was minted. Each member of the subset that is not slashed is paid in exactly one shard, that of
  its receiver's key.
- **Staking.** Every incoming stake request, with its four fields, is either accepted or returned, each as
  often as it came; accepted keys are new and distinct; nobody is unstaked twice, and no key is both
  unstaked and stopped.
- **Bridge.** A burn is confirmed exactly when its token has an identifier of the network on record, and
  what burn requests burn is what the processor deducts, to the unit, through scaling,
  byte encoding and 64-bit truncation. The net change per token does not depend on instruction order.
  The recorded amounts can: `Bridge.OrderMattersExample` shows it for a token used through both kinds of
  bridge, and `Bridge.AmountsIgnoreOrderIff` gives the exact condition. The issuing builders reject such a
  token (blockchain/bridgetxsbuilder.go:67-80, metadata/common/accumulatedvalues.go:46-77), so the example
  concerns the processor on a block that no honest producer builds.

Every lemma carries `{:induction false}`: induction is always written out as a recursive call, never
left to the verifier.

## Model

| member | source | states |
|---|---|---|
| `PowersOfTwo.BitTest` | blockchain/hash.go:212-215 | the test n AND n-1 == 0 holds exactly for the powers of two |
| `PowersOfTwo.NextPowerOfTwoIsLeast` | blockchain/hash.go:211-220 | the padded size is the least power of two not below n |
| `Merkle.FillParents` | blockchain/hash.go:66-91 | the in-place fill makes every interior slot the parent of its children and leaves the leaves alone |
| `Merkle.BuildMerkleTreeStore` | blockchain/hash.go:52-92 | slot j of level k is empty exactly when j * 2^k >= n; the last slot is the recursive Merkle root; no transactions give no tree |
| `Merkle.SlotOfTransactions` | blockchain/hash.go:52-92 | the exact set of empty slots, at every level of every such array |
| `Merkle.LastSlot` | blockchain/hash.go:52-92 | the top of the array equals the recursive root and so is never empty |
| `Merkle.LevelHoldsPairedUp` | blockchain/hash.go:66-91 | level k of the array is the list after k rounds of pairing up |
| `Merkle.RootIsLastLeft` | blockchain/hash.go:66-91 | pairing up CeilLog2(n) times, and not fewer, leaves one node: the recursive root |
| `Merkle.CalcMerkleRoot` | blockchain/hash.go:237-246 | the root of a block's transactions is the recursive root, or the zero hash of an empty block |
| `Merkle.BuildMerkleTreeOfHashes` | blockchain/hash.go:94-131 | the leaves are the given hashes padded with the zero hash, every parent is right, no slot is empty |
| `Merkle.BuildMerkleTreeOfHashes2` | blockchain/hash.go:139-153 | the value form of the same tree is complete |
| `Merkle.GetMerklePathForCrossShard` | blockchain/hash.go:161-190 | all accesses are in range, the path is the list of siblings up to the root, its length is log2 of the padded size |
| `Merkle.CutPath` | blockchain/hash.go:167-187 | the moving cursor visits the start of each level in turn and so collects exactly the siblings |
| `Merkle.VerifyMerkleRootFromMerklePath` | blockchain/hash.go:192-206 | accepts exactly when folding the path over the leaf gives the root |
| `Merkle.PathVerifies` | blockchain/hash.go:161-206 | extraction and verification fit: the path of any slot folds to the tree's root |
| `Merkle.OtherPathCollides` | blockchain/hash.go:192-206 | any other node or path of the right length that folds to the root has a step k where what it hashes and the tree's own pair at that place differ and have the same hash |
| `Merkle.GetMerklePathCrossShard` | blockchain/hash.go:139-206 | build, cut, verify: the shard's own hash is accepted, and anything else of that length that is accepted collides with the built tree at one of its own steps |
| `BlockTree.AncestorOfAncestor` | blockchain/accessor_blockchain.go:35-48 | walking back in two stretches is walking back once |
| `BlockTree.StoreBlock` | blockchain/beaconprocess.go:1191-1193 | a new block on a stored parent keeps every block linked to its parent |
| `BeaconStore.IndexExtends` | blockchain/beaconprocess.go:1195-1231 | writing the blocks between old and new final view turns a right index into a right index for the new view |
| `BeaconStore.InsertKeepsValid` | blockchain/beaconprocess.go:1190-1249 | an insertion into a valid state leaves tree, index, views and cursors valid |
| `BeaconStore.RunKeepsIndex` | blockchain/beaconprocess.go:1190-1249 | by induction every state of every run from genesis is valid, forks included; only genesis is assumed to be |
| `CrossShardLinks.AdvanceFromTail` | blockchain/beaconprocess.go:1265-1310 | from a cursor at the list's end, confirming further distinct heights extends the list by exactly them and moves the cursor to the new end |
| `CrossShardLinks.AdvanceKeepsListIff` | blockchain/beaconprocess.go:1276-1304 | a non-empty batch is appended rightly if and only if the cursor stands at the list's end |
| `CrossShardLinks.ListIsExactIff` | blockchain/beaconprocess.go:1265-1310 | from scratch the links enumerate the confirmed blocks if and only if their heights are distinct and non-zero |
| `CrossShardLinks.EnumeratedIsDistinct` | blockchain/beaconprocess.go:1276-1304 | following the links never returns to a height: no cycle |
| `CrossShardLinks.EnumerationIsUnique` | blockchain/accessor_blockchain.go:539-551 | the table determines the list: no skip |
| `CrossShardLinks.ReplayChangesNothing` | blockchain/beaconprocess.go:1291-1299 | confirming the same blocks again from the same cursor changes neither table nor cursor |
| `BeaconStore.StepKeepsListIff` | blockchain/beaconprocess.go:1190-1236 | a finalizing insertion keeps the list exact if and only if the parent view's cursor is the list's end |
| `BeaconStore.InsertKeepsLists` | blockchain/beaconprocess.go:1190-1236 | on one branch, an insertion keeps every list exact and every later view's cursor at its end |
| `CrossShardRuns.BestIsLastConfirmed` | blockchain/beaconprocess.go:549-552 | the best shard height of a view is the last height confirmed on its chain, or what genesis set |
| `CrossShardRuns.ProducedContinues` | blockchain/accessor_blockchain.go:316-385 | a block whose shard lists a producer picked on the parent's view continues every shard |
| `CrossShardRuns.ProducedRunContinues` | blockchain/accessor_blockchain.go:316-385 | every run of produced blocks, on whatever branches, is a run of continuing blocks |
| `CrossShardRuns.RunChainsAscend` | blockchain/beaconprocess.go:1190-1249 | when every inserted block continues its parent's chain, every chain of every state ascends |
| `CrossShardRuns.RunKeepsLists` | blockchain/beaconprocess.go:1190-1310 | over every such run that finalizes on one branch all lists are exact at every moment |
| `CrossShardRuns.RunListsSenders` | blockchain/beaconprocess.go:1190-1310 | over every such run the links of a pair enumerate exactly the finalized senders in ascending height, each with the beacon block that confirmed it, and end at the cursor of every view on the branch |
| `ForkRun.ForkLosesBlock` | blockchain/beaconprocess.go:1233-1236 | in a run that finalizes on a fork, every block continues its shards, the list is exact before the last step and misses a block after it |
| `ForkRun.ForkLosesForGood` | blockchain/beaconprocess.go:1233-1310 | however such a run goes on with continuing blocks, the list is never exact again |
| `ForkRun.RunOfChain` | blockchain/beaconprocess.go:110-212 | that run exists: a chain goes through it by four insertions |
| `CrossShardLinks.MissesForGood` | blockchain/beaconprocess.go:1291-1299 | a height whose link is missing or leads elsewhere never gets its right link, from whatever cursor more is confirmed |
| `CrossShardLoss.StepFindsOrMisses` | blockchain/beaconprocess.go:1190-1236 | an exact list stays exact, or misses the first block of the step, according to the parent's cursor |
| `CrossShardLoss.StepKeepsMissing` | blockchain/beaconprocess.go:1190-1236 | no insertion on any branch brings a missed block back |
| `CrossShardLoss.RunExactIff` | blockchain/beaconprocess.go:1190-1310 | over every run with any forks a list is exact if and only if every step that confirmed something for the pair found the parent's cursor at its end |
| `CrossShardLoss.LostForGood` | blockchain/beaconprocess.go:1190-1310 | a list that is not exact is never exact again |
| `CrossShardSenders.CreateCrossShardByteArray` | blockchain/shardutils.go:30-73 | the receivers are exactly the paid shards other than the sender, ascending; it fails exactly when a token transaction is of the wrong kind or has an unreadable token coin |
| `CrossShardSenders.MarkShards` | blockchain/shardutils.go:34-62 | the marks gain exactly the shards of the coins |
| `CrossShardSenders.EveryCoinCounts` | blockchain/shardutils.go:33-65 | every readable coin of a plain transaction, and of both parts of a token transaction, makes its shard a receiver |
| `CrossShardSenders.ConfirmedNamesSenders` | blockchain/beaconprocess.go:1265-1310 | the confirmed entries of a pair are the chain's shard blocks that name the receiver, one each, in order |
| `CrossShardSenders.EntryIsConfirmedIn` | blockchain/beaconprocess.go:1280-1285 | every entry names, by height and hash, the beacon block on the chain that holds its shard block |
| `CrossShardSenders.ListNamesSenders` | blockchain/beaconprocess.go:1233-1310 | with ascending shard heights the list holds exactly the finalized senders, in strictly increasing height |
| `CrossShardSenders.AscendingChainHasDistinctHeights` | blockchain/beaconprocess.go:1265-1310 | ascending chains and duplicate-free receivers give the distinctness the lists need |
| `CrossShardSenders.NothingToSelf` | blockchain/beaconprocess.go:1271-1273 | a shard has no list to itself |
| `BeaconChain.Chain.constructor` | blockchain/beaconprocess.go:731-801 | a new chain holds the genesis block, indexed and final |
| `BeaconChain.Chain.InsertBeaconBlock` | blockchain/beaconprocess.go:110-212 | a known block or one without parent view changes nothing; any other is stored with its index and link updates, and the invariant holds |
| `BeaconChain.Chain.StoreAccepted` | blockchain/beaconprocess.go:1190-1249 | an accepted block yields exactly the specified next state |
| `BeaconChain.Chain.StoreFinalized` | blockchain/beaconprocess.go:1195-1231 | the backward walk ends, writes exactly the heights above the old final view, and lists those blocks newest first |
| `BeaconChain.Chain.ConfirmFinalized` | blockchain/beaconprocess.go:1233-1236 | the blocks are confirmed oldest first, for every pair |
| `BeaconChain.Chain.ConfirmCrossShard` | blockchain/beaconprocess.go:1265-1310 | one beacon block advances table and cursor of every pair by its own entries, whatever the order of its shards |
| `BeaconChain.Chain.ConfirmShard` | blockchain/beaconprocess.go:1268-1306 | the blocks of one shard advance only that sender's pairs |
| `BeaconChain.Chain.ConfirmState` | blockchain/beaconprocess.go:1270-1305 | one shard block advances the pairs of its receivers, itself left out |
| `BeaconChain.Chain.GetBeaconBlockHashByHeight` | blockchain/accessor_blockchain.go:20-51 | answers exactly for the heights of the best view, with that view's ancestor |
| `BeaconChain.Chain.FetchNextCrossShard` | blockchain/accessor_blockchain.go:539-551 | at the i-th height of an enumerated list the answer is the list's next block, and none at its end |
| `BeaconChain.Chain.CollectCrossShard` | syncker/crossshardsyncprocess.go:92-112 | the receiving shard's loop ends and visits exactly the rest of the list, in order |
| `BeaconChain.Chain.CollectAll` | syncker/crossshardsyncprocess.go:92-112 | from height 0 an exact list yields what the finalized chain confirms |
| `BeaconChain.Chain.FindConfirmed` | syncker/syncker.go:279-290 | loading the beacon block a link names and searching it for the height finds the link's shard block |
| `Timeslot.SlotMonotone` | blockchain/timeslot.go:50-70 | from the first anchor on, later times never have earlier slots |
| `Timeslot.AppendKeepsSlots` | blockchain/timeslot.go:32-34 | a continuous new anchor leaves the slots up to its start unchanged |
| `Timeslot.StepKeepsGovernedSlots` | blockchain/timeslot.go:32-34 | any number of continuous anchors leave governed slots up to their start unchanged |
| `Timeslot.BeaconStepKeepsSlots` | blockchain/beaconprocess.go:608-659 | a beacon block changes no governed slot up to its propose time |
| `Timeslot.CheckedRunKeepsSlots` | blockchain/beaconprocess.go:608-659 | along every checked run the slot of a governed time already reached never changes |
| `Timeslot.ShardStepKeepsSlots` | blockchain/beaconprocess.go:620-650 | a confirmed shard block changes no governed slot up to the block before it |
| `Timeslot.ShardRunReachable` | blockchain/beaconprocess.go:620-650 | along every run of shard blocks the invariant holds and slots never decrease |
| `Timeslot.ShardRunKeepsSlots` | blockchain/beaconprocess.go:620-650 | along every such run the slot of a governed time already reached never changes |
| `Timeslot.OrderKeptIff` | blockchain/timeslot.go:50-70 | a time keeps its order with all later ones if and only if it has reached the first anchor or the latest anchor's first slot is not above the first anchor's |
| `Timeslot.DefaultSlots` | blockchain/timeslot.go:59-69 | without anchors the slot of t is t divided by the configured default block time |
| `Timeslot.BeaconSlotsAhead` | blockchain/beaconprocess.go:608-659 | after a beacon block slots go on in the block time of the last feature it triggers, or as before |
| `Timeslot.ShardSlotsAhead` | blockchain/beaconprocess.go:620-650 | after a shard block of a new version slots go on in the block time of its last feature, or as before |
| `Timeslot.VersionTakenOnce` | blockchain/beaconprocess.go:626-626 | a further block of the same version adds no anchor |
| `Timeslot.CheckPassesIff` | blockchain/beaconprocess.go:242-244 | the check passes iff the version is exempt, there is no earlier propose time, or the slot is after the recorded one |
| `Timeslot.FallbackIsLow` | blockchain/timeslot.go:50-70 | an ungoverned time gets the latest anchor's first slot, so it is below every time since that anchor |
| `Timeslot.FallbackExample` | blockchain/timeslot.go:50-57 | a time before the first anchor with a later slot than a time after it |
| `Timeslot.InitialIsReachable` | blockchain/timeslot.go:16-23 | the empty manager satisfies the invariant |
| `Timeslot.BeaconStepKeepsReachable` | blockchain/beaconprocess.go:608-659 | a beacon block keeps anchors continuous and the current slot right |
| `Timeslot.ShardStepKeepsReachable` | blockchain/beaconprocess.go:620-650 | so does a confirmed shard block |
| `Timeslot.SlotAfterOwnAnchors` | blockchain/beaconprocess.go:652-659 | a block's own anchors do not move its slot, so both passes add the same anchor |
| `Timeslot.CheckedIsLater` | blockchain/beaconprocess.go:242-244 | passing the check means a later propose time and a later slot |
| `Timeslot.CheckedRunReachable` | blockchain/beaconprocess.go:608-659 | every state of a checked run satisfies the invariant |
| `Timeslot.CheckedRunIncreases` | blockchain/beaconprocess.go:242-244 | along every checked run propose times and slots strictly increase |
| `Timeslot.StartWithinBlockTime` | blockchain/beaconprocess.go:630-641 | the search result lies less than one block time after the end time, a whole number of block times before the proposal |
| `Timeslot.ShardChangeSlot` | blockchain/beaconprocess.go:626-649 | after a change of block time the slot is lastTS + (proposeTime - endTime) / blockTime, at least one more |
| `TimeslotManager.TSManager.constructor` | blockchain/timeslot.go:16-23 | a new manager is empty |
| `TimeslotManager.TSManager.UpdateNewAnchor` | blockchain/timeslot.go:32-34 | appends one anchor |
| `TimeslotManager.TSManager.UpdateCurrentInfo` | blockchain/timeslot.go:36-40 | sets the three current fields and nothing else |
| `TimeslotManager.TSManager.CalculateTimeslot` | blockchain/timeslot.go:50-70 | the backward scan computes the piecewise slot function, fallback included |
| `TimeslotManager.TSManager.CheckTimeslot` | blockchain/beaconprocess.go:242-244 | the check on a received block is the specified one |
| `TimeslotManager.TSManager.BeaconCheckpoint` | blockchain/beaconprocess.go:608-659 | the beacon update is the specified step, both passes over the features included |
| `TimeslotManager.TSManager.FindAnchorStart` | blockchain/beaconprocess.go:630-641 | the search ends; it succeeds exactly when proposeTime - blockTime >= endTime, with endTime + (proposeTime - endTime) mod blockTime |
| `TimeslotManager.TSManager.ShardCheckpoint` | blockchain/beaconprocess.go:620-650 | no panic exactly when enough time has passed; then the state is the specified step |
| `Epoch.AtPlace` | blockchain/blockchain.go:979-1118 | all epoch functions at the r-th height of an epoch, for both lengths |
| `Epoch.EpochFunctionsAgree` | blockchain/blockchain.go:979-1118 | epoch(h) == e iff first(e) <= h <= last(e); last(e) + 1 == first(e + 1); h is random time iff h == randomTime(epoch(h)); first heights, with the exception of height 1 |
| `Epoch.NextHeight` | blockchain/blockchain.go:1006-1043 | the epoch grows by one exactly at a first height |
| `Epoch.AcceptedRunKeepsEpoch` | blockchain/beaconprocess.go:413-418 | every accepted run keeps the state's epoch equal to the epoch of its height |
| `Epoch.ProducedRunAccepted` | blockchain/beaconproducer.go:628-652 | what producers build is accepted, over whole runs |
| `Epoch.FlagInRun` | blockchain/beaconprocess.go:673-680 | in a produced run the flag is set exactly after the random instruction of the epoch |
| `Epoch.RandomInstructionAt` | blockchain/beaconproducer.go:628-652 | a block has a random instruction iff it is the one after random time and the epoch has room for it |
| `Epoch.ExactlyOneRandomPerEpoch` | blockchain/beaconproducer.go:628-652 | a completed epoch has exactly one, at random time + 1, if it has room, and none otherwise |
| `ShardSelection.CheckLimitTxAction` | blockchain/blockservice.go:145-180 | succeeds iff every limited action fits, and then reduces what remains by the block's counts |
| `ShardSelection.FreshLimits` | blockchain/blockservice.go:145-180 | a single block may hold 400 beacon-mint requests, and within a shard 300 shard-mint requests |
| `ShardSelection.GetShardBlockForBeaconProducer` | blockchain/accessor_blockchain.go:349-385 | the producer's loop computes the specified list |
| `ShardSelection.GetShardBlocksForBeaconValidator` | blockchain/accessor_blockchain.go:417-453 | the validator's loop computes its own specified list or fails |
| `ShardSelection.ProducerAndValidatorAgree` | blockchain/accessor_blockchain.go:349-453 | given the producer's heights the validator returns the identical list without error |
| `ShardSelection.CheckedProperties` | blockchain/accessor_blockchain.go:417-453 | every validated list: chain blocks at the required heights up to a first swap, one epoch, within the mint limit |
| `ShardSelection.ProducerProperties` | blockchain/accessor_blockchain.go:349-385 | contiguous from best + 1, at most 30, one epoch, a swap only last, mint actions within the total limit |
| `ShardSelection.ProducerStaysInEpoch` | blockchain/accessor_blockchain.go:361-369 | where epochs count from 1 all picked blocks share theirs |
| `ShardSelection.TakenIsMaximal` | blockchain/accessor_blockchain.go:349-385 | the list stops early only for a swap, a gap, another epoch or the limit |
| `ShardSelection.ProducerIsMaximal` | blockchain/accessor_blockchain.go:319-385 | with fewer than 30 blocks, below the finalized height and without a final swap, the next block is one the producer may not take |
| `ShardSelection.ProducerStopsFor` | blockchain/accessor_blockchain.go:319-385 | that block is missing, of another epoch, or brings the mint requests over 400 |
| `ShardSelection.VerifyShardStates` | blockchain/beaconprocess.go:257-437 | the shape check computes its exact acceptance condition |
| `ShardSelection.AcceptedFollowsIff` | blockchain/beaconprocess.go:257-437 | an accepted list continues the chain iff it does not start at the best height and its unchecked last pair is consecutive |
| `ShardSelection.FollowsIsAccepted` | blockchain/beaconprocess.go:257-437 | whatever continues the chain is accepted, also for a shard without best height |
| `ShardSelection.AcceptedGapExample` | blockchain/beaconprocess.go:257-264 | two accepted lists that do not |
| `ShardSelection.ProducerIsAccepted` | blockchain/beaconprocess.go:419-437 | a producer's heights pass and continue the chain |
| `Reward.GetRewardAmountV2` | blockchain/salary.go:753-761 | the loop computes the floored yearly decay |
| `Reward.DecayNeverGrows` | blockchain/salary.go:753-761 | each year keeps at most 91 percent, less at most one unit |
| `Reward.DecayIsClose` | blockchain/salary.go:753-761 | the n-fold floored reward lies within 11 units below basic * (91/100)^n |
| `Reward.CalculateMintedPRVWithDefaultBlocktime` | blockchain/blockchain.go:1262-1276 | equals the sum over shards and blocks of the reward of each block's year |
| `Reward.MintedByYears` | blockchain/blockchain.go:1262-1276 | whole years plus a remainder equal the block-by-block sum |
| `Reward.MintedGrows` | blockchain/blockchain.go:1262-1276 | nothing is minted without blocks, and one more block of a shard adds exactly its own reward |
| `Reward.ShardMintedBound` | blockchain/blockchain.go:1262-1276 | one shard never mints more than 91/9 of a year's basic rewards |
| `Reward.MintedBound` | blockchain/blockchain.go:1262-1276 | the total never exceeds shards * blocksPerYear * basicReward * 91/9 |
| `Reward.GetYearOfBlockChain` | blockchain/salary.go:783-809 | no subtraction underflows and the year is the specified one |
| `Reward.BeaconAnchorsSorted` | blockchain/beaconprocess.go:608-659 | along every beacon chain from the empty manager anchors are sorted by height |
| `Reward.ShardAnchorsSorted` | blockchain/beaconprocess.go:620-650 | so are those of the beacon's copy of a shard's manager |
| `Reward.DefaultBlocksClose` | blockchain/salary.go:783-809 | the block count differs from the exact weighted one by less than one default block per segment |
| `Reward.SecondsAreSummed` | blockchain/salary.go:783-809 | the exact count behind it is the sum, block by block, of the block time in force |
| `Reward.AnchorRules` | blockchain/salary.go:791-802 | the time in force at a height is the configured one of the last anchor below it |
| `Reward.FeatureTakesEffect` | blockchain/beaconprocess.go:610-616 | a feature a beacon block triggers sets the block time of all later heights and of no earlier one |
| `Reward.ShardFeatureTakesEffect` | blockchain/beaconprocess.go:626-647 | a feature of a shard block's new version sets it from that block on |
| `Reward.YearIsWholeYears` | blockchain/salary.go:808-813 | the year is the number of whole years of default blocks, a year being 31557600 seconds |
| `Reward.YearMonotone` | blockchain/salary.go:783-809 | the year never decreases with height |
| `Reward.YearIgnoresRepeat` | blockchain/salary.go:783-809 | an anchor recorded twice does not change the year |
| `RewardCap.MintedIsCappedSum` | blockchain/salary.go:61-70 | after any rewards the total is the uncapped sum cut at the cap, or unchanged if it was above |
| `RewardCap.CreditFees` | blockchain/salary.go:75-87 | the tokens of an instruction are credited under its own key, each once, nothing else changes |
| `RewardCap.ShardVersions` | blockchain/salary.go:33-40 | the table answers for every confirmed shard block with its version, else with the beacon block's |
| `RewardCap.VersionIsConfirmed` | blockchain/salary.go:33-56 | the reward of a shard block is computed at the version of the state that confirms it, else at the beacon block's |
| `RewardCap.OlderBlocksAreUncapped` | blockchain/salary.go:60-70 | below version 9 nothing is capped or counted |
| `RewardCap.RewardState.AcceptReward` | blockchain/salary.go:57-87 | one instruction: capped reward, new minted total, new requests |
| `RewardCap.RewardState.AddShardRewardRequestToBeacon` | blockchain/salary.go:31-141 | fails exactly on a malformed reward instruction; otherwise each request of the epoch grows by the fees and rewards of the instructions for its shard and subset, and totals by fees plus what was paid |
| `RewardCap.RunStaysUnderCap` | blockchain/salary.go:42-141 | at every state of every run from a total within the cap the total is min(cap, start + sum of the rewards so far) |
| `RewardCap.RunConserves` | blockchain/salary.go:42-141 | over every run the bound is kept and requests grow by fees plus exactly the growth of the minted total |
| `CommitteeReward.GetCommitteeToPayRewardMultiset` | blockchain/salary.go:276-300 | the loop computes the subset |
| `CommitteeReward.SubsetPlaces` | blockchain/salary.go:276-300 | a subset holds every second member from its offset |
| `CommitteeReward.SubsetsPartition` | blockchain/salary.go:276-300 | the two subsets together hold the committee's members, each as often |
| `CommitteeReward.FilterNonSlashingCommittee` | blockchain/beaconbeststate.go:1321-1338 | the loop computes the non-slashed members |
| `CommitteeReward.NonSlashedKeepsTheRest` | blockchain/beaconbeststate.go:1321-1338 | slashed members disappear, every other stays as often as before |
| `CommitteeReward.AddShardCommitteeReward` | blockchain/salary.go:302-348 | a shard pays each of its own members value / size of each token, and nothing else |
| `CommitteeReward.EveryMemberPaidOnce` | blockchain/salary.go:302-348 | each member is paid in exactly one shard, and over all shards a receiver is paid once per member it receives for |
| `CommitteeReward.MemberIsPaidIn` | blockchain/salary.go:312-312 | that shard is the remainder of the receiver's last key byte by the number of shards |
| `CommitteeReward.InstructionPaysAtHome` | blockchain/salary.go:326-348 | an instruction lets a receiver's account grow in that shard and in no other |
| `CommitteeReward.AccountGrowthIsShares` | blockchain/salary.go:302-348 | an account grows by one share per member it receives for |
| `CommitteeReward.PayInstruction` | blockchain/salary.go:171-184 | subset filter, slashing filter and payment in the source's order |
| `CommitteeReward.InstructionIsSplit` | blockchain/salary.go:171-184 | over all shards the members of the subset that are not slashed, and only they, are paid, each in one shard, size * (value / size) in all |
| `CommitteeReward.GrowthIsShares` | blockchain/salary.go:302-348 | the growth over any shards is the number of their members times one share |
| `CommitteeReward.RewardIsSplit` | blockchain/salary.go:302-348 | over all shards size * (value / size) is credited: at most value, more than value - size |
| `Staking.GetValidStaker` | common/common.go:464-480 | the stakers outside the list, in order |
| `Staking.DifferentElements` | blockchain/committeestate/utils.go:7-28 | the elements of the longer list that the shorter lacks, in order |
| `Staking.FreeKeys` | blockchain/beaconproducer.go:1127-1135 | four filters in a row are one filter against all four lists |
| `Staking.Pick` | blockchain/beaconproducer.go:1137-1146 | keys filtered on their own and fields filtered by lookup are aligned again |
| `Staking.Duplicates` | blockchain/beaconproducer.go:1148-1171 | the length test and the difference find exactly the rejected requests, fields aligned |
| `Staking.ProcessShardStake` | blockchain/beaconproducer.go:1111-1187 | one instruction with the accepted requests of the block, and after self-swap the rejected ones to return |
| `Staking.AcceptedOrRejected` | blockchain/beaconproducer.go:1111-1187 | accepted and rejected requests together are all requests, each as often |
| `Staking.AcceptedKeys` | blockchain/beaconproducer.go:1126-1146 | a key is accepted iff someone asks for it and it was free |
| `Staking.AcceptedAreDistinct` | blockchain/beaconproducer.go:1126-1146 | with distinct keys inside each instruction, accepted keys are distinct over all |
| `Staking.JudgedConcat` | blockchain/beaconproducer.go:341-361 | judging block by block is judging all instructions in one go |
| `StakingBody.ProcessUnstake` | blockchain/beaconproducer.go:1212-1241 | first mentions of candidates only; every mention is marked for the whole body |
| `StakingBody.FirstsConcat` | blockchain/beaconproducer.go:1212-1241 | shared marks make block-by-block filtering equal to filtering one long list |
| `StakingBody.ProcessStopAutoStake` | blockchain/beaconproducer.go:1189-1210 | the candidates among the keys, in order |
| `StakingBody.ShardInstruction.constructor` | blockchain/beaconproducer.go:46-50 | nothing collected |
| `StakingBody.ShardInstruction.Add` | blockchain/beaconproducer.go:52-64 | appends a block's instructions |
| `StakingBody.ShardInstruction.Compose` | blockchain/beaconproducer.go:1243-1345 | at most one instruction of each kind, same stakes and unstakes, stops without unstaked keys |
| `StakingBody.GenerateBody` | blockchain/beaconproducer.go:341-433 | the body over all shard blocks equals the one-go specification for stakes, returns, unstakes and stops |
| `StakingBody.TakenIsSeen` | blockchain/beaconproducer.go:359-361 | remembering accepted keys blocks exactly what remembering all requested keys would |
| `StakingBody.StakesAreSettled` | blockchain/beaconproducer.go:341-373 | every request of all shards is accepted or returned, accepted keys are new and distinct |
| `StakingBody.UnstakesAreSettled` | blockchain/beaconproducer.go:1212-1345 | unstaked keys are the requested candidates without repeats; a key is stopped iff asked, a candidate, and not asked to unstake |
| `StakingBody.ReturnStakes` | blockchain/beaconproducer.go:606-614 | the return instructions refund exactly the rejected stakes, key and transaction aligned |
| `Bridge.BytesRoundTrip` | blockchain/beaconbridgeproducer.go:185-185 | big-endian bytes decode to the number they encode |
| `Bridge.FirstByteIsHighest` | blockchain/beaconbridgeprocess.go:294-294 | the first byte is the most significant |
| `Bridge.NoLeadingZero` | blockchain/beaconbridgeproducer.go:185-185 | the encoding is minimal |
| `Bridge.TablesAgree` | blockchain/beaconbridgeproducer.go:37-127 | every burn request type gets the same network prefix on both sides and a confirm type of its own |
| `Bridge.ConfirmTypes` | blockchain/beaconbridgeproducer.go:41-120 | the confirmed request types and their confirm types, in numbers |
| `Bridge.ConfirmNetworks` | blockchain/beaconbridgeproducer.go:41-120 | the network of each, by its letters |
| `Bridge.FoundIff` | metadata/bridge/utils.go:320-370 | the look-up finds exactly the identifier on record, and only if it has the network's prefix and length, NEAR excepted |
| `Bridge.BurnIsConfirmedIff` | blockchain/beaconbridgeproducer.go:143-192 | a burn is confirmed iff its token has a fitting identifier on record; the instruction carries that identifier, the request's fields, and the amount, scaled for a network's own coin |
| `Bridge.DecentralizedBurnIsConfirmed` | blockchain/beaconbridgeproducer.go:143-192 | in particular for a token only on the decentralized list |
| `Bridge.PRVBurnIsConfirmed` | blockchain/beaconbridgeproducer.go:194-241 | PRV burns: for the PRV token only, unscaled, to the contract of the request type |
| `Bridge.BurnedAmountIsRequested` | blockchain/beaconbridgeprocess.go:289-308 | the processor reads back the original amount, scaled or not |
| `Bridge.RequestIsDeducted` | blockchain/beaconbridgeprocess.go:270-332 | built and processed, a request deducts exactly what is due and adds nothing |
| `Bridge.BuildBridgeInstructions` | blockchain/beaconbridgeproducer.go:22-141 | the producer's loop: one instruction per handled request, in order |
| `Bridge.BuiltAt` | blockchain/beaconbridgeproducer.go:22-141 | instructions stand in the order of their requests |
| `Bridge.BuiltIsDeducted` | blockchain/beaconbridgeprocess.go:270-332 | over a whole block each token loses exactly the sum of what is due |
| `Bridge.ProcessIssuingBridgeReq` | blockchain/beaconbridgeprocess.go:121-169 | counts up an accepted issue of a foreign token, not of PRV |
| `Bridge.ProcessIssuingReq` | blockchain/beaconbridgeprocess.go:171-218 | counts up an accepted centralized issue |
| `Bridge.ProcessContractingReq` | blockchain/beaconbridgeprocess.go:220-268 | deducts an accepted contraction of a known centralized token |
| `Bridge.ProcessBurningReq` | blockchain/beaconbridgeprocess.go:270-332 | deducts a confirmed burn of a known decentralized token that the aggregator does not claim |
| `Bridge.IssueAddsSupplyIff` | blockchain/beaconbridgeprocess.go:37-66 | exactly the centralized issue and the seven foreign ones add supply, PRV does not |
| `Bridge.CountInstructions` | blockchain/beaconbridgeprocess.go:30-92 | after the loop each token's counters are the sums over the block, identifier and kind those of the first instruction |
| `Bridge.NetUpdateSettles` | dataaccessobject/statedb/accessor_bridge.go:311-345 | a write adds the net amount to one record, never below zero, and leaves all other records alone |
| `Bridge.BridgeState.WriteInfos` | blockchain/beaconbridgeprocess.go:93-117 | the writes, in any order, settle each counted token once |
| `Bridge.BridgeState.ProcessBridgeInstructions` | blockchain/beaconbridgeprocess.go:29-119 | every record after the block, as a function of the instructions' effects |
| `Bridge.IssuedTokenIsRecorded` | blockchain/beaconbridgeprocess.go:151-213 | a token first seen in an issue enters that bridge's list, a foreign one with its identifier |
| `Bridge.DeductionIsRecorded` | blockchain/beaconbridgeprocess.go:252-327 | a contraction is settled in the centralized list, a burn in the decentralized one |
| `Bridge.NetIgnoresOrder` | blockchain/beaconbridgeprocess.go:29-119 | any order of the instructions gives every token the same net change |
| `Bridge.AmountsIgnoreOrderIff` | blockchain/beaconbridgeprocess.go:93-117 | two orders record the same amounts iff the first instruction is of the same kind, or the write is idle |
| `Bridge.OrderMattersExample` | blockchain/beaconbridgeprocess.go:93-117 | a token issued through both kinds of bridge, in two orders |

## Left out

- Integers: uint64 and int64 are unbounded, so no sum or product wraps around; the one explicit truncation is the 64-bit cut of burned amounts.
- NextPowerOfTwo: the floating-point logarithm is the integer logarithm.
- Hashes, signatures, base58, JSON and key parsing are opaque; the Merkle hash is an arbitrary function of two values and nothing is assumed of it.
- Databases: key-value stores are maps and writes never fail.
- BeaconChain.Chain.InsertBeaconBlock: the multiview's choice of final and best view is a parameter, assumed to satisfy only that the new final view descends from the old one and is an ancestor of the new best; block validation other than parent and duplicate checks is not part of it.
- CrossShardRuns.RunListsSenders: holds along one branch of finalizing views; across branches the property is false, as ForkRun.ForkLosesBlock shows and CrossShardLoss.RunExactIff states exactly. Blocks are assumed to continue their shards, which every run of produced blocks does (ProducedRunContinues) but not every accepted one (ShardSelection.AcceptedFollowsIff).
- BeaconChain.Chain.CollectCrossShard: blocks already in the receiver's pool are visited like the others; requesting them is not modelled.
- The nested map of cross-shard cursors is one map keyed by the pair of shards.
- GetShardBlockHashByHeight is the same walk as the beacon one and is not repeated; the table of shard blocks confirmed by height is not modelled.
- Timeslot: a shard's own manager on the shard chain, with its alignment loop, is not modelled, only the beacon's copy; features of one block are a list in a fixed order instead of a map iteration.
- Epoch: requires breakpoint >= 1, epoch lengths >= 2 and 0 < random time < length; GetBeaconBlockOrderInEpoch is not modelled.
- Epoch.ExactlyOneRandomPerEpoch: for producer-built blocks; the random value itself is not modelled.
- ShardSelection: both sides see one chain, a map from height to block; the walk back that fills an unused list is not modelled.
- Reward.GetYearOfBlockChain: requires anchors sorted by height, which BeaconAnchorsSorted and ShardAnchorsSorted prove for chains from the empty manager, and a default block time of at most a year.
- RewardCap: all shards with states are active ones; the reward of a shard block is an arbitrary function of shard, version and height, and looking it up never fails.
- CommitteeReward.AddShardCommitteeReward: reward receivers are addressed by their text and the last byte of their key; a wallet key that does not parse is not modelled.
- Staking: keys, transactions and receivers are identifiers that are only compared; the checks on a single instruction before filtering (auto-stake list, beacon stakers, sanity) are not modelled.
- StakingBody: beacon stakes, added stakes, swaps, redelegations and delegation-reward requests in the same body are not modelled.
- Bridge: a beacon instruction is its decoded parts; recording issued transaction hashes and request statuses, and the redeposit receiver of PRV burns, are not modelled.
- Portal, pdex, bridge aggregator, committee assignment, slashing rules, delegation rewards, transaction pools, networking and bootstrap are not modelled.
