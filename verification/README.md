# Verified model of a blockchain node's state machines

This project models, in Dafny, the protocol core of a Python blockchain node and proves what its state
machines keep over whole runs: the ledger with reorganisation and replay, LMD-GHOST fork choice with
slashing, three finality gadgets, the cross-shard transfer protocol, the EVM interpreter loop, block
packing, the block-apply scheduler, and the assembler. The visible Python path is modelled where the
program also offers a native kernel. Amounts are integer satoshi and two thirds is exact arithmetic.

Layout, one module per component:

- `Ledger` (what each operation does, and the theorems about runs), `Blockchain` (the object that does it
  step by step with rollback), `Forging` (choosing transactions), `FinalizedPrefix` (the ledger together
  with the finality engine that gates its reorgs), `OffChainCheckpoint` (a run of the two).
- `Ghost`, `Lmd`, `Slashing`, `ConsensusEngine` (fork choice), `FinalityEngine`, `Ffg` (finality),
  `ReorgEngine` (the small finality-safe reorg).
- `Coordinator`, `Sharding`, `ShardNetwork`, `ShardGossip`, `ShardOutcomes` (two-shard quorums, one node, the whole
  network, what it must gossip, what confirmation says about the money).
- `Bytecode`, `Evm`, `EvmRun`, `EvmLaws` (decode, opcodes, whole runs, what opcodes mean).
- `Mempool`, `StableSort`, `ApplyQueue`, `Text`, `Assembler`, `AssemblerRun`, `Collections`.

Objects that the program updates in place are classes. Each method is proved equal to a function of the old
state, and the theorems are lemmas about those functions. Hypotheses, stated where they are used: block hashes
and state roots are injective and never empty, a block hash determines its parent and number, parents are
acyclic, the genesis is fixed, a transfer identifier names one transfer, committees are loaded before a transfer begins.

## Findings

Places where the code does something other than what a reader would expect. Each is a lemma on the code as it is.

- `reorg_to_ancestor` with a negative height and no finalised floor erases the whole chain, genesis included,
  and answers true (`Ledger.NegativeReorgErasesGenesis`, exact condition `Ledger.GenesisSurvivesIff`).
- `ensure_state_at_tip` at height 0 does not repair drifted accounts: it rewrites the genesis header to them
  (`Ledger.GenesisDriftIsAdopted`, exact condition `Ledger.RepairIff`).
- A peer block at height 0 with another hash makes `import_block` drop the chain before the block is validated
  (`Ledger.RefusedImportUnchangedIff`).
- One equivocating validator with stake breaks convergence of two engines, whatever else they receive: its first
  accepted vote is frozen in the vote table (`ConsensusEngine.EquivocationBreaksConvergence`, exact condition
  `ConsensusEngine.ConvergesIff`).
- Beacon and Casper finality differ when epochs are justified out of order (`Ffg.OutOfOrderDiffers`, exact condition
  `Ffg.FinalityAgreesIff`).
- A finalised checkpoint may name a block that was reorged away before its epoch was finalised; it sets the floor all
  the same and is never on the chain again (`OffChainCheckpoint.FinalizedOffChain`, exact condition
  `FinalizedPrefix.FinalizedBlockStaysIff`).
- A source transfer that failed at debit is confirmed all the same when its two shards acknowledge it
  (`ShardOutcomes.EarlyQuorumConfirms`, exact conditions `ShardOutcomes.ConfirmsIff` and `ShardOutcomes.MarksExactly`).
- Submitting a transfer again can debit it again, and the amount is lost (`ShardNetwork.ResubmissionConservesIff`, over
  runs `ShardNetwork.SupplyConserved`).
- A transfer confirmed before it is paid out is not retried, so lost gossip strands the money
  (`ShardOutcomes.EarlyQuorumConfirms`, exact condition `ShardOutcomes.PaidLaterIff`).
- An asynchronous waiter that times out or is cancelled cancels the future of a job that is still queued or running
  and may complete (`ApplyQueue.GivenUpJobStillCompletes`, exact condition `ApplyQueue.ResolvedIffLeft`).
- With root checks off a follower without blocks trusts the root of the genesis it is given, whatever its own seeded
  balances (`Ledger.GenesisImportIff`).
- A frame that stops or returns with no return data and an empty stack is reported as unsuccessful, although its writes
  are kept (`EvmRun.EVM.ExecuteBytecode`).
- The disassembler prints negative numbers and number-like names that the assembler reads back as something
  else (`Assembler.RoundTripIff`).

## Model

| member | source | states |
|---|---|---|
| Ledger.HistoryIndependence | core/blockchain.py:830-1327 | in every run of add, import, reorg and repair from a fixed genesis: heights contiguous, blocks hash-linked, each stored root the root of its own prefix, live accounts equal to the fold of the surviving blocks |
| Ledger.NextKeepsCanonical | core/blockchain.py:830-1327 | one step of any kind keeps that invariant and the genesis block |
| Ledger.TipHashDetermines | core/blockchain.py:267-285 | two ledgers with the same tip hash have the same headers and roots at every height, the same allocation and the same live accounts, whatever their histories |
| Ledger.AddThenReorgRestores | core/blockchain.py:1207-1289 | adding a block and reorganising to its parent restores rows and accounts exactly |
| Ledger.ReorgOutcome | core/blockchain.py:1207-1289 | on a sound chain a reorg is refused exactly when the target is below a positive floor; otherwise it keeps exactly the prefix up to the target with that prefix's state; at or above the tip nothing changes |
| Ledger.NegativeReorgErasesGenesis | core/blockchain.py:1207-1289 | a negative target erases everything when no floor is in force, and is refused otherwise |
| Ledger.GenesisSurvivesIff | core/blockchain.py:1207-1289 | the genesis row survives a reorg iff the target is a height or a floor is in force |
| Ledger.RepairIff | core/blockchain.py:1291-1314 | from arbitrary accounts, repair restores the canonical accounts and leaves the chain alone iff there was no drift or the tip is above genesis and not below the floor |
| Ledger.GenesisDriftIsAdopted | core/blockchain.py:649-677 | with only the genesis stored, drift is answered by rewriting the genesis header to the drifted root |
| Ledger.ImportedRootIsTrue | core/blockchain.py:1013-1049 | in every root-check mode an accepted peer block carries the root of its own execution and is stored unchanged |
| Ledger.RefusedImportUnchangedIff | core/blockchain.py:1013-1049 | a refused import changes neither chain nor accounts iff it was not a replacement of the genesis |
| Ledger.AddKeepsCanonical | core/blockchain.py:830-964 | an accepted block extends a canonical ledger to a canonical ledger with the offered transactions and miner |
| Ledger.AddAcceptsIff | core/blockchain.py:830-964 | on a canonical ledger a block is accepted iff it sits on the tip, every check holds, its transactions apply, and, when its header is kept, a binding root is the computed one and a given hash is that of the sealed block |
| Ledger.ImportAcceptsIff | core/blockchain.py:1013-1049 | on a canonical ledger a peer block above genesis is imported iff it is well-shaped, sits on the tip, every check holds, its transactions apply, and it carries its own hash and the root of its own execution |
| Ledger.GenesisImportIff | core/blockchain.py:966-1049 | an empty node imports a genesis iff it is well-shaped, names no parent, carries its own hash and a root, every check holds, and the root is that of the seeded balances unless checks are off |
| Ledger.ForeignGenesisIff | core/blockchain.py:830-1049 | a height-0 block of another kind is imported iff it also applies to the seeded balances and carries the root of that |
| Ledger.EmptyNode | core/blockchain.py:1316-1327 | with no blocks stored only a genesis is imported; a local block may have height 0 or 1, whatever parent it names |
| Ledger.OtherImports | core/blockchain.py:1013-1049 | a replacement of the genesis is an import into an empty node; any other block at a stored height is refused |
| Ledger.StrictIff | core/blockchain.py:710-729 | a peer's root is strict iff checks are on, it is of full length, above the baseline, and for a relayed block in strict mode |
| Ledger.StaleTipIff | core/blockchain.py:1276-1289 | a stale root in the tip's header is rewritten to the replayed one iff rewrites are allowed; accounts are replayed either way |
| Ledger.SeedingMeans | core/blockchain.py:966-1011 | seeding sets allocated balances, keeps nonces and touches nobody else |
| Ledger.PrefixReplays | core/blockchain.py:1257-1279 | replay of every kept prefix succeeds and meets the root stored at its end |
| Ledger.TruncateContiguous | core/blockchain.py:1234-1236 | deleting rows above a cut keeps exactly the rows up to it |
| Blockchain.Blockchain.constructor | core/blockchain.py:486-540 | block 0 carries the root of the minted allocation, and the accounts are that allocation |
| Blockchain.Blockchain.AddBlock | core/blockchain.py:830-964 | all-or-nothing; on a canonical ledger a local block is accepted iff it sits on the tip, every check holds and its transactions apply, and then the sealed row and the post-state are stored |
| Blockchain.Blockchain.ImportBlock | core/blockchain.py:1013-1049 | rows, accounts and answer of the import, genesis branch and seeding included; above genesis on a canonical ledger it answers true exactly as in Ledger.ImportAcceptsIff |
| Blockchain.Blockchain.ReorgToAncestor | core/blockchain.py:1207-1289 | the cut-reset-replay loop with rollback computes the reorg function, for every height and floor |
| Blockchain.Blockchain.EnsureStateAtTip | core/blockchain.py:1291-1314 | rows, accounts and answer of the self-repair |
| Blockchain.Blockchain.ExecuteBlock | core/blockchain.py:1257-1268 | transactions in order, then the reward, stopping at the first failure |
| Forging.CreateBlock | core/blockchain.py:755-783 | the block holds, in the order of the offer, exactly the offered transactions that are valid and on their sender's cursor when their turn comes; it sits on the tip, not before now and after its parent |
| Forging.ForgedAcceptsIff | core/blockchain.py:755-964 | a block forged on the tip of a canonical ledger is accepted iff every check holds and it applies |
| Forging.SelectedChains | core/blockchain.py:762-776 | whatever is offered, each sender's selected nonces run gap-free from its account nonce |
| Forging.AllSelectedIff | core/blockchain.py:762-776 | valid offered transactions are all selected iff they already form nonce chains |
| FinalizedPrefix.FinalizedPrefixIsPermanent | core/blockchain.py:1207-1236 | over any run of blocks, attestations, validator-count changes, reorgs and repairs the floor never falls and no block at or below floor and tip is removed or replaced |
| FinalizedPrefix.StepKeepsFinalized | consensus/adapter.py:639-647 | the same for one step, with every accepted block announced to the finality engine |
| FinalizedPrefix.FinalizedBlockStaysIff | finality_engine.py:93-128 | a checkpoint's block is on the chain for ever after the step that finalises it iff that step leaves its hash in the row at its number; with another hash there it is on the chain never again; with no row there yet, the first row that comes decides |
| FinalizedPrefix.FirstRowDecides | core/blockchain.py:1207-1218 | once the chain has a row at a finalised checkpoint's number, that row decides in every later state whether its block is on the chain |
| OffChainCheckpoint.FinalizedOffChain | finality_engine.py:130-150 | from every genesis, a run with a reorg between the creation of a checkpoint and its finalisation that ends with a finalised checkpoint off the chain and the floor at its number |
| FinalizedPrefix.FinalizedFloorHeight | consensus/adapter.py:262-268 | the loop returns the maximum of the round height and all finalised checkpoint numbers |
| FinalizedPrefix.FloorGrows | consensus/adapter.py:262-268 | the floor is monotone in the finality state and the round height |
| FinalizedPrefix.FinalityGrows | finality_engine.py:51-150 | no finality event rewrites a checkpoint or withdraws a finalised epoch |
| Ghost.CumulativeWeight | consensus/ghost.py:43-60 | the stack-and-memo post-order terminates on every acyclic tree and returns the recursive subtree sum |
| Ghost.SubtreeSumIsTotal | consensus/ghost.py:43-60 | in a well-formed forest the subtree sum counts every block at or below exactly once |
| Ghost.PickGenesis | consensus/ghost.py:78-96 | the root of greatest weight, ties to the smaller hash |
| Ghost.BestChild | consensus/ghost.py:117-135 | the child of greatest weight, then higher number, then smaller hash |
| Ghost.SelectHead | consensus/ghost.py:99-138 | the walk terminates and returns the end of the greedy path |
| Ghost.ChainFromHead | consensus/ghost.py:167-185 | the chain returned is the greedy path from root to head |
| Ghost.GreedyPathMaximal | consensus/ghost.py:99-138 | there is only one greedy path: the tie-breaks are a total order |
| Ghost.HeadUnique | consensus/ghost.py:82-138 | tree and weights determine the head |
| Ghost.HeadAgree | consensus/ghost.py:82-138 | the head does not depend on the order of child lists |
| Ghost.MajorityIsOnTheChain | consensus/ghost.py:78-138 | a block whose subtree holds more than half of the forest's weight is at or above the head, with any number of roots |
| Ghost.HeadKept | consensus/ghost.py:82-138 | moving weight towards the head keeps the head |
| Lmd.LmdTable.Update | consensus/lmd.py:49-60 | strictly newer slot wins, unknown validators are ignored, and the answer says whether the vote was taken |
| Lmd.LmdTable.GetWeights | consensus/lmd.py:62-87 | each block weighs the stake of those whose latest vote names it |
| Lmd.LmdTable.AddValidator | consensus/lmd.py:42-47 | refuses a non-positive stake, otherwise sets it |
| Lmd.WeightIsStakeAtOrBelow | consensus/lmd.py:83-87 | the GHOST weight of a block is exactly the stake of validators whose latest vote lies at or below it |
| Lmd.HeadStability | consensus/lmd.py:49-60 | a validator moving its vote to the head never changes the head, whatever it voted for before |
| Slashing.SlashedIffEquivocated | consensus/slashing.py:78-168 | over every run, a validator is slashed iff it sent two hashes for one slot or one height |
| Slashing.OneEventPerSlash | consensus/slashing.py:187-210 | one event per slashed validator, carrying the listed penalty |
| Slashing.EventsTell | consensus/slashing.py:187-210 | in every run a message adds an event iff it is its sender's first equivocation: a double vote by its slot at 100, a double proposal by its epoch at 200 |
| Slashing.BallotAcceptedIff | consensus/slashing.py:78-110 | in every run a ballot is accepted iff its validator has not equivocated, this ballot included |
| Slashing.ProposalAcceptedIff | consensus/slashing.py:112-168 | in every run a proposal is accepted iff it is, or repeats, its validator's first at that height |
| Slashing.StakeConserved | consensus/slashing.py:65-76 | active and slashed stake add up to all stake |
| Slashing.SlashingEngine.AddVote | consensus/slashing.py:78-110 | the record after a ballot and whether it was accepted |
| Slashing.SlashingEngine.RecordProposal | consensus/slashing.py:112-168 | same-hash proposals are idempotent, conflicting ones slash once |
| Slashing.SlashingEngine.GetStake | consensus/slashing.py:65-69 | 0 for slashed or unknown validators |
| Slashing.SlashingEngine.TotalActiveStake | consensus/slashing.py:71-76 | the sum over validators not slashed |
| ConsensusEngine.Convergence | consensus/engine_slashing.py:40-98 | when no validator with stake equivocates, two engines that receive the same blocks and attestations in any order, repeated and children first, have the same forest up to child order, the same vote table and the same head |
| ConsensusEngine.ConvergesIff | consensus/engine_slashing.py:72-98 | every delivery of one set of events leaves the same vote table iff no validator with stake attests two hashes in one slot |
| ConsensusEngine.EquivocationBreaksConvergence | consensus/engine_slashing.py:72-98 | for any events that hold an equivocation of a validator with stake, two deliveries of them that leave different vote tables |
| ConsensusEngine.FrozenVote | consensus/slashing.py:78-110 | a slashed validator's vote never moves again and it stays slashed |
| ConsensusEngine.AddBlockDescribes | consensus/engine_slashing.py:40-70 | the forest is a function of the set of received blocks: a node per block and per parent, stubs where only a child was seen, each child once |
| ConsensusEngine.ExecuteDescribes | consensus/engine_slashing.py:40-70 | after any run the forest is described by the set of received blocks alone |
| ConsensusEngine.ExecuteSummarises | consensus/engine_slashing.py:72-98 | after any run without equivocation of stake the vote table is described by the set of events alone, and nobody with stake is slashed |
| ConsensusEngine.Engine.OnBlock | consensus/engine_slashing.py:40-70 | the in-place forest update: new node or stub upgrade, then the parent's child list |
| ConsensusEngine.Engine.OnAttestation | consensus/engine_slashing.py:72-98 | slashing check first, then the vote table |
| ConsensusEngine.AttestationAcceptedIff | consensus/engine_slashing.py:72-98 | in every run an attestation is accepted iff its validator has not equivocated, this one included |
| ConsensusEngine.AcceptedIsCounted | consensus/engine_slashing.py:72-98 | an accepted attestation of a validator with stake is its vote unless a newer one stands, and moves nobody else's |
| ConsensusEngine.Engine.GetHead | consensus/engine_slashing.py:100-102 | the head of the current forest under the current votes |
| FinalityEngine.AccountableSafety | finality_engine.py:51-91 | two replicas of the same n validators that justify different hashes for one epoch share at least n/3 validators that attested both |
| FinalityEngine.JustifiedExactly | finality_engine.py:51-91 | in every run an epoch is justified iff two thirds of the validators voted, once it was open, for the block that opened it |
| FinalityEngine.FinalizedExactly | finality_engine.py:93-150 | in every run an epoch is finalised iff some event tries it, by name or between the last block's epoch and this one's, when it and its predecessor are backed by two thirds |
| FinalityEngine.AccountableFinality | finality_engine.py:93-128 | the same for conflicting finalised hashes, both with a justified predecessor |
| FinalityEngine.ExecuteKeeps | finality_engine.py:51-150 | in every run: votes count distinct attesters of the checkpoint's hash, justified means quorum, finalised means justified with a justified predecessor, histories list no epoch twice |
| FinalityEngine.StepKeeps | finality_engine.py:51-150 | every event keeps that invariant, checkpoints are write-once and histories only grow |
| FinalityEngine.Engine.CreateCheckpoint | finality_engine.py:51-56 | the first block of an epoch fixes its checkpoint |
| FinalityEngine.Engine.AddAttestation | finality_engine.py:58-91 | deduplicated vote; a matching vote that leaves two thirds of a non-empty active set justifies |
| FinalityEngine.Engine.FinalizeCheckpoint | finality_engine.py:93-128 | finalises once, on two consecutive justified epochs |
| FinalityEngine.Engine.ProcessBlock | finality_engine.py:130-150 | checkpoint, proposer attestation, then every epoch from the current one to the block's that can be finalised is |
| Ffg.SameJustification | consensus/finality_beacon.py:91-170 | on every run Beacon and Casper have the same votes, justified epochs and justified blocks |
| Ffg.FinalityRefinement | consensus/finality_casper.py:50-156 | Beacon's finalised epochs are Casper's, and both are justified with their successor |
| Ffg.JustifiedExactly | consensus/finality_casper.py:108-156 | an epoch is justified iff some vote in it found it over the threshold |
| Ffg.JustifiedBlock | consensus/finality_casper.py:89-156 | the block justified for an epoch is the one that carried its first over-threshold vote, for ever |
| Ffg.SupermajorityIff | consensus/finality_beacon.py:67-89 | a tally is over the threshold iff some entry is, and its block is the first of greatest weight |
| Ffg.LastMarksMove | consensus/finality_beacon.py:118-170 | the last-justified mark moves exactly with a justification, to that epoch and block, the last-finalised mark exactly with a finalisation, to the epoch before |
| Ffg.BeaconFinalizedExactly | consensus/finality_beacon.py:118-170 | Beacon finalises exactly the epochs whose first over-threshold vote comes before their successor's first |
| Ffg.CasperFinalizedExactly | consensus/finality_casper.py:113-156 | Casper finalises exactly the epochs with an over-threshold vote followed by one in their successor |
| Ffg.FinalityAgreesIff | consensus/finality_casper.py:113-156 | the finalised sets are equal iff no epoch first justified after its successor is followed by an over-threshold vote in that successor |
| Ffg.CasperBeyondBeacon | consensus/finality_casper.py:113-156 | such epochs are exactly those Casper finalises and Beacon does not |
| Ffg.InOrderFinalityAgrees | consensus/finality_casper.py:113-156 | with epochs first justified in increasing order both sets are all epochs justified with their successor |
| Ffg.OutOfOrderDiffers | consensus/finality_casper.py:113-156 | a concrete run on which they differ |
| Ffg.BeaconFinality.AddVote | consensus/finality_beacon.py:91-170 | weight accumulates on every call; finalisation only at the moment of justification |
| Ffg.BeaconFinality.Evaluate | consensus/finality_beacon.py:118-170 | justify at the threshold, seal the predecessor in the same step |
| Ffg.CasperFinality.AddVote | consensus/finality_casper.py:50-79 | weight accumulates on every call, then evaluation |
| Ffg.CasperFinality.Evaluate | consensus/finality_casper.py:108-156 | justify at the threshold, try the predecessor on every over-threshold vote |
| Ffg.Best | consensus/finality_beacon.py:75-89 | the first entry of greatest weight, in order of first vote |
| Ffg.Accumulated | consensus/finality_casper.py:50-79 | exactly the voted block gains the weight |
| ReorgEngine.ReorgEngine.ChainContains | consensus/reorg_engine.py:24-32 | true iff a parent path leads from the tip to the target, cycles in the map or not |
| ReorgEngine.ReorgEngine.TryReorg | consensus/reorg_engine.py:34-41 | accepts exactly a known block above every finalised one; then every finalised block is on the head's chain |
| ReorgEngine.ReorgEngine.GetChainFromHead | consensus/reorg_engine.py:43-51 | exactly the head's ancestry, parents first, ending at the head |
| ReorgEngine.ReorgEngine.AddBlock | consensus/reorg_engine.py:12-13 | a new block keeps every finalised block on the head's chain |
| ReorgEngine.WalkIsAncestry | consensus/reorg_engine.py:24-32 | the visited-set walk meets exactly the tip and its ancestors |
| ShardNetwork.SupplyConserved | dynamic_sharding.py:200-435 | with gossip lost, repeated and reordered and transfers submitted any number of times, in every reachable state all balances plus amounts debited and not yet credited are the initial supply iff no step so far debited a transfer again |
| ShardNetwork.SupplyAccounted | dynamic_sharding.py:200-435 | what is missing is exactly the sum of the amounts debited again |
| ShardNetwork.CreditedOnce | dynamic_sharding.py:326-385 | no transfer is paid out twice, and only debited ones are paid |
| ShardGossip.EverythingIsGossiped | dynamic_sharding.py:95-152 | in every reachable state the credit of every debited transfer has been gossiped if its origin gossips, so has an acknowledgement of every signer a gossiping node recorded, and every debited transfer waits for a retry |
| ShardGossip.RetryCoversDebited | dynamic_sharding.py:428-435 | in every reachable state a retry sends exactly the credits of the transfers debited at that node |
| Sharding.RegossipExactly | dynamic_sharding.py:428-435 | every pending debited transfer is gossiped again, and nothing else |
| ShardNetwork.PaysRightly | dynamic_sharding.py:326-385 | a payout is of a transfer debited and not yet credited, of its ordered amount, to its ordered recipient, at its ordered target |
| ShardNetwork.CommitNeedsBothQuorums | dynamic_sharding.py:387-426 | in every reachable state a transfer confirmed at its origin carries a quorum of signatures from each of its shards that has a committee |
| ShardNetwork.ConfirmedForever | dynamic_sharding.py:387-426 | confirmed is permanent until the transfer is submitted again |
| ShardNetwork.ConfirmedKeptIff | dynamic_sharding.py:200-435 | a step of any kind keeps a confirmed transfer confirmed iff it does not submit it again at that node |
| ShardOutcomes.ConfirmsIff | dynamic_sharding.py:387-426 | of all steps only the delivery, at the origin, of an acknowledgement that completes the quorum confirms a transfer there |
| ShardOutcomes.MarksExactly | dynamic_sharding.py:200-385 | in every reachable state a transfer has been paid in iff its sender could cover it at one of its submissions, and paid out iff the target paid on a delivery |
| ShardOutcomes.EarlyQuorumConfirms | dynamic_sharding.py:387-426 | a run in which both committees sign at once: without funds the transfer is confirmed with no balance changed, with funds it is confirmed, paid in and not paid out |
| ShardOutcomes.NeverResent | dynamic_sharding.py:428-435 | after confirmation no new copy of the credit message is gossiped until the transfer is submitted again |
| ShardOutcomes.PaidLaterIff | dynamic_sharding.py:326-435 | a transfer confirmed before it was paid out, and not submitted again, is paid out later iff a copy gossiped before the confirmation still arrives |
| ShardOutcomes.StrandedIsSignedEarly | dynamic_sharding.py:387-426 | confirmed and not paid out means that a quorum of the target's committee signed before the target paid |
| ShardNetwork.ResubmissionConservesIff | dynamic_sharding.py:200-269 | submitting a transfer again conserves the supply iff it was never debited or the sender cannot cover it; otherwise exactly its amount is lost, whatever the target has done |
| Sharding.ShardingManager.AddTransfer | dynamic_sharding.py:200-269 | register, begin, debit, acknowledge and gossip the credit message, or fail, send nothing and leave the pending list |
| Sharding.ShardingManager.DebitSource | dynamic_sharding.py:278-293 | takes the amount from the sender iff it is positive and covered |
| Sharding.ShardingManager.ReceiveCredit | dynamic_sharding.py:326-385 | pays once on the target shard, acknowledges, clears a complete quorum |
| Sharding.ShardingManager.ReceiveAck | dynamic_sharding.py:387-426 | records, relays each acknowledgement exactly the first time, confirms on the origin shard at quorum |
| Sharding.ShardingManager.RecordShardAck | dynamic_sharding.py:141-152 | signs as this node where there is a committee, else acknowledges for the shard; true iff accepted and the quorum stands |
| Sharding.ShardingManager.GossipValidatorAck | dynamic_sharding.py:95-104 | gossips an own acknowledgement once |
| Sharding.ShardingManager.SubmitValidatorAck | dynamic_sharding.py:130-139 | signs without moving money; true iff accepted and the quorum stands |
| Sharding.ShardingManager.ProcessPending | dynamic_sharding.py:428-435 | regossips exactly the debited pending transfers |
| Coordinator.QuorumSize | consensus/cross_shard_coordinator.py:31-35 | the least integer of at least 1 that reaches the fraction of the committee, 0 for none |
| Coordinator.QuorumsOverlap | consensus/cross_shard_coordinator.py:31-35 | two quorums of one committee share at least (2q-1)n members, a third at q = 2/3 |
| Coordinator.AcksGrow | consensus/cross_shard_coordinator.py:85-168 | acks only grow and a reached quorum stays reached until that transfer is cleared or begun again |
| Coordinator.QuorumExactly | consensus/cross_shard_coordinator.py:85-168 | once begun, whatever is called in between, a quorum is reached iff each of the two shards has a quorum of distinct votes from its committee or, without one, a shard acknowledgement |
| Coordinator.RefusedLeavesNoTrace | consensus/cross_shard_coordinator.py:107-117 | an unnamed vote, one for no begun transfer or another shard, or one from outside the committee changes nothing |
| Coordinator.CompletingVoteAcks | consensus/cross_shard_coordinator.py:118-121 | the vote that completes its shard's quorum acknowledges the shard |
| Coordinator.ClearForgets | consensus/cross_shard_coordinator.py:164-168 | clearing forgets everything about the transfer and nothing about others |
| Coordinator.ValidatorAckAdds | consensus/cross_shard_coordinator.py:107-122 | an acknowledgement adds at most the signer it names, a committee member, under its own transfer and shard |
| Coordinator.CrossShardCoordinator.QuorumReached | consensus/cross_shard_coordinator.py:98-105 | the loop answers true iff a transfer was begun and each required shard is met |
| Coordinator.CrossShardCoordinator.ShardMet | consensus/cross_shard_coordinator.py:91-96 | committee quorum, or a plain ack where there is no committee |
| Coordinator.CrossShardCoordinator.RecordValidatorAck | consensus/cross_shard_coordinator.py:107-122 | records only named committee members of required shards; true iff recorded and the quorum stands |
| Coordinator.CrossShardCoordinator.RecordAck | consensus/cross_shard_coordinator.py:124-133 | refused for a shard with a committee; true iff recorded and the quorum stands |
| Coordinator.CrossShardCoordinator.BeginTransfer | consensus/cross_shard_coordinator.py:85-89 | requires both shards, keeps shard acks, drops earlier signatures |
| Coordinator.CrossShardCoordinator.Clear | consensus/cross_shard_coordinator.py:164-168 | forgets everything about the transfer |
| EvmRun.ExecutesOnlyInstructions | evm_interpreter.py:372-752 | over every run of every bytecode each pc executed is an instruction boundary of the linear decode |
| EvmRun.NeverInsidePushData | evm_interpreter.py:392-395 | and so never a byte of push data |
| EvmRun.ExecBounds | evm_interpreter.py:99-116 | at most one opcode more than the gas left; a normal exit is within gas; words stay below 2^256; memory never shrinks |
| EvmRun.StaticFrameWritesNothing | evm_interpreter.py:209-215 | a static frame leaves storage, transient storage and logs alone and makes every nested call static, for arbitrary callees |
| EvmRun.StepGood | evm_interpreter.py:372-752 | every opcode that lets the loop go on costs gas, stays within the limit and lands on the next instruction or a table entry |
| EvmRun.RunEndsAsTraced | evm_interpreter.py:372-752 | a run is reverted if its last opcode is REVERT and, unless static, only then; it stops running exactly at a halting opcode; a halting opcode fails only for want of operands, STOP never |
| EvmRun.EVM.RunLoop | evm_interpreter.py:372-752 | the while loop computes the specified run and terminates |
| EvmRun.EVM.ExecuteBytecode | evm_interpreter.py:331-366 | a frame that ends by REVERT or fails leaves storage as at entry, even when a delegated call replaced it; a non-static frame that ends any other way completes, is not reverted and keeps its storage; success iff it did not revert and fell off the end or left data or stack |
| Bytecode.BuildJumpTable | crypto/native.py:846-859 | the scan marks exactly the JUMPDEST bytes that start an instruction, the valid set of the Ethereum Yellow Paper, section 9.4.3 |
| Bytecode.BoundaryOrData | crypto/native.py:846-859 | a position is an instruction boundary iff it is not push data |
| Bytecode.BytesRoundTrip | crypto/native.py:833-843 | reading the big-endian bytes of a number gives it back |
| EvmLaws.LoadAfterStore | evm_interpreter.py:118-127 | MSTORE then MLOAD gives the word back over any memory |
| EvmLaws.ReturnGives | evm_interpreter.py:726-738 | RETURN and REVERT stop the frame with exactly the named memory range, and only REVERT marks it |
| EvmLaws.JumpsLand | evm_interpreter.py:614-626 | jumps land exactly on JUMPDEST instructions; a zero condition falls through |
| EvmLaws.CallHandsOver | evm_interpreter.py:159-199 | callee, value, memory range and kind of every nested call |
| EvmLaws.CallAnswers | evm_interpreter.py:200-207 | success word, return data in its place only, gas of the callee, and a replaced storage only for delegated calls out of non-static frames |
| EvmLaws.CallMade | evm_interpreter.py:159-207 | a call that is made, from its operands to its answer: stack, call record, return data and its place in memory, gas, storage |
| EvmLaws.CallRefused | evm_interpreter.py:162-172 | too few operands fail; a transfer out of a static frame reverts it and calls nobody; no callee pushes 0 |
| EvmLaws.CopyOpcodes | evm_interpreter.py:492-538 | the copying opcodes put exactly their source range at their destination and take their operands off the stack |
| EvmLaws.StoreOpcodes | evm_interpreter.py:590-601 | MSTORE and MSTORE8 write exactly their word or byte, MLOAD and SHA3 read exactly their range |
| EvmLaws.HostSees | evm_interpreter.py:396-475 | word arithmetic and host reads see their operands in pop order |
| EvmLaws.Arities | evm_interpreter.py:396-475 | how many operands each such opcode takes |
| EvmLaws.NumberedOpcodes | evm_interpreter.py:659-664 | sixteen duplicates, sixteen exchanges, five logs |
| EvmLaws.UnknownFails | evm_interpreter.py:739-750 | an opcode that is not known fails |
| EvmLaws.LogAppends | evm_interpreter.py:539-555 | one entry with its topics and memory range, at its price |
| EvmLaws.McopyMoves | evm_interpreter.py:642-651 | the source as it was lands at the destination, overlapping or not, at its price |
| EvmLaws.CreateAnswers | evm_interpreter.py:217-229 | the new address, or 0 for a refused or failed creation, and its gas |
| EvmLaws.CreateHandsOver | evm_interpreter.py:665-684 | value, memory range and salt of every creation |
| EvmLaws.PaysFirst | evm_interpreter.py:382-386 | every opcode but LOG pays before it acts and fails untouched iff it cannot |
| EvmLaws.ReadsItself | evm_interpreter.py:627-658 | GAS, PC, MSIZE and the size opcodes read the frame after it has paid |
| EvmLaws.ListedPrices | evm_interpreter.py:60-81 | the price list by opcode |
| EvmLaws.OthersCostThree | evm_interpreter.py:99-103 | what is not listed at another price costs 3 |
| EvmLaws.PushReadsImmediate | evm_interpreter.py:392-395 | PUSHn of a number's n bytes pushes it and moves to the next instruction |
| Mempool.PackingExact | blockchain/mempool.py:567-619 | at most limit, no duplicate, each sender a nonce run from its account nonce with the best fee per nonce over the whole pool; below the limit no run can be extended from the candidates |
| Mempool.PackedPassesCursor | core/blockchain.py:755-781 | every packed transaction passes the forging cursor |
| Mempool.PackingMaximal | blockchain/mempool.py:567-619 | below the limit an executable paying transaction is left out only when at least 256 others, and the multiple of the limit, pay no less |
| Mempool.SendersInOrder | blockchain/mempool.py:594-618 | a sender gets in only after the whole runs of the senders closer to executable, or as close and better paid |
| Mempool.CleanupEvictsCheapest | blockchain/mempool.py:755-765 | exactly the cheapest tenth goes, and nothing kept is cheaper |
| Mempool.NothingEvictedBelow | blockchain/mempool.py:755-758 | below 80 per cent nothing is evicted |
| Mempool.PutAcceptsIff | blockchain/mempool.py:358-371 | a new hash is stored iff there is room or a tenth of the pool is at least one transaction |
| Mempool.Pool.Put | blockchain/mempool.py:358-371 | the pool stays within its bound with unique hashes; an accepted transaction is stored last and evicts nothing while there is room |
| Mempool.Pool.Cleanup | blockchain/mempool.py:755-765 | nothing below 80 per cent full, else the eviction |
| Mempool.Pool.GetForBlock | blockchain/mempool.py:567-619 | the packing loop over ranked senders computes the specified packing |
| Mempool.PackSender | blockchain/mempool.py:605-618 | stale nonces skipped, matches taken, stop at a gap or the limit |
| Mempool.CandidatesBest | blockchain/mempool.py:545-565 | a transaction left out of the candidates is no better paid than one kept |
| StableSort.SortStable | blockchain/mempool.py:557-561 | sorting keeps the arrival order of equal keys |
| ApplyQueue.JobsConserved | core/chain_apply_queue.py:137-324 | at every moment of every interleaving: enqueued = rejected + completed + failed + expired + queued + in flight, and the queue keeps its bound |
| ApplyQueue.ResolvedOnce | core/chain_apply_queue.py:293-324 | a resolved future never changes |
| ApplyQueue.OutcomeExactly | core/chain_apply_queue.py:293-324 | a future holds an outcome iff the first action that ended its ticket refused, dropped late, returned, raised or gave up the job accordingly |
| ApplyQueue.CountersExactly | core/chain_apply_queue.py:293-324 | each counter is the number of jobs that ended its way |
| ApplyQueue.ResolvedIffLeft | core/chain_apply_queue.py:173-192 | a future is resolved exactly when its job has left, at every moment of a run, iff no asynchronous wait for that ticket is cut short in the run |
| ApplyQueue.CancelledPastDeadline | core/chain_apply_queue.py:184-192 | when waits for a job are only cut short at its deadline, a resolved future of a job still inside is cancelled and past the deadline |
| ApplyQueue.GivenUpJobStillCompletes | core/chain_apply_queue.py:173-192 | a run in which it does, and the job completes |
| ApplyQueue.StartsInTimeAndOrder | core/chain_apply_queue.py:293-304 | no job starts after its deadline, nor while a higher lane or an earlier job of its lane is queued |
| ApplyQueue.ServedInOrder | core/chain_apply_queue.py:293-304 | over runs: a job queued ahead of another, by lane or by number, is taken before the other is |
| ApplyQueue.UrgentFirst | core/chain_apply_queue.py:37-46 | a queued reorg is taken before forging, forging before adding, adding before importing, whenever they arrived |
| ApplyQueue.StartsWithinTimeout | core/chain_apply_queue.py:144-153 | no job starts more than one timeout after it was enqueued |
| ApplyQueue.StartsOnce | core/chain_apply_queue.py:293-324 | no job starts twice |
| ApplyQueue.ChainApplyQueue.TakeTicket | core/chain_apply_queue.py:144-153 | stamps the deadline and takes the next sequence number |
| ApplyQueue.ChainApplyQueue.PutNowait | core/chain_apply_queue.py:137-159 | queued when there is room, else rejected at once |
| ApplyQueue.ChainApplyQueue.WorkerTake | core/chain_apply_queue.py:293-308 | takes the least job by lane and number, dropping it past its deadline |
| ApplyQueue.ChainApplyQueue.WorkerFinish | core/chain_apply_queue.py:309-321 | counts the outcome and resolves the future unless it was resolved |
| ApplyQueue.ChainApplyQueue.CancelWaiter | core/chain_apply_queue.py:184-192 | the end of a wait, by timeout or cancellation, cancels the future, not the job |
| AssemblerRun.AssemblyPreservesMeaning | compiler/assembler.py:19-65 | for every instruction set, source and start data, the resolved code ends with a result iff the source jumping by label name does |
| AssemblerRun.StepMatches | compiler/assembler.py:26-63 | one source line is one resolved instruction, or nothing for labels and blanks |
| AssemblerRun.TargetsInsideCode | compiler/assembler.py:55-63 | every resolved target is at most the code length and is its label's line |
| AssemblerRun.LabelIsItsLine | compiler/assembler.py:33-36 | a label means its last definition |
| Assembler.RoundTripIff | compiler/assembler.py:79-87 | assembling a disassembly gives the bytecode back iff its arguments are natural numbers or plain names that are no jump target and do not look like numbers |
| Assembler.Assembler.Assemble | compiler/assembler.py:19-71 | the two loops compute the two passes, errors included |
| Assembler.Disassemble | compiler/assembler.py:79-87 | one indented line per instruction |
| Assembler.ParsePrinted | compiler/assembler.py:38-50 | a printed line parses to its operation and what its argument reads as |
| Assembler.NumbersRead | compiler/assembler.py:38-50 | decimal and hexadecimal arguments read as their number, the operation in any case |
| Assembler.CommentIgnored | compiler/assembler.py:67-71 | a comment is not read |
| Assembler.LabelRead | compiler/assembler.py:33-36 | a line that ends in a colon is the label before it, indented or not |
| Assembler.JumpsAreResolved | compiler/assembler.py:57-63 | exactly JUMP, JUMPI and CALL have a name argument replaced, by the label table or by an error |
| Text.HexRoundTrip | compiler/assembler.py:46-47 | hexadecimal digits read back |
| Text.DecimalRoundTrip | compiler/assembler.py:44-45 | a printed natural number reads back |
| Text.SplitJoin | compiler/assembler.py:21 | splitting undoes joining when no piece holds the separator |

## Left out

- Ledger: transaction execution, block reward, state root and block hash are uninterpreted functions; proposer and signature checks, double-proposal slashing and the storage commit are answers passed in. Their code lives in `core.components` and `storage`, which are not part of this model.
- Ledger: `truncate_to_height`, the pinned-founder lookup, audit records and prints are not steps; arbitrary drift of the accounts stands for whatever they leave behind.
- Ledger: the fixed genesis of the run theorems excludes imports that replace block 0 and negative reorg targets; what those do is stated by lemmas of their own.
- FinalizedPrefix.StepKeepsFinalized: the height finalised by `consensus.bft` is only a number that never falls, and block announcements are delivered at once.
- Native kernels and the Rust transaction store: the Python path is modelled.
- Ghost: a hash is its rank in the string order, and the parent map is acyclic, as honest hashes make it; the guard against revisiting a block is then never taken.
- ConsensusEngine.Engine.OnAttestation: the call into Beacon finality is left out, since fork choice does not read it; `Ffg` treats that gadget on its own.
- Slashing: missed attestations, reported invalid proposals, callbacks and `clear_epoch`.
- FinalityEngine.AccountableSafety: the two replicas count the same n validators throughout, and votes are not weighted, as in the code.
- Coordinator: loading committees from files, quorum status reports, resharding and address migration.
- ShardNetwork: one node per shard in distributed mode; committees do not change during a run; the single-database routing mode, resharding and migration are left out; a store failure between debit and gossip is not a step.
- Sharding: amounts are integers, so parsing of float or hexadecimal amounts is outside.
- EvmRun: word arithmetic, hashing, environment reads and gas planning are uninterpreted functions of their operands; `contract_call` and `contract_create` are arbitrary replies indexed by the call's number.
- EvmRun.EVM.ExecuteBytecode: the storage dictionary is a value, so a callee that keeps a reference to it is not captured; operands popped before an exception is raised are still on the model's stack, which no caller reads then.
- Mempool: admission checks, signatures, prices and the float thresholds 0.8 and 0.1, read as exact fractions.
- ApplyQueue: the STOP job, timing statistics and the blocking wait, which leaves the future alone.
- Assembler: text is ASCII; Unicode digits and spaces, `int(text, 16)` with signs or underscores, and a bare sign are outside.
- Networking, HTTP, the oracle, bridge, PBS and NFT code, formatters and fault injection: plumbing or easy members.
