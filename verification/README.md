# Verified model of a sharded blockchain emulator

A Dafny model of the parts of the emulator whose correctness spans several functions or whole runs, with
proofs of what they are for. `dafny verify dfyconfig.toml` checks all of it.

| files | part of the system |
|---|---|
| `Common` | shared small definitions |
| `Ledger`, `LedgerLaws`, `Pool` | accounts, block execution, the replay filter, the transaction pool |
| `Relay`, `RelayNode`, `RelayProgress`, `RelayBridge` | two-stage cross-shard transfers over every run of many shards |
| `Chain`, `ChainState`, `ChainNode` | proposal, validation, storage, the replay index and the chain walk |
| `Migration`, `MigrationNode` | re-sharding rounds: accounts and queued transactions change shards |
| `PbftReplica`, `Pbft`, `PbftLeader`, `PbftProgress`, `PbftNode` | the PBFT normal case in one view, with catch-up |
| `Shutdown`, `ShutdownProgress` | admission of handlers and shutdown, in every interleaving |
| `ClpaGraph`, `ClpaScore`, `ClpaTrace`, `ClpaPartitioner`, `ClpaSelfLoop`, `ClpaCommittee` | the CLPA graph partitioner and its router |
| `Candidate`, `CandidateTwins`, `CandidateBuilders`, `CandidateLaws` | the two candidate-mask builders |
| `BatchLoads`, `Placement`, `OfflineEnv`, `Backlog` | the offline placement environment and its capacity backlog |
| `Rollout`, `RolloutLaws`, `RolloutNode` | the continuous rollout |

Objects that the program updates in place are classes; each of their methods is proved against a function of
the old state, and the theorems are about those functions. Protocols are state machines over their steps: what
must never happen is proved over all runs, and what must be possible by a run that does it.

Hashes, digests, tries and encodings are ideal: equal images mean equal contents. Balances and counters are
unbounded integers, and scores, loads and rewards are exact reals. A library sort is any rearrangement its
comparison calls sorted; map iteration visits keys in an arbitrary order.

## Where the program does not do what it promises

Each of these is proved, with the exact condition under which the promise holds and, where that alone does not show
the failure, a concrete case.

- A debit that is rejected for lack of balance is still relayed, and its second stage creates value
  (`Relay.UncoveredRelayCreatesValue`, `Relay.RelayConservation`).
- The incremental partition statistics go wrong when a vertex with a self-loop moves
  (`ClpaSelfLoop.SelfLoopDefeatsFastUpdate`, `ClpaGraph.FastAgreesWithRecount`). A self-loop gets in because
  `data2tx` (supervisor/committee/committee_relay.go:183) drops equal addresses before it strips an optional `0x`:
  two spellings of one address pass and become one vertex.
- Block validation ignores the bloom filter, so a block can be committed and indexed but never found by the
  chain walk (`Chain.ForgedBloomHidesCommit`, `Chain.IndexAgreesWithWalk`).
- A catch-up response with a wrong start number leaves the sequence cursor off the head
  (`PbftReplica.WrongStartMisaligns`, `PbftReplica.CatchUpCursor`).
- Two quorums of 2f + 1 need not share an honest member unless n = 3f + 1 (`Pbft.QuorumsMayMiss`,
  `Pbft.QuorumsMeetExactly`).
- A second partition message that reaches a shard before it has applied the first is mishandled in both orders
  (`MigrationNode.Resharder.AccountTransferDo`). If the shard proposes the first map afterwards, the second one is
  counted as applied and never is. If the proposal was already made, the second map keeps waiting with no round
  running, and the map just applied waits again behind it.
- The guard term in the backlog's commit ratio leaves a weighted residue for good (`Backlog.ResidueExample`,
  `Backlog.ResidueNeverClears`).

Conditions that today's callers keep, and that the code itself does not enforce:

- Adding a known vertex again would count it twice (`ClpaGraph.CountsAfterAdd`); `AddEdge` asks first.
- A transaction with an empty end would put the empty address on a shard without counting it
  (`Placement.LoadsCountAddresses`); the loader drops such rows (spring_lite/offline_env.py:276 and 291).
- Messages sent by a second map would make the proposal of the first panic (`MigrationNode.SecondMapPanics`,
  `MigrationNode.Resharder.ProposePartition`); the supervisor sends a second map only after some shard has applied
  the first, and by then every shard has sent by it (supervisor/committee/committee_clpa.go:154 and 216).
- A second proposal in one round would queue the received transactions again
  (`MigrationNode.Resharder.ProposePartition`); within a view the proposal is applied first.
- A mask shorter than the number of shards means different things online and offline
  (`CandidateBuilders.NormalizationsAgreeExactly`); both builders return full masks.

## Model

| member | source | states |
|---|---|---|
| `Relay.RelayConservation` | chain/blockchain.go:80-163 | Over every run of injections, proposals, abandoned proposals, commits and relay deliveries (delayed, reordered, repeated) on any number of shards, with non-negative values: all balances plus debited-but-uncredited value equal the initial total if and only if every credited transfer had a covered debit or moved nothing; they never fall below it; and they equal it whenever every relayed debit was covered |
| `Relay.RelayAccounting` | chain/blockchain.go:80-163 | Over every such run, for values of any sign: balances plus debited-but-uncredited value equal the initial total plus the value credited without a covered debit, and the execution log is exact |
| `Relay.ExactlyOnce` | consensus_shard/pbft_all/pbftInside_module.go:75-95 | Two log entries with one hash are the two stages of one transfer, debit first, and the first stage crosses shards; so a transaction debits once and credits at most once, after its debit |
| `Relay.SecondStageLater` | consensus_shard/pbft_all/pbftInside_module.go:75-95 | A second stage is always logged after its first stage |
| `Relay.NoMisroutedProposal` | consensus_shard/pbft_all/pbftInside_module.go:78-83 | Over every run every proposed first stage has its sender here and every proposed second stage its recipient, so the panics on an incorrect transaction are unreachable |
| `RelayProgress.NothingIsLost` | core/txpool.go:56-66 | In every run, whatever a shard is given by injection or delivery is, by its hash, in its queue, in its proposal or executed, unless the shard gives up a proposal |
| `RelayProgress.HeldCanBeExecuted` | chain/blockchain.go:166-194 | From every state, what a shard holds can be executed without new transactions and without giving anything up |
| `RelayProgress.AbandonKeepsTheRest` | chain/blockchain.go:234-249 | A proposal that is given up takes neither queue nor state with it |
| `RelayBridge.ProposeAndCommit` | chain/blockchain.go:166-249 | Generating, adding and relaying one block on a leader makes exactly the proposal and the commit of the run of all shards: body, state, index, queue and parcels |
| `Relay.UncoveredRelayCreatesValue` | chain/blockchain.go:111-117 | A concrete two-shard run: a transfer above the balance is rejected, relayed, delivered and credited, and the balances end at three initial balances plus one instead of two |
| `Relay.UncoveredRelaySurfaces` | consensus_shard/pbft_all/pbftInside_module.go:84-87 | From every reachable state in which an uncovered transfer of positive value has been relayed to an existing shard, the run can go on without new transactions to a state where the total has grown |
| `Relay.NothingMinted` | chain/blockchain.go:111-117 | Credited value lacks a debit exactly when some credited transfer of positive value was not covered |
| `Relay.RunKeeps` | consensus_shard/pbft_all/pbftInside_module.go:55-102 | Every run keeps the whole invariant: exact log, balanced books, only legitimate messages and queue entries |
| `Relay.StepKeeps` | consensus_shard/pbft_all/pbftInside_module.go:55-102 | Each step of the sharded system keeps that invariant |
| `Relay.CommitKeeps` | consensus_shard/pbft_all/pbftInside_module.go:55-102 | Committing a proposed block keeps the invariant |
| `Relay.ProposeKeeps` | chain/blockchain.go:166-194 | Packing, filtering and proposing keeps the invariant |
| `Relay.ExecTxEffect` | chain/blockchain.go:95-150 | Executing one routed transaction changes the sum of all balances by exactly its effect: nothing, minus its value, or plus its value |
| `Relay.CommitTxBalances` | chain/blockchain.go:80-163 | Committing one legitimate, unexecuted transaction keeps balances plus outstanding value in step |
| `Relay.OutstandingSettles` | consensus_shard/pbft_all/pbftInside_module.go:75-95 | Crediting a second stage lowers the outstanding value by exactly that transfer if its debit was covered, and creates exactly that value otherwise |
| `Relay.DebitOf` | consensus_shard/pbft_all/pbftInside_module.go:75-95 | Every legitimate second stage has exactly one crossing first stage in the log |
| `Relay.CommitIsExecution` | chain/blockchain.go:80-163 | The step-by-step commit of a block is block execution plus indexing of its body |
| `Relay.CommitSends` | consensus_shard/pbft_all/pbftInside_module.go:75-95 | A committed block sends exactly the relays of its crossing transactions |
| `RelayNode.ClassifyBody` | consensus_shard/pbft_all/pbftInside_module.go:71-95 | The commit loop panics if and only if some first stage has its sender, or some second stage its recipient, on another shard; otherwise it reports inner, first-stage and second-stage transactions and leaves each relay waiting for its destination |
| `RelayNode.RelayMsgSend` | consensus_shard/pbft_all/toolFuncs.go:127-152 | Every other shard gets exactly what was waiting for it, and the relay pool is empty afterwards |
| `RelayNode.SendCommitted` | consensus_shard/pbft_all/toolFuncs.go:127-152 | Classifying and sending together put exactly the parcels of the committed block on the wire |
| `RelayNode.ReportsSplitBody` | consensus_shard/pbft_all/pbftInside_module.go:75-95 | The three reported lists partition the block body: sizes add up, every transaction is listed, and every listed one comes from the body and is of the right kind |
| `Ledger.GetUpdateStatusTrie` | chain/blockchain.go:80-163 | The execution loop computes the fold of single-transaction execution, including the early exit on an uncovered debit |
| `LedgerLaws.ExecutionMeans` | chain/blockchain.go:95-150 | The balance of every account after a transaction: second stages credit the recipient where it lives, first stages debit the sender where it lives and credit the recipient where it lives, broker transactions do both here, and an uncovered debit stops all of it |
| `LedgerLaws.NoncesStay` | chain/blockchain.go:95-150 | Existing accounts keep their nonce; a new one gets its position in the block |
| `Ledger.FreshIsUsable` | chain/blockchain.go:351-372 | What the replay filter keeps comes from the input, has non-empty hashes not executed yet, and repeats none |
| `Ledger.FreshKeepsAll` | chain/blockchain.go:351-372 | The filter drops no hash but executed and empty ones |
| `LedgerLaws.FreshKeepsFirst` | chain/blockchain.go:351-372 | Exactly the first usable copy of every hash is kept, in the old order |
| `Ledger.FetchAccounts` | chain/blockchain.go:433-455 | One state per requested address, in order; a missing account reads as nonce 0 with the initial balance |
| `Ledger.InstallAccounts` | chain/blockchain.go:375-416 | The installing loop writes exactly the states whose account is mapped to this shard |
| `LedgerLaws.InstallingMeans` | chain/blockchain.go:375-416 | An account of this shard gets the state listed last for it; every other account keeps what it had |
| `Pool.TxPool.PackTxs` | core/txpool.go:56-66 | What is packed and what stays are the old queue in order, and as much as allowed is packed |
| `Pool.TxPool.RemoveTxs` | core/txpool.go:120-147 | The queue without every transaction whose hash occurs in the block |
| `Ledger.WithoutMembers` | core/txpool.go:120-147 | Exactly the transactions with other hashes stay |
| `LedgerLaws.WithoutKeepsOrder` | core/txpool.go:120-147 | Exactly the positions with other hashes are kept, in the old order |
| `Pool.TxPool.AddTxs2Pool` | core/txpool.go:37-46 | New transactions are appended in order |
| `Pool.TxPool.AddRelayTx` | core/txpool.go:89-97 | A relay is appended to the list of its destination, and no other list changes |
| `Chain.RunKeeps` | chain/blockchain.go:234-249 | Over every sequence of block additions (arbitrary blocks, each under the placement of its time), account installations and restarts: the store holds one linked chain with contiguous heights, each hash occurs once, the index is exactly the hashes on the chain, the old chain is a prefix of the new one, and bloom filters that cover their bodies keep doing so |
| `Chain.ApplyKeeps` | chain/blockchain.go:234-249 | Each such operation keeps the store exact |
| `Chain.AppendKeeps` | storage/storage.go:130-165 | Storing an accepted block extends the chain by it and keeps the index exact |
| `Chain.BackfillExact` | storage/storage.go:68-85 | From any part of the index, the restart backfill restores exactly the index |
| `Chain.ProposedIsAccepted` | chain/blockchain.go:166-194 | Whatever the pool hands out, the block proposed from it is accepted on the same head |
| `Chain.BodyAccepted` | chain/blockchain.go:323-340 | A body passes if and only if its hashes are non-empty, pairwise different and not executed |
| `ChainState.AcceptedExactly` | chain/blockchain.go:301-346 | A block is accepted if and only if its hashes are usable and it follows the head: next height, parent, transaction root, sealed hash, and as state root the head state with its body executed |
| `ChainState.HeadIsExecution` | chain/blockchain.go:301-346 | Over every history, the state at the head is the execution of everything on the chain, each body under the placement it was accepted at, each migration by its map |
| `ChainState.HistoryBlocks` | chain/blockchain.go:234-249 | Over every history the chain grows by one block per accepted offer or migration, and each block is what that operation appends after the one before it |
| `ChainState.ProposedIsFound` | chain/blockchain.go:166-194 | Every transaction of a stored proposal is found by the chain walk |
| `Chain.NewStoreExact` | chain/blockchain.go:197-231 | A new store is exact with the genesis block |
| `Chain.IndexAgreesWithWalk` | chain/merkleproof.go:28-55 | The index and the chain walk agree on every hash if and only if every stored bloom filter covers its block body |
| `Chain.HistoryAgreesWithWalk` | chain/blockchain.go:49-55 | On every history from a new store whose offered blocks carry the bloom filter of their body, the index and the chain walk agree on every hash |
| `Chain.WalkFinds` | chain/merkleproof.go:28-55 | The walk over parent hashes finds a hash exactly when some block above genesis shows it |
| `Chain.HiddenByBloom` | chain/merkleproof.go:58-67 | A bloom filter that misses a transaction hides it from the walk over the whole chain |
| `Chain.ForgedBloomHidesCommit` | chain/blockchain.go:301-346 | Validation does not look at the bloom filter: for every store and fresh transaction, a block with an empty filter is accepted, indexed, and never found by the walk |
| `Chain.OneBlockOnly` | chain/blockchain.go:301-346 | A hash occurs in at most one stored block |
| `ChainNode.BlockChain.AddBlock` | chain/blockchain.go:234-249 | A rejected block changes neither store nor pool; an accepted one is stored and removed from the pool |
| `ChainNode.BlockChain.GenerateBlock` | chain/blockchain.go:166-194 | The proposed block is built from the longest allowed prefix of the queue without replays, and is valid on the current head |
| `ChainNode.BlockChain.IsValidBlock` | chain/blockchain.go:301-346 | The first failing test decides the verdict |
| `ChainNode.BlockChain.FilterFreshTransactions` | chain/blockchain.go:351-372 | The filter loop keeps the first usable occurrence of every hash |
| `ChainNode.BlockChain.TxProofGenerate` | chain/merkleproof.go:28-55 | The loop reports a transaction found exactly when the walk does, with a stored block that shows it |
| `ChainNode.BlockChain.HasTransaction` | storage/storage.go:169-183 | On an exact store the answer is whether some block on the chain holds the hash, and the same as the proof walk gives when the bloom filters cover their bodies; the empty hash is an error |
| `ChainNode.BlockChain.BackfillIndex` | storage/storage.go:68-85 | The restart loop adds the non-empty hashes of all stored bodies and changes nothing else |
| `ChainNode.BlockChain.StoreBlock` | storage/storage.go:130-165 | Stores the block, moves the head and indexes its body |
| `ChainNode.BlockChain.AddAccounts` | chain/blockchain.go:375-430 | Appends a block without transactions whose state holds the installed accounts |
| `ChainNode.BlockChain.UpdatePartitionMap` | chain/blockchain.go:58-72 | Only the given account is routed differently |
| `ClpaGraph.FastAgreesWithRecount` | partition/partition_CLPA.go:146-168 | After moving one vertex of any multigraph, the incremental shard weights, and likewise the incremental cross-edge count, equal a recount if and only if the vertex has no self-loop |
| `ClpaGraph.FastWeightError` | partition/partition_CLPA.go:146-168 | With self-loops, the incremental weights of the two shards involved are short by the number of loops |
| `ClpaGraph.FastCrossError` | partition/partition_CLPA.go:146-168 | With self-loops, the incremental cross-edge count is short by twice the number of loops |
| `ClpaSelfLoop.SelfLoopDefeatsFastUpdate` | partition/partition_CLPA.go:146-168 | A three-vertex graph with a self-loop and a move the partitioner may make, both shards having edges, after which the incremental weights and the incremental cross-edge count are wrong |
| `ClpaSelfLoop.LoopedVertexIsMoved` | partition/partition_CLPA.go:215-264 | On that graph, with penalty 0.5, the other shard scores best for the looped vertex, so the partitioner does make that move |
| `ClpaGraph.Handshake` | partition/partition_CLPA.go:102-143 | The recount over adjacency lists, halving inner edges, counts every edge incident to a shard once |
| `ClpaGraph.CrossSeenTwice` | partition/partition_CLPA.go:112-132 | The recount meets every cross-shard edge from both ends, so half its sum is the number of cross-shard edges |
| `ClpaGraph.CountsAfterMove` | partition/partition_CLPA.go:255-262 | Moving a vertex keeps the per-shard vertex counts exact |
| `ClpaGraph.CountsAfterAdd` | partition/partition_CLPA.go:47-56 | Adding a vertex keeps the counts exact if and only if the vertex is new |
| `ClpaGraph.NoShardEmpties` | partition/partition_CLPA.go:255-264 | No run of allowed moves empties a non-empty shard |
| `ClpaGraph.NeighborShardHasEdges` | partition/partition_CLPA.go:215-228 | The shard of a neighbour always has an incident edge |
| `ClpaScore.ZeroMinimumScore` | partition/partition_CLPA.go:215-228 | While some shard has no edge the score divides by a zero minimum; for the shard of a neighbour, at a positive penalty, the result is minus infinity and not undefined |
| `ClpaScore.ScoreMeans` | partition/partition_CLPA.go:215-228 | Score times degree times minimum weight is the number of edges to the shard times what the penalty leaves of the minimum; without a minimum to divide by, only the sign of the penalty remains |
| `ClpaGraph.DescribesAppend` | partition/graph.go:31-45 | Appending an edge to both lists keeps the adjacency lists a symmetric description of the edge list |
| `ClpaGraph.ProgressMove` | partition/partition_CLPA.go:255-264 | Recording a move keeps replay, result map and move counters in step |
| `ClpaPartitioner.Recount` | partition/partition_CLPA.go:102-143 | The recount loops compute the edges incident to every shard and the cross-shard edges |
| `ClpaPartitioner.FastUpdate` | partition/partition_CLPA.go:146-168 | The incremental loop adds the per-neighbour corrections of weights and cross edges |
| `ClpaPartitioner.ChooseShard` | partition/partition_CLPA.go:241-254 | The shard of the first neighbour that scores above the floor and below no other; the own shard when no neighbour shard scores above the floor |
| `ClpaPartitioner.CLPAState.ComputeEdges2Shard` | partition/partition_CLPA.go:102-143 | Statistics are accurate afterwards, and unchanged if they were accurate before |
| `ClpaPartitioner.CLPAState.ChangeShardRecompute` | partition/partition_CLPA.go:146-168 | Starting from accurate statistics, they are accurate after the move if and only if the vertex has no self-loop |
| `ClpaPartitioner.CLPAState.AddVertex` | partition/partition_CLPA.go:47-56 | Keeps the vertex counts exact if and only if the vertex was new; an existing label is kept |
| `ClpaPartitioner.CLPAState.AddEdge` | partition/partition_CLPA.go:59-70 | Adds the edge and its missing ends, and keeps counts, labels and adjacency consistent |
| `ClpaPartitioner.CLPAState.Visit` | partition/partition_CLPA.go:237-264 | The vertex moves if and only if it chooses another shard and is not alone in its own, and then to the chosen one; labels and statistics follow that move; statistics stay accurate without a self-loop |
| `ClpaPartitioner.CLPAState.Propagate` | partition/partition_CLPA.go:234-266 | Every sweep visits every vertex once; the visits lead from the old labels and statistics to the new ones; without self-loops the statistics stay accurate throughout |
| `ClpaPartitioner.CLPAState.Sweep` | partition/partition_CLPA.go:237-265 | One sweep visits every vertex exactly once, in any order, skipping those that have moved 50 times |
| `ClpaPartitioner.CLPAState.Partition` | partition/partition_CLPA.go:231-274 | The labels are what so many sweeps, visit by visit, make of the old ones; the returned map overlaid on the old labels gives the new labels; no vertex moves more than 50 times; no shard is emptied; without self-loops the final recount finds exactly the statistics the sweeps kept; if nothing moved at all, every vertex was alone or chose the shard it was in; with a positive penalty nothing moves while some shard has no incident edge |
| `ClpaTrace.QuietMeansStable` | partition/partition_CLPA.go:236-266 | If at least one sweep makes no move, every vertex was stable under the starting labels |
| `ClpaTrace.TraceKeepsExact` | partition/partition_CLPA.go:146-168 | Without self-loops, statistics that start exact stay exact through every visit of every sweep |
| `ClpaTrace.FrozenTrace` | partition/partition_CLPA.go:215-266 | While some shard has no edge and the penalty is positive, nothing moves |
| `ClpaTrace.RunVisit` | partition/partition_CLPA.go:237-264 | Each visit, skipped or not, keeps labels, result map, move counters and statistics in step |
| `ClpaCommittee.AgreeOverlay` | supervisor/committee/committee_clpa.go:142-152 | Overlaying the same result on the router map and on the labels keeps them in agreement |
| `ClpaCommittee.CLPACommitteeModule.RunEpoch` | supervisor/committee/committee_clpa.go:142-152 | After every epoch and reset the router answers the new label of each vertex, and routes of vertices outside the sent map are unchanged |
| `ClpaCommittee.CLPACommitteeModule.Reset` | supervisor/committee/committee_clpa.go:206-212 | The new graph has no edges and starts from the labels the router holds |
| `ClpaCommittee.CLPACommitteeModule.HandleBlockInfo` | supervisor/committee/committee_clpa.go:214-230 | The inner and second-stage transactions of a block become edges in order, and router and labels stay in agreement |
| `Migration.RunRefinesGlobalMap` | consensus_shard/pbft_all/accountTransfer_module.go:178-209 | Over every alternation of arriving transactions, non-broker blocks and migration rounds, the per-shard states read at the owner are one global account map on which the same blocks act, and every queued transaction belongs where it is |
| `Migration.RoutedRunIsTransfers` | consensus_shard/pbft_all/accountTransfer_module.go:178-209 | When every block holds transactions of its own shard, that global map is the transfers alone, whichever shards execute them: a transfer between shards in two stages, any other at once |
| `Migration.RoutedBlockIgnoresShard` | chain/blockchain.go:80-163 | What a routed block does to the global map does not depend on the shard that executes it |
| `Migration.TwoStagesAreOneTransfer` | chain/blockchain.go:80-163 | Debit and later credit of a covered transfer between shards add up to the transfer within one |
| `Migration.StaleCopiesNeverRead` | consensus_shard/pbft_all/accountTransfer_module.go:178-209 | Two systems that differ only in stale copies show the same balance of every account after the same run |
| `Migration.RoundKeepsBalances` | consensus_shard/pbft_all/accountTransfer_module.go:58-122 | A complete round from a quiescent state changes no logical balance |
| `Migration.BlockRefines` | chain/blockchain.go:80-163 | A non-broker block acts on the global map exactly as on its shard |
| `Migration.ExecOwned` | chain/blockchain.go:80-163 | A non-broker block changes only accounts its shard owns, and reads no other |
| `Migration.QueueSplits` | consensus_shard/pbft_all/accountTransfer_module.go:86-103 | The old queue, as a multiset, is the kept queue plus the lists sent to all destinations |
| `Migration.KeepMembers` | consensus_shard/pbft_all/accountTransfer_module.go:86-103 | A transaction is sent exactly when its routing account leaves, and kept otherwise |
| `Migration.KeepKeepsOrder` | consensus_shard/pbft_all/accountTransfer_module.go:86-103 | Kept transactions stay in their old order |
| `Migration.SendKeepsOrder` | consensus_shard/pbft_all/accountTransfer_module.go:86-103 | Sent transactions are in their old order, too |
| `Migration.KeepTwice` | consensus_shard/pbft_all/accountTransfer_module.go:71-103 | Compacting once per destination is compacting once by all leaving accounts |
| `Migration.RoundMovesEveryCopy` | consensus_shard/pbft_all/accountTransfer_module.go:58-122 | After a round every copy of every queued transaction is in the queue of the shard that now owns its routing account, none lost or duplicated |
| `Migration.RoundKeepsBelonging` | consensus_shard/pbft_all/accountTransfer_module.go:132-151 | After a round every queued transaction belongs to the shard that holds it |
| `Migration.ReceivedAreMappedHere` | consensus_shard/pbft_all/accountTransfer_module.go:143-150 | Every received transaction has its routing account mapped here by this round, so the error panics are unreachable |
| `Migration.ArrivingIsPackets` | consensus_shard/pbft_all/accountTransfer_module.go:71-84 | What arrives at a shard is exactly what its former owners send, each account from its one owner |
| `MigrationNode.CompactQueue` | consensus_shard/pbft_all/accountTransfer_module.go:86-103 | The two-pointer loop leaves the kept transactions in order and returns the sent ones in order |
| `MigrationNode.SendAccountsAndTxs` | consensus_shard/pbft_all/accountTransfer_module.go:58-122 | Every other shard gets one message with its accounts, their states and its transactions; the queue keeps the rest |
| `MigrationNode.MergeInbox` | consensus_shard/pbft_all/accountTransfer_module.go:135-151 | Reading the messages in any order yields exactly the received transactions; when the messages are those of one round, all arriving states and the senders' lists |
| `MigrationNode.InstalledIsOverlay` | chain/blockchain.go:375-416 | After the map switch, installing the arriving accounts overlays exactly them on the old state |
| `MigrationNode.Resharder.ProposePartition` | consensus_shard/pbft_all/accountTransfer_module.go:132-175 | Adds what the messages hold to what this round has already received; panics if and only if no map is waiting or something received is not mapped here by the oldest waiting map; otherwise lists all received states and queues all received transactions; the first proposal of a round, on messages sent by that map, never panics, carries exactly the arriving states, and appends exactly the arriving transactions |
| `MigrationNode.SecondMapPanics` | consensus_shard/pbft_all/accountTransfer_module.go:58-151 | A concrete inbox, sent by a second map while the first is still waiting, that holds a transaction the first map does not place here, which is the panic condition |
| `MigrationNode.Resharder.AccountTransferDo` | consensus_shard/pbft_all/accountTransfer_module.go:178-209 | Switches the routing map, installs the listed accounts that are mapped here and ends the round; which maps wait afterwards, exactly, for every round number: none if the proposal counted them all, and otherwise the later ones followed by the map just applied; the node is in step if and only if the round number matches its maps |
| `MigrationNode.NodeStepsMakeRound` | consensus_shard/pbft_all/accountTransfer_module.go:58-209 | When every shard sends, collects, proposes and applies by one map, the resulting states and queues are exactly the round that the theorems above are about |
| `MigrationNode.SentIsCollected` | consensus_shard/pbft_all/accountTransfer_module.go:58-122 | What all shards send is what every shard collects |
| `MigrationNode.Resharder.HandlePartitionMsg` | consensus_shard/pbft_all/pbftOutside_moduleCLPA.go:93-102 | The new map waits behind those not applied yet; the map accounts are sent by is the map proposals are checked against if and only if none was waiting |
| `MigrationNode.Resharder.HandleAccountStateAndTxMsg` | consensus_shard/pbft_all/pbftOutside_moduleCLPA.go:123-138 | When only other shards report, collection is over exactly when every one of them has, repeated reports counting once |
| `Pbft.Agreement` | consensus_shard/pbft_all/messageHandle.go:123-335 | With n = 3f + 1, at most f faulty members, authentic votes and one proposal handed per height, no two honest replicas ever apply different requests at one height, even with catch-up responses in between |
| `Pbft.ChainsAgree` | consensus_shard/pbft_all/messageHandle.go:255-335 | Without catch-up, the chains of honest replicas agree at every height above both persisted heads, and below both if the persisted chains did |
| `PbftProgress.HonestMembersDecide` | consensus_shard/pbft_all/messageHandle.go:123-335 | From every state in which 2f + 1 honest members have the same chain, are idle at the next height and were handed no other proposal for it, there is a run, with the faulty members silent, after which all of them have appended the proposed block |
| `PbftProgress.GroupDecides` | consensus_shard/pbft_all/messageHandle.go:123-335 | So a group of 3f + 1 with at most f faulty members can append any next valid block to a common chain |
| `PbftProgress.CommitQuorumApplies` | consensus_shard/pbft_all/messageHandle.go:288-324 | The vote that completes a quorum of commits for a known valid block appends it, moves the cursor by one and returns to stage 1 |
| `PbftProgress.PrepareQuorumVotes` | consensus_shard/pbft_all/messageHandle.go:229-246 | The vote that completes a quorum of prepares makes the replica send its commit vote |
| `PbftProgress.CommitVotesOnce` | consensus_shard/pbft_all/messageHandle.go:229-246 | Over every run an honest member sends at most one commit vote per digest |
| `PbftProgress.CatchUpCompletes` | consensus_shard/pbft_all/messageHandle.go:393-419 | A complete answer that continues the chain is installed whole, and the cursor is one past its last block |
| `PbftProgress.CatchUpPrepares` | consensus_shard/pbft_all/messageHandle.go:420-448 | After such an answer the request noted for the next height, if valid there, is prepared at once |
| `PbftProgress.MissingIsAskedFor` | consensus_shard/pbft_all/messageHandle.go:288-315 | A quorum of commits for an unknown request asks for every height from the own next one to the voted one, and any answer that starts as announced is taken |
| `PbftProgress.ProposalIsKnown` | consensus_shard/pbft_all/messageHandle.go:85-109 | A leader can propose when idle, and can answer for its proposal at that height from then on |
| `PbftProgress.HandedIsKnown` | consensus_shard/pbft_all/messageHandle.go:149-161 | A proposal with the right digest is known at its height, valid or not |
| `PbftLeader.LedChainsAgree` | consensus_shard/pbft_all/messageHandle.go:123-448 | Under an honest leader, with at most f faulty members, from any persisted chains and with catch-up allowed: honest chains agree at every height above both persisted heads, and below both where the persisted chains did |
| `PbftLeader.LeaderAnswers` | consensus_shard/pbft_all/messageHandle.go:341-390 | Whatever the leader answers to a catch-up request at any point of such a run holds its own proposals at their heights |
| `PbftLeader.InstalledIsProposed` | consensus_shard/pbft_all/pbftInside_module.go:166-185 | Every block installed from such an answer is the leader's proposal at its height |
| `PbftLeader.AppliedIsProposed` | consensus_shard/pbft_all/messageHandle.go:255-335 | Every block applied on commit votes is the leader's proposal at its height |
| `Pbft.CursorFollowsHead` | consensus_shard/pbft_all/pbft.go:116 | From any persisted chains and over every run, with catch-up responses that start as announced, the sequence cursor of every honest replica is one past its head between handlers |
| `Pbft.RunKeeps` | consensus_shard/pbft_all/messageHandle.go:123-448 | Every run keeps the protocol invariant |
| `Pbft.StepKeeps` | consensus_shard/pbft_all/messageHandle.go:123-448 | Each event keeps the protocol invariant |
| `Pbft.PrePrepareKeeps` | consensus_shard/pbft_all/messageHandle.go:123-182 | A pre-prepare keeps it: an honest prepare vote is for the one proposal handed at that height |
| `Pbft.PrepareKeeps` | consensus_shard/pbft_all/messageHandle.go:187-250 | A prepare vote keeps it: an honest commit vote is backed by 2f + 1 prepare votes |
| `Pbft.CommitKeeps` | consensus_shard/pbft_all/messageHandle.go:255-335 | A commit vote keeps it: an applied block is backed by 2f + 1 commit votes and matches the head |
| `Pbft.OldRequestsKeep` | consensus_shard/pbft_all/messageHandle.go:393-448 | A catch-up response keeps it |
| `Pbft.QuorumsAgree` | consensus_shard/pbft_all/toolFuncs.go:23-47 | Two prepare quorums at one height are for one request |
| `Pbft.QuorumsMeetExactly` | consensus_shard/pbft_all/pbft.go:125 | With f = (n - 1) / 3, every two quorums of 2f + 1 share an honest member whichever f are faulty, if and only if n = 3f + 1 |
| `PbftReplica.CatchUpCursor` | consensus_shard/pbft_all/messageHandle.go:393-419 | A catch-up response keeps the cursor aligned if and only if it is not fully installed or starts at the next height |
| `PbftReplica.AnnouncedStartAligns` | consensus_shard/pbft_all/messageHandle.go:393-419 | A response whose first block carries the announced start number keeps the cursor aligned, whether installed fully, partly or not |
| `PbftReplica.WrongStartMisaligns` | consensus_shard/pbft_all/messageHandle.go:393-419 | A response with a wrong announced start leaves the cursor off the head |
| `PbftReplica.HandlersKeepCursor` | consensus_shard/pbft_all/messageHandle.go:288-324 | Proposals, pre-prepares, prepares and accepted or rejected commits keep the cursor one past the head |
| `PbftReplica.InstallAll` | consensus_shard/pbft_all/pbftInside_module.go:166-185 | Catch-up appends the blocks of the response in order, each valid on the chain before it, and stops exactly at the first request that is missing, of another kind or invalid there |
| `PbftReplica.InstallNumbered` | consensus_shard/pbft_all/pbftInside_module.go:166-185 | Catch-up keeps block numbers contiguous |
| `PbftNode.PbftConsensusNode.Set2DMap` | consensus_shard/pbft_all/toolFuncs.go:23-47 | A vote of a member is counted once per sender and digest, in the map it is for; others are ignored |
| `PbftNode.PbftConsensusNode.ProposeRequest` | consensus_shard/pbft_all/messageHandle.go:85-109 | The proposal is pooled under its digest at the current cursor |
| `PbftNode.PbftConsensusNode.HandlePrePrepare` | consensus_shard/pbft_all/messageHandle.go:123-182 | A prepare vote goes out only for a digest that matches, at the cursor, on a valid block of that number |
| `PbftNode.PbftConsensusNode.HandlePrepare` | consensus_shard/pbft_all/messageHandle.go:187-250 | A commit vote goes out once, only with 2f + 1 prepare votes counted |
| `PbftNode.PbftConsensusNode.HandleCommit` | consensus_shard/pbft_all/messageHandle.go:255-335 | With 2f + 1 commit votes the block is applied, refused, or asked for; the chain only grows and the cursor stays aligned |
| `PbftNode.PbftConsensusNode.HandleRequestOldSeq` | consensus_shard/pbft_all/messageHandle.go:341-390 | The answer is the longest known run of requests from the asked start, cut at the asked end |
| `PbftNode.PbftConsensusNode.HandleForSequentialRequest` | consensus_shard/pbft_all/pbftInside_module.go:166-185 | Blocks are appended until one does not fit; success means all were |
| `PbftNode.PbftConsensusNode.HandleSendOldSeq` | consensus_shard/pbft_all/messageHandle.go:393-448 | The state after catch-up, the vote it may send for the next height, and exactly when the cursor stays aligned |
| `Shutdown.ShutdownIsSafe` | consensus_shard/pbft_all/pbft.go:184-235 | In every interleaving: databases close at most once and only with no admitted or synchronous handler running, nothing is admitted after the stop flag, and completion is published only after the close |
| `ShutdownProgress.StopCompletes` | consensus_shard/pbft_all/pbft.go:316-331 | From every reachable state in which a stop waits for handlers, these can finish, after which the databases are closed once and completion is published |
| `ShutdownProgress.StopBegins` | consensus_shard/pbft_all/pbft.go:203-219 | The first stop request sets the flag, frees the lock and waits |
| `ShutdownProgress.LauncherIsAdmitted` | consensus_shard/pbft_all/pbft.go:184-198 | A launcher that holds the lock is admitted and counted if and only if the node is not stopping |
| `ShutdownProgress.RequestsAreHandled` | consensus_shard/pbft_all/pbft.go:271-297 | While nobody is stopping, a request that finds the pool free is dispatched, and a finished one frees it |
| `Shutdown.RunKeeps` | consensus_shard/pbft_all/pbft.go:184-235 | Every interleaving keeps the lock, counter, flag and closing invariants |
| `Shutdown.StepKeeps` | consensus_shard/pbft_all/pbft.go:271-331 | Each atomic step of any thread keeps them |
| `Shutdown.CountKeeps` | consensus_shard/pbft_all/pbft.go:184-198 | The wait-group counter is the number of admitted handlers |
| `Shutdown.LocksKeep` | consensus_shard/pbft_all/pbft.go:271-297 | Every thread in a locked region holds that lock |
| `Shutdown.ClosingKeep` | consensus_shard/pbft_all/pbft.go:316-331 | A thread that closes or has closed excludes every user of the databases |
| `CandidateTwins.TwinMasksEqual` | supervisor/committee/spring_candidate.go:111-197 | For equal inputs, affinity vectors of any length and fewer than 20,000,000 shards, whatever mask the online builder returns equals whatever mask the offline builder returns, each sorting by its own comparison |
| `CandidateTwins.PressuresAgree` | spring_lite/offline_env.py:1340-1360 | The two pressure vectors are equal |
| `CandidateTwins.CutsAgree` | supervisor/committee/spring_candidate.go:132-159 | The two near-zero cutoffs admit the same shards |
| `CandidateTwins.ScoresAgree` | spring_lite/offline_env.py:1327-1338 | The two score vectors are equal |
| `CandidateTwins.TotalPressure` | supervisor/committee/spring_candidate.go:45-79 | With whole window counts, total pressure is zero or at least one fifth |
| `CandidateTwins.SortOrdersAgree` | spring_lite/offline_env.py:1386-1392 | On a list without repetition either comparison calls sorted exactly the one ranking |
| `CandidateTwins.GoCutIsTop` | supervisor/committee/spring_candidate.go:161-194 | However the online sort arranges the admitted shards, cutting its result after k leaves the k highest ranked |
| `CandidateTwins.PyCutIsTop` | spring_lite/offline_env.py:1386-1392 | So does the offline sort |
| `Candidate.TopKFaithful` | supervisor/committee/spring_candidate.go:161-194 | For every k from 1 on: exactly min(k, admitted) shards survive, every survivor outranks every dropped one, and the best admitted shard survives |
| `Candidate.BestIgnoresCut` | supervisor/committee/spring_candidate.go:199-231 | The best survivor is the lowest-numbered best of all admitted shards, whatever k is |
| `Candidate.GuardAdmitsSome` | supervisor/committee/spring_candidate.go:132-159 | The load guard never shuts every shard out |
| `CandidateLaws.AdmittedExactly` | supervisor/committee/spring_candidate.go:132-159 | A guard that is on, with more than a near-zero mean, admits exactly the shards whose pressure times the number of shards is at most the factor, one at least, times the total; otherwise all |
| `CandidateLaws.PressuresAddUp` | supervisor/committee/spring_candidate.go:45-79 | All pressures together are the block size, once anything is placed, and a fifth of the stages of the last five windows |
| `CandidateLaws.MorePlacedIsMorePressed` | supervisor/committee/spring_candidate.go:45-79 | Of two shards with the same recent stages the one with more placements has more pressure |
| `CandidateLaws.ScoresDiffer` | supervisor/committee/spring_candidate.go:81-109 | What separates two scores: affinity a thousandfold, pressure at the load weight, and one thousandth for the hash shard, which therefore wins ties |
| `Candidate.FirstKAreTop` | supervisor/committee/spring_candidate.go:161-194 | The first k of a sorted list are the shards outranked by fewer than k |
| `CandidateBuilders.SpringBuildCandidateActionMask` | supervisor/committee/spring_candidate.go:111-197 | The loops and a sort by the online comparison build the mask of the reference candidates |
| `CandidateBuilders.BuildCandidateActionMask` | spring_lite/offline_env.py:1362-1394 | The loops and a sort by key in reverse build the mask of the offline reference candidates |
| `CandidateBuilders.SpringChooseCandidateOnlyShard` | supervisor/committee/spring_candidate.go:225-231 | Picks the best shard the guard admits, independent of k |
| `CandidateBuilders.SpringApplyCandidateGuard` | supervisor/committee/spring_candidate.go:233-243 | Keeps a proposed candidate, and replaces any other shard by the best candidate |
| `CandidateBuilders.NormalizeActionMask` | spring_lite/action_mask.py:6-20 | The mask of positive entries, a missing entry counting as allowed, or of all shards when there are none; any mask, none at all, and any shard count |
| `CandidateBuilders.SpringNormalizeActionMask` | supervisor/committee/spring_candidate.go:20-37 | The same, with a missing entry counting as not allowed |
| `CandidateBuilders.NormalizationsAgreeExactly` | supervisor/committee/spring_candidate.go:20-37 | The two normalizations agree on a mask if and only if it is empty or as long as the number of shards |
| `CandidateBuilders.ActionAllowed` | spring_lite/action_mask.py:23-25 | Exactly the shards of the normalized mask are allowed |
| `CandidateBuilders.SpringActionAllowed` | supervisor/committee/spring_candidate.go:39-43 | Exactly the shards of the online normalized mask are allowed |
| `CandidateBuilders.BestAllowedAction` | spring_lite/action_mask.py:28-39 | The lowest-numbered best-scoring shard of the normalized mask, missing scores reading as zero; shard 0 when there are no shards |
| `CandidateBuilders.SpringBestCandidateShard` | supervisor/committee/spring_candidate.go:199-219 | The lowest-numbered best-scoring shard of the online normalized mask |
| `CandidateBuilders.CandidateLoadPressures` | supervisor/committee/spring_candidate.go:45-79 | The pressure loops: share of placements scaled by the block size, plus the mean of the last five windows |
| `CandidateBuilders.SpringCandidateScores` | supervisor/committee/spring_candidate.go:81-109 | The score loop: affinity (zero where the vector ends), load penalty and hash bonus of every shard |
| `Placement.LoadsCountAddresses` | spring_lite/offline_env.py:1429-1554 | Over every run of batches the load counts exactly the addresses on each shard, if and only if no transaction ever had an empty end |
| `Placement.NeverMoves` | spring_lite/offline_env.py:1429-1554 | Over every run an address keeps the shard it got |
| `Placement.PlacedNeverMove` | spring_lite/offline_env.py:1429-1554 | The placements of a batch extend the address map and change no entry of it |
| `Placement.RequestsAreEnds` | spring_lite/offline_env.py:1795-1806 | Both placement orders ask for exactly the ends of the transactions |
| `Placement.RequestOrder` | spring_lite/offline_env.py:1795-1806 | In mode 1 every sender is asked for before any recipient; otherwise each sender right before its recipient |
| `Placement.SimulateBatchLoads` | spring_lite/offline_env.py:1583-1670 | Per shard, stages are the transactions with an end there and cross load is half the crossing ones; totals are effective = transactions and stage = transactions + crossings; inner and relayed add up; missing ends get their hash shard |
| `BatchLoads.LoadSplits` | spring_lite/offline_env.py:1583-1670 | Per shard, effective plus cross is stage, and neither exceeds it |
| `BatchLoads.LoadAtLeastHalf` | spring_lite/offline_env.py:1583-1670 | Every batch carries at least half a unit of effective load per stage |
| `OfflineEnv.SafePolicyOutput` | spring_lite/offline_env.py:1408-1427 | An allowed proposal is kept, any other replaced by the best allowed shard; the result is always allowed |
| `OfflineEnv.SpringOfflineEnv.PlaceAddress` | spring_lite/offline_env.py:1429-1554 | A new non-empty address is put where the mask of that moment allows and counted; any other request changes nothing |
| `OfflineEnv.SpringOfflineEnv.PlaceAll` | spring_lite/offline_env.py:1795-1806 | The requests of a batch in order, every placement under the mask of its moment; afterwards every non-empty address asked for is placed |
| `OfflineEnv.SpringOfflineEnv.RunBatch` | spring_lite/offline_env.py:1767-1905 | For every policy and both placement orders: when a batch is refused, how addresses and loads change, the batch totals, and one backlog step per shard |
| `OfflineEnv.RunsExactly` | spring_lite/offline_env.py:1774-1786 | A batch runs if and only if its transactions are of one kind, real ones come in mode 0 or 1, and the newer mechanism gets real ones, at least one |
| `OfflineEnv.SpringOfflineEnv.AdvanceQueues` | spring_lite/offline_env.py:1672-1765 | The loads of a batch advance every shard by one backlog step, and the windows are the committed stages of the last five batches |
| `OfflineEnv.ApplyCapacityBacklog` | spring_lite/offline_env.py:1672-1765 | The loop advances every shard by one backlog step; with backlog off it passes all loads through |
| `Backlog.PendingIsLargestExcess` | spring_lite/offline_env.py:1672-1765 | Over every run, pending stages are the maximum over k of the stages since batch k in excess of capacity |
| `Backlog.BacklogConserves` | spring_lite/offline_env.py:1672-1765 | Over every run and for each kind of load: arrivals so far = commits so far + pending |
| `Backlog.CapacityRespected` | spring_lite/offline_env.py:1672-1765 | No batch commits more stages than the capacity, and a batch that leaves stages pending commits exactly the capacity |
| `Backlog.CommitsInProportion` | spring_lite/offline_env.py:1721-1737 | Of each weighted load the committed part is to the whole as the committed stages are to the waiting stages plus EPS |
| `Backlog.WeightedBacklogKeepsPace` | spring_lite/offline_env.py:1672-1765 | Over every run, if all arrivals carry at least some weight per stage, so does what is pending |
| `Backlog.WeightedBacklogFollowsStages` | spring_lite/offline_env.py:1672-1765 | The weighted backlogs never exceed the stage backlog by more than EPS |
| `Backlog.ResidueNeverClears` | spring_lite/offline_env.py:1726-1745 | Because of EPS in the commit ratio, effective load is pending from the first arrival on, for good |
| `Backlog.ResidueExample` | spring_lite/offline_env.py:1726-1745 | One transaction with room for it: no stage stays pending, some effective load does |
| `Backlog.StepConserves` | spring_lite/offline_env.py:1672-1765 | One batch neither loses nor creates load |
| `Rollout.ReturnIsDiscountedBatches` | spring_lite/continuous_rollout.py:29-87 | For every error-free run across any number of update flushes, chaining the rewards and discounts handed over gives the sum over batches t of gamma^t times (mean local reward + global reward), each global reward once |
| `Rollout.RunAccounts` | spring_lite/continuous_rollout.py:29-87 | At every point of such a run the chained return is that of the batches so far, and the next transition starts at the right discount |
| `Rollout.StepAccounts` | spring_lite/continuous_rollout.py:29-74 | Each decision and each batch keeps that account |
| `Rollout.RevisitKeeps` | spring_lite/continuous_rollout.py:44-53 | A batch without placements adds its discounted global reward to the pending transition |
| `Rollout.PlacementKeeps` | spring_lite/continuous_rollout.py:54-74 | A batch with placements adds its mean local reward plus its global reward once, at its own discount |
| `Rollout.DecisionKeeps` | spring_lite/continuous_rollout.py:29-37 | Fixing the discount of the pending transition, and flushing or not, keeps the account |
| `Rollout.FinishKeepsReturn` | spring_lite/continuous_rollout.py:81-87 | Finishing flushes everything and keeps the chained return |
| `RolloutLaws.EqualRewardsAreWorthThat` | spring_lite/continuous_rollout.py:39-65 | A batch whose rewards all equal r, within the bounds, is worth scale times r; without placements, its global part |
| `RolloutLaws.RewardsSaturate` | spring_lite/continuous_rollout.py:42 | Batch rewards beyond the bounds count as the bound |
| `RolloutLaws.OutcomesExactly` | spring_lite/continuous_rollout.py:39-62 | When a batch runs without error, which error it raises otherwise, and what it has added by then |
| `RolloutLaws.HandedOverExactly` | spring_lite/continuous_rollout.py:29-37 | The buffer is handed over at a decision if and only if a transition was pending and both minima are met |
| `RolloutLaws.RunCounts` | spring_lite/continuous_rollout.py:39-79 | Over every error-free run there is one transition per placement, none terminal, and counters and sums count the batches |
| `RolloutLaws.OnlyTheEndIsTerminal` | spring_lite/continuous_rollout.py:81-87 | After finishing, exactly the last transition is terminal, with discount zero |
| `RolloutNode.ContinuousRollout.BeforeDecision` | spring_lite/continuous_rollout.py:29-37 | The fields follow the decision step |
| `RolloutNode.ContinuousRollout.AddBatch` | spring_lite/continuous_rollout.py:39-74 | The fields follow the batch step, with the transitions before an offending action kept |
| `RolloutNode.ContinuousRollout.Finish` | spring_lite/continuous_rollout.py:81-87 | The fields follow the finishing step |
| `RolloutNode.Transitions` | spring_lite/continuous_rollout.py:60-72 | The loop builds one transition per action up to the first that is not the policy's |

## Left out

- View change: it carries no prepared certificates and resets the cursor, so agreement and the cursor are per view.
- Equivocation and forged senders: one proposal per height and replica, and authentic votes, are hypotheses of the PBFT theorems.
- Pbft.ChainsAgree: excludes catch-up, because the blocks of a response are trusted without votes, and heights that only one of the two replicas had persisted; PbftLeader.LedChainsAgree allows catch-up from an honest leader.
- Relay conservation across migration: a second stage that migrates back to its first shard is filtered as a replay, so the placement is fixed in the relay theorems.
- Broker transactions: block execution models them, but balances are proved for plain transactions only.
- Replicas of one shard in the relay and migration systems: each shard is one node there.
- Migration.RoundKeepsBalances: a round is one step from a quiescent state; the barrier that waits for all shards depends on timers.
- Liveness under every fair scheduler: for PBFT and for shutdown the proofs give a run that completes, not that all runs do; the barrier of a re-partition depends on timers.
- Integer widths: block numbers, nonces and counters do not wrap around.
- Batch Merkle proofs, proof verification and relays with proofs.
- Nil transactions in a block body, and storage errors other than a missing block.
- Packing by bytes, `DeleteElementsInList` and the pool operations that only other pool modes use.
- Float rounding in scores, loads and rewards; the mask builders take the hash shard and the affinity vector as inputs.
- CandidateTwins.TwinMasksEqual: shard loads and load windows have one entry per shard, which is how both sides allocate them.
- OfflineEnv.SpringOfflineEnv.RunBatch: the policy and the affinity of an address are arbitrary inputs; legacy IoT batches with hash-seeded anchors, relation loads, owner loads, communication cost and reward shaping are not modelled.
- The backlog penalty that the reward derives from pending loads.
- Trace discounts, neural network, losses, sampling and diagnostics of the rollout.
- CLPA scores as floats: they are exact here, with division by zero weight as an infinite score.
- Networking, rate limits, timers, logging, CSV and JSON datasets, configuration and result analysis.
