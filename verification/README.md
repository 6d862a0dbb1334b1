# SAYANJALI ledger: a verified model

This project models the ledger engine of the SAYANJALI blockchain and proves what it promises. The
Go node computes the same economic state twice: by replaying a whole chain, and from cached state
snapshots, periodic checkpoints and an append-only journal. The main result is that the two never
differ: `ChainNode.Chain`, a class with the fields of the Go `Chain`, decides and publishes after every
`Accept`, reorganisation, crash and restart exactly what an abstract node decides that knows only the
block tree and full validation.

What validation means is stated a second time without it: `NextBlock` lists what a block must say of itself, who
may spend what and in which order, by sums over the transactions of a chain, and proves that exactly these blocks
are accepted; `ForkChoice` states the decision of `Accept` over it; `ReferenceLaw` does the same for Python.

Around it stand the memory pool with the miner (a locally mined block is always accepted), block
synchronisation with an honest peer over any number of rounds, the difficulty retarget in its Go and its
Python form, the codecs down to the JSON text of a journal record, and the Python reference node with its
balance cache under reorganisation.

All hashes and signatures are arbitrary functions in a record `Crypto`, so every theorem holds for any of
them. None is assumed injective: where a proof needs two inputs to differ in their hash it returns the
pair of inputs that collide.

Verify with `dafny verify dfyconfig.toml`.

## Modules

| module | part of the system |
|---|---|
| Base, Order, Utf8 | bytes, machine integers, sequences, sorted keys, UTF-8 |
| Protocol, Rules, Retarget | constants, transaction and header rules, difficulty and work |
| Merkle, LegacyBinding, Clashes | both Merkle roots, what each binds, and hash clashes |
| Ledger, LedgerOps, Frozen | the economic state as values; the validation and replay code in place on snapshots |
| Conservation, Equivalence, NetEffect, Nonces, ChainHeaders, Wallets | what every valid chain keeps |
| NextBlock, ForkChoice | the law of a next block, the meaning of chain work, the decision of `Accept` |
| Checkpoint, StateBinding | state roots and checkpoints; what a root binds |
| Journal, JournalRuns, LastWrite, Persist | the journal, its runs and failed writes, what replay gives, its ledger content |
| Tree, ChainMemory, ChainNode, Candidates, Crash, Life, Reopening | block tree and abstract node; the chain object and what a reorganisation hands back; crashes; whole lives of a node; when a journal opens |
| Mempool, PoolRuns, Selection, Completeness, Drain, Template, LocalNode, NodeOps | the version 2 pool, the block template and the miner |
| Twins, Sync, SyncOps, ForkPoint | blocks that a hash cannot tell apart; synchronisation rounds and where they set in |
| CanonicalJson, JsonText, BlockJson, Frames, Fields, Messages, Wire | canonical JSON, the journal's block codec and the peer-to-peer codecs, with their bytes |
| BalanceCache, ReferenceRules, ReferenceLaw, BalanceOps | the Python reference node |

## Findings

Behaviour of the code that the proofs bring out, each with its exact condition.

- `blockchain/blockchain.py:237-241` appends a mined block in memory before the store is asked, and
  `blockchain/validators.py:63-194` tests no transaction hash, so a block may repeat a confirmed transaction. A
  valid next block is stored if and only if it repeats neither a block hash nor a transaction hash
  (`BalanceOps.ReferenceChain.Append`, `BalanceCache.StoredIffRecordable`); otherwise memory stays one block ahead
  of the tables. `blockchain/blockchain.py:140-176` takes a confirmed transfer again as long as its sender can pay it, and a
  block that repeats it is valid (`ReferenceRules.RepeatedTransferIsValid`); so is a received block that repeats a
  coinbase, which `blockchain/network/propagation.py:233-248` appends the same way (`ReferenceRules.RepeatedCoinbaseIsValid`).
  `ReferenceRules.SplitIsReachable` gives a concrete chain and block.
- `internal/storage/storage.go:240-257` bounds a checkpoint record by 4 MiB, which is 62,599 accounts
  (`Wallets.CheckpointCapacity`). Beyond that a new tip at a height divisible by 16 is refused after its block
  was stored. The next block on it owes no checkpoint, becomes the tip, and leaves a journal that cannot be
  opened (`Reopening.UnopenableReached`). Opening succeeds if and only if the state at every height divisible by
  16 on the active chain fits (`ChainNode.Chain.Load`, `Reopening.OpensIffSmall`), always up to that size
  (`ChainMemory.SmallLedgersOpen`).
- `internal/storage/storage.go:156-173` leaves a partly written record in the file when a write fails. A later
  append makes the journal unreadable, or is itself lost on replay, unless the checksum that is then read happens
  to be that of the bytes it covers (`JournalRuns.FailureSpoils`).
- `internal/storage/storage.go:240-257` accepts an empty checkpoint payload and `internal/storage/storage.go:174-186`
  a block without a hash, which replay then rejects (`Journal.ReadableIffWellFormed`).
- `internal/block/merkle.go:5-21` gives an odd list and the list with its last hash repeated the same root
  (`Merkle.LegacyRootIgnoresRepeatedLast`); over distinct hashes it binds, up to a digest clash or a leaf that is
  itself the hash of a pair (`LegacyBinding.LegacyRootBinds`). The version 3 construction binds any lists (`Merkle.RootV3Binds`).
- `internal/transaction/v2.go:24-64` leaves the signature out of the identity of a version 2 transaction, and
  `internal/transaction/transaction.go:98-107` reads hexadecimal in both cases. So different valid blocks can share one header
  and hash (`Twins.ResignedIsValid`). Nothing computed from a chain depends on the difference (`Twins.TwinExtends`), and
  synchronisation catches up all the same (`Sync.RoundCatchesUp`).
- `internal/p2p/messages.go:63-65` sends a frame even when an encoder refused a field, and
  `internal/p2p/messages.go:115-136` accepts public keys shorter than 64 bytes, which no encoder writes. Such a truncated frame is
  never accepted (`Messages.MessageRoundTrip`).
- `internal/consensus/difficulty.go:10-82` and `blockchain/consensus.py:192-259` answer differently exactly on measurable
  windows whose configured minimum exceeds the maximum (`Retarget.GoMatchesPython`, `Retarget.CrossedLimitsDiverge`),
  for minima of at least 0; with a negative one the Python `16 ** -1` is a float, which `Fraction` does not take as a numerator.
- `internal/chain/chain.go:271-296` tests both the median of the last eleven times and the parent's time; the
  second test always implies the first (`ChainHeaders.MedianAtMostParent`).
- `internal/transaction/transaction.go:108-128` never reads the fields of the other transaction version, which
  `internal/codec/codec.go:16-36` does not write: a block that carries them would validate but not survive a restart unchanged
  (`BlockJson.ValidatedIsReadBack`). Blocks that were decoded or mined never carry them.

## Model

| member | source | states |
|---|---|---|
| NextBlock.NextIsLawful | internal/chain/chain.go:200-242 | over every valid prefix full validation accepts exactly the lawful blocks: header, work, Merkle root, new identities, one coinbase of 5e9 up to the last height, authorised transfers, and each transfer covered by what its sender was paid less what it paid, with nonces counting its transfers |
| NextBlock.ChainIsLawful | internal/chain/chain.go:184-198 | a chain is valid exactly when it starts with the frozen genesis and every later block is lawful |
| NextBlock.TxLaw | internal/transaction/v2.go:98-156 | a transaction passes validation exactly when it is labelled, addressed, timed, sized and signed as its version asks, or is a proper coinbase |
| NextBlock.TransfersAreAuthorised | internal/transaction/v2.go:98-156 | on every valid chain each transfer carries a key its sender's address was made from and a signature that verifies, moves a positive amount to another address, and is covered when its turn comes |
| NextBlock.BlocksAreWorked | internal/consensus/pow.go:9-33 | on every valid chain each block above genesis has its header's hash, which starts with as many zeros as its difficulty, 1 to 32 |
| NetEffect.BalanceIsNetEffect | internal/chain/chain.go:636-742 | on every valid chain of every version an address holds its genesis allocations plus all it was paid less all it paid, in the snapshot state and in the replayed one |
| NetEffect.TransferMoves | internal/state/balance.go:7-22 | one transfer lowers the sender and raises the receiver by its amount and touches nobody else |
| Equivalence.IncrementalIsFullValidation | internal/chain/chain.go:800-848 | on every valid prefix the snapshot path accepts a block exactly when full validation does, and the new snapshot equals the replay of prefix and block |
| Equivalence.LimitsNeverFire | internal/chain/chain.go:636-742 | an accepted reward neither overflows nor breaks a supply limit: the extra tests of the snapshot path never fire |
| Equivalence.CreditsNeverOverflow | internal/state/balance.go:7-22 | while a valid block executes, every credit of any amount up to the maximum supply fits in 64 bits |
| Equivalence.StepAgreesV2 | internal/chain/v2.go:137-212 | under version 2 and 3 full transaction validation and the snapshot path agree on one block |
| Equivalence.StepAgreesV1 | internal/chain/chain.go:328-390 | under version 1 the state transition and the snapshot path agree on one block |
| Equivalence.RecomputesStep | internal/chain/chain.go:394-488 | what is recomputed from the whole chain stays equal to the snapshot over one more block |
| Equivalence.ValidIffLedger | internal/chain/chain.go:184-198 | a chain is valid exactly when it starts with genesis and every block passes on the snapshot before it |
| Equivalence.SupplyFollowsHeight | internal/consensus/reward.go:9-35 | at height h of a valid chain: balances add up to the supply, which is the genesis amount plus 5e9 per block, never above the maximum; the exact last height; the reward is whole or absent |
| Equivalence.RecomputationsFollowHeight | internal/chain/chain.go:314-488 | `replayBalances`, `miningIssuedFor` and `supplyFor` over a valid chain give exactly the scheduled amounts, and the replayed balances add up to the supply |
| Equivalence.RewardIsExact | internal/consensus/reward.go:9-35 | the reward is the full block reward until the last height and none at it: the short remainder is unreachable |
| Conservation.StepTotal | internal/state/balance.go:7-22 | a transaction changes the sum of all balances by its amount if it is a coinbase and not at all otherwise |
| Conservation.RunTotal | internal/chain/chain.go:636-742 | a block changes the sum of all balances by its coinbase sum |
| Nonces.NoncesCountUp | internal/chain/v2.go:137-212 | on a valid chain the nonces of a sender's transactions are 0, 1, 2, ... in chain order and the next nonce is their number |
| Nonces.IdentitiesDistinct | internal/chain/chain.go:746-798 | on a valid chain no transaction identity occurs twice, up to the genesis list that validation never reads |
| LedgerOps.Snapshot.Clone | internal/statecommitment/state.go:34-50 | a fresh snapshot with the same contents; the original is untouched |
| LedgerOps.Snapshot.Credit | internal/chain/chain.go:619-625 | succeeds unless 64 bits overflow, and then adds to exactly one balance; a failure changes nothing |
| LedgerOps.Snapshot.Debit | internal/chain/chain.go:627-634 | succeeds exactly when the balance covers the amount, and then takes from exactly one balance |
| LedgerOps.Snapshot.ApplyV1 | internal/chain/chain.go:636-685 | one version 1 transaction on the snapshot: verdict, balances and totals of the specified step |
| LedgerOps.Snapshot.ApplyV2 | internal/chain/chain.go:687-734 | one version 2 transaction: verdict, balances, nonces and totals of the specified step |
| LedgerOps.Snapshot.ApplyBlock | internal/chain/chain.go:736-744 | a whole block in place: verdict and state of the specified step |
| LedgerOps.GenesisSnapshot | internal/chain/chain.go:595-617 | the snapshot of the economic genesis |
| LedgerOps.ValidateIncremental | internal/chain/chain.go:800-848 | a fresh next snapshot exactly when the block passes; the parent snapshot is not modified |
| LedgerOps.ValidateNext | internal/chain/chain.go:200-242 | full validation of a next block: the verdict of the specification that Equivalence is about |
| LedgerOps.ValidateChain | internal/chain/chain.go:177-198 | accepts exactly the chains whose first block matches genesis and whose every next block passes, whatever the first index; from index 0 these are the valid chains |
| LedgerOps.PassingIsValid | internal/chain/chain.go:184-198 | the block by block loop and validity agree on every prefix that starts at index 0 |
| LedgerOps.CheckFullTransactionsV2 | internal/chain/v2.go:137-212 | replays the prefix and validates the block's transactions on it |
| LedgerOps.CheckStateTransition | internal/chain/chain.go:328-390 | replays the prefix and applies the block under version 1 |
| LedgerOps.ReplayV2 | internal/chain/v2.go:214-295 | the full version 2 replay with its seen set and limits |
| LedgerOps.ReplayV1 | internal/chain/chain.go:394-466 | the full version 1 replay |
| LedgerOps.ComputeMiningIssued | internal/chain/chain.go:468-488 | the mined total of a chain, none on overflow |
| LedgerOps.ComputeSupply | internal/chain/chain.go:314-326 | the coinbase total of a chain, wrapping at 64 bits |
| Rules.CheckTimestamp | internal/chain/chain.go:271-296 | integer seconds after the median of the last eleven and after the parent, and under version 1 and 2 at most 120 s later |
| Rules.ComputeMedianTimePast | internal/chain/chain.go:255-269 | the middle one of the sorted last eleven times |
| Rules.SortedSorts | internal/chain/chain.go:255-269 | the sorted times are ascending and a permutation |
| Rules.ComputeRequiredDifficulty | internal/chain/chain.go:298-312 | the parent's difficulty, retargeted over the last ten blocks at every tenth index |
| ChainHeaders.TimesIncrease | internal/chain/chain.go:271-296 | times on a valid chain grow by at least 1 s a block, and at most 120 s under version 1 and 2 |
| ChainHeaders.MedianAtMostParent | internal/chain/chain.go:255-269 | median time past is a definite earlier block's time and never exceeds the parent's, so "later than the parent" is the binding test |
| ChainHeaders.DifficultyRule | internal/consensus/difficulty.go:10-82 | along a valid chain difficulty stays in 1..32, changes only at multiples of ten and by one: up iff the window took at most 67 s, down iff at least 1080 s |
| ChainHeaders.FallNeedsSlowestEpoch | internal/chain/chain.go:298-312 | under version 1 and 2 difficulty can fall only if all nine gaps are exactly 120 s |
| Retarget.ComputeNextDifficulty | internal/consensus/difficulty.go:10-82 | the Go loops compute the specified retarget |
| Retarget.ComputeReferenceDifficulty | blockchain/consensus.py:192-259 | the Python loops over fractions compute the specified retarget |
| Retarget.GoMatchesPython | internal/consensus/difficulty.go:10-82 | the Go and the Python retarget agree on a window exactly when it cannot be measured or the limits are in order |
| Retarget.GoEqualsPython | blockchain/consensus.py:192-259 | cross-multiplied integers and exact fractions give the same difficulty whenever the limits are in order |
| Retarget.CrossedLimitsDiverge | blockchain/consensus.py:192-259 | with crossed limits Go answers the maximum and Python the minimum |
| Retarget.SlowerNeverHarder | internal/consensus/difficulty.go:10-82 | a measured result lies within the limits and never rises when the same window takes longer |
| Retarget.NextWithinOne | internal/consensus/difficulty.go:10-82 | with factor 4, a minimum of at least 0 and a base within the limits the result differs from the base by at most one |
| Retarget.RetargetLaw | internal/consensus/difficulty.go:10-82 | with factor 4 and a base within the limits both retargets go one up when four times the window's seconds are at most the expected time, one down when they are at least four times it, and stay otherwise |
| Retarget.ComputeChainWork | internal/consensus/work.go:10-16 | the loop computes the specified chain work, whose meaning ForkChoice gives |
| ForkChoice.WorkIsSum | internal/consensus/work.go:10-16 | chain work is the sum of two to the power of four times the difficulty, negative difficulties counting as zero |
| ForkChoice.OneAgainstSixteen | internal/consensus/work.go:10-16 | over one prefix a block of difficulty d + 1 outweighs up to fifteen of at most d, ties with sixteen of d and loses to seventeen |
| Merkle.ComputeMerkleRootV3 | internal/block/merkle_v3.go:14-44 | the version 3 loops compute the specified tree with its length commitment |
| Merkle.RootV3Binds | internal/block/merkle_v3.go:14-75 | two different identity lists with one version 3 root yield an explicit pair of distinct hash inputs with one digest |
| Merkle.DescendToCollision | internal/block/merkle_v3.go:52-57 | equal trees over different leaves of equal number yield such a pair, level by level |
| Merkle.ComputeMerkleRoot | internal/block/merkle.go:5-21 | the padded in-place levels compute the legacy root |
| Merkle.LegacyRootIgnoresRepeatedLast | internal/block/merkle.go:5-21 | an odd list and the same list with its last hash repeated are different and share their legacy root |
| LegacyBinding.LegacyRootBinds | internal/block/merkle.go:5-21 | two different lists of distinct 64-character hashes with one legacy root yield two inputs with one digest, or a 128-byte input whose hash is an element of a list |
| Twins.ResignedIsValid | internal/transaction/v2.go:24-64 | for version 2 and 3, exchanging a transfer's signature for another text that verifies gives a different valid block with the same header, hash and ledger |
| Twins.TwinBlockIsValid | internal/chain/chain.go:746-798 | a block of valid transactions that a header cannot tell from a valid next block is valid too and leads to the same ledger |
| Twins.TwinExtends | internal/chain/chain.go:800-848 | what extends a valid chain extends each valid twin of it, with the same ledger |
| Twins.StoredTwins | internal/chain/chain.go:545-566 | blocks that two valid nodes store under one hash are twins, or two distinct inputs of one hash function with one digest are at hand |
| Order.SortKeys | internal/statecommitment/state.go:52-67 | the keys of a map in ascending order, whatever the walk order |
| Order.AscendingInOrder | internal/statecommitment/state.go:52-67 | that listing is strictly ascending byte by byte |
| Order.LexMeans | internal/statecommitment/state.go:52-67 | a text is before another exactly when it is smaller at the first difference or a proper prefix |
| Checkpoint.ComputeRoot | internal/statecommitment/state.go:52-89 | the root over the sorted union of balance and nonce keys |
| Checkpoint.EncodeSnapshot | internal/statecommitment/state.go:91-129 | the bytes of the specified checkpoint |
| Checkpoint.DecodeSnapshot | internal/statecommitment/state.go:131-219 | decodes exactly what the specified decoder accepts, into a fresh snapshot |
| Checkpoint.CheckpointRoundTrip | internal/statecommitment/state.go:91-219 | decoding an encoded state gives the same state exactly when it has at most a million accounts and keys of at most 1 MiB |
| Checkpoint.CutRejected | internal/statecommitment/state.go:131-219 | every strict prefix of an encoded state is rejected |
| Checkpoint.ExtensionRejected | internal/statecommitment/state.go:131-219 | every strict extension of an encoded state is rejected |
| Checkpoint.CheckpointSize | internal/statecommitment/state.go:91-129 | with wallet addresses as keys a checkpoint takes 106 + 67 n bytes |
| StateBinding.StateRootBinds | internal/statecommitment/state.go:52-89 | two different states with one root yield an explicit pair of distinct hash inputs with one digest |
| StateBinding.CheckpointBinds | internal/statecommitment/state.go:131-219 | bytes that end in the root of a state decode to that state or to nothing, or such a pair is at hand |
| StateBinding.CheckpointLayout | internal/statecommitment/state.go:91-129 | where each field of a checkpoint of wallets stands, account by account in key order |
| Journal.Store.Recover | internal/storage/storage.go:67-141 | the reading loop: succeeds exactly when the file replays, rebuilds that image and truncates the incomplete tail |
| Journal.Store.Append | internal/storage/storage.go:156-173 | one more record at the end of the file, refused exactly when too large |
| Journal.Store.SaveBlock | internal/storage/storage.go:174-186 | file, block map and log grow by the block, or nothing changes |
| Journal.Store.SetTip | internal/storage/storage.go:187-200 | succeeds exactly for no hash or a stored block; file and tip follow, or nothing changes |
| Journal.Store.SaveStateCheckpoint | internal/storage/storage.go:240-257 | succeeds exactly for a 64-character hash and a payload that fits; file and map follow, or nothing changes |
| Journal.Open | internal/storage/storage.go:36-52 | opening what a crash left of a written file succeeds with exactly its whole records |
| Journal.ReplayAfterCut | internal/storage/storage.go:67-154 | cut at any byte: replay succeeds, keeps exactly the whole records and truncates to them |
| Journal.ReadableIffWellFormed | internal/storage/storage.go:67-141 | a complete file can be read exactly when each of its records can: an empty checkpoint payload or an empty block hash spoils it |
| LastWrite.BlockIsLast | internal/storage/storage.go:67-141 | replay gives a hash the payload of the last block record that decodes to it, and nothing without one |
| LastWrite.CheckpointIsLast | internal/storage/storage.go:67-141 | replay gives a hash the checkpoint of the last record that carries it, and nothing without one |
| LastWrite.TipIsLast | internal/storage/storage.go:67-141 | the replayed tip is that of the last tip record, none without one |
| LastWrite.FoldsIffReadable | internal/storage/storage.go:67-141 | a list of records replays exactly when each is a decodable block with a hash, a tip, or a checkpoint with at least one byte behind its hash |
| LastWrite.RecordLayout | internal/storage/storage.go:156-173 | the bytes of a record: name, version, kind, length and checksum big-endian, payload |
| JournalRuns.RunSurvivesCut | internal/storage/storage.go:67-200 | after any operations and any cut, replay gives the journal of the first j operations, whose tip is empty or a recovered block; so again after further operations |
| JournalRuns.Perform | internal/storage/storage.go:174-257 | the store's methods perform the operations of such a run |
| JournalRuns.FailureLast | internal/storage/storage.go:156-173 | a write that failed is dropped on replay if nothing was appended after it |
| JournalRuns.FailureSpoils | internal/storage/storage.go:156-173 | after a failed write torn at any byte no later record is recovered: up to byte 12 the journal is unreadable, beyond it the length then read decides between unreadable and dropped, unless the checksum then read is that of the bytes it covers |
| JournalRuns.BehindMagic | internal/storage/storage.go:67-141 | what replay makes of any bytes behind an intact magic: unreadable, dropped, or a checksum that fits |
| JournalRuns.ClaimIsOwn | internal/storage/storage.go:156-173 | torn at byte 15 or later the length read back is the torn record's own, and from byte 19 on its checksum too |
| JournalRuns.TornLate | internal/storage/storage.go:67-141 | exactly what replay makes of a payload torn at any byte and of the bytes after it |
| Wallets.LedgerHoldsWallets | internal/chain/chain.go:636-742 | only wallet addresses ever hold an account |
| Wallets.WalletStateCapacity | internal/storage/storage.go:240-257 | the checkpoint of such a state fits a record exactly up to 62,599 accounts |
| Wallets.CheckpointCapacity | internal/storage/storage.go:240-257 | a valid chain's checkpoint fits a record exactly up to 62,599 accounts, and then decodes to the chain's state |
| Tree.ChainPrefix | internal/chain/chain.go:545-566 | every chain walked down from a stored block is stored, indexed from 0, and each prefix of it is its own last block's chain |
| Tree.ChainMonotone | internal/chain/chain.go:545-566 | storing more blocks changes no stored chain |
| Tree.AcceptKeepsValid | internal/chain/chain.go:929-1075 | every outcome keeps the block tree valid, loses no block, and moves the active chain only to strictly more work, only on "best" |
| Tree.AcceptKeepsHeaviest | internal/chain/chain.go:929-1075 | without a storage failure no stored chain outweighs the active one |
| Tree.RunSafety | internal/chain/chain.go:929-1075 | over any run of arrivals the node stays valid, keeps its blocks and never loses work |
| Tree.RunKeepsHeaviest | internal/chain/chain.go:929-1075 | over any run without storage failure the active chain stays the heaviest stored one |
| ForkChoice.AcceptLaw | internal/chain/chain.go:929-1075 | the whole decision: the first refusal that applies, storing a lawful block that fits, and adopting its chain exactly when its sum of work is more and the checkpoint owed at every sixteenth height fits |
| ForkChoice.HarderArrives | internal/chain/chain.go:970-1075 | a block of difficulty d + 1 displaces up to fifteen easier ones and stays a fork against sixteen |
| ForkChoice.EasierGrows | internal/chain/chain.go:970-1075 | against a block of difficulty d + 1 a branch of difficulty d becomes best with its seventeenth block |
| ChainNode.Chain.Accept | internal/chain/chain.go:929-1075 | with snapshots, checkpoints and journal, `Accept` decides and publishes exactly what the abstract node decides by full validation, keeps every invariant, appends to the journal exactly the stored block, the checkpoint owed and the new tip, and on "best" leaves the losing branch's transactions as candidates |
| ChainNode.Chain.Reads | internal/chain/chain.go:1128-1204 | balances, nonces, supply, mined total and confirmed identities are those of replaying the active chain |
| ChainNode.Chain.ReadsRoot | internal/chain/chain.go:1128-1204 | the published root, tip and genesis supply are those of the active chain |
| ChainMemory.ConfirmedExactly | internal/chain/chain.go:1128-1204 | an identity is confirmed exactly when a block above genesis holds a transaction with it |
| ChainNode.Chain.Durability | internal/chain/chain.go:105-172 | at every moment the journal alone determines the node |
| ChainNode.Chain.BuildChain | internal/chain/chain.go:545-566 | the walk to genesis terminates and returns the stored chain |
| ChainNode.Chain.StateForParent | internal/chain/chain.go:893-926 | cached or rebuilt from the nearest checkpoint, the state is that of replaying the whole prefix, and the cache stays correct |
| ChainNode.Chain.ValidateOnSnapshot | internal/chain/chain.go:929-969 | validation on the cached snapshot gives the verdict of full validation of the chain |
| ChainNode.Chain.SwitchTo | internal/chain/chain.go:976-1071 | checkpoint, tip, candidates, cache and published fields move together, or nothing published changes; it fails exactly when the checkpoint owed does not fit |
| ChainNode.Chain.CollectReorg | internal/chain/chain.go:1012-1045 | the candidates are the version 2 transfers of the losing branch |
| ChainMemory.ReorgLosesNothing | internal/chain/chain.go:1012-1045 | the shared part's transfers followed by the candidates are all transfers of the losing chain, in order |
| Candidates.CandidateExactly | internal/chain/chain.go:1012-1045 | a transaction is handed back exactly when it is a version 2 transfer in a block of the losing chain above the part it shares with the winning one |
| Candidates.CandidatesAreTransfersAbove | internal/chain/chain.go:1012-1045 | each such transfer stands behind as many candidates as transfers come before it, and there are no more candidates than transfers |
| ChainNode.Chain.InitializeState | internal/chain/chain.go:850-891 | the snapshots from the nearest checkpoint to the tip, writing exactly the checkpoints owed above it and failing exactly when a checkpoint still owed does not fit |
| ChainMemory.FirstUncoveredExactly | internal/chain/chain.go:850-891 | the replay starts directly above the newest active block with a checkpoint |
| ChainNode.Chain.Load | internal/chain/chain.go:105-172 | opening gives the node its journal stands for, and fails exactly when an owed record does not fit |
| ChainMemory.SmallLedgersOpen | internal/chain/chain.go:105-172 | every journal of a chain with at most 62,599 accounts can be opened |
| Reopening.OpensIffSmall | internal/chain/chain.go:850-891 | a journal can be opened exactly when the states at all heights divisible by 16 on its active chain have at most 62,599 accounts |
| Reopening.UnopenableReached | internal/chain/chain.go:970-1075 | every block whose checkpoint is refused as too large is stored all the same, and any next block that passes becomes best and leaves a journal that cannot be opened |
| Persist.ValidatedIsNormal | internal/codec/codec.go:16-79 | every text of a validated block is plain, so the block is in the form the codec keeps exactly when the fields of the other transaction version, which validation never reads, are empty |
| Crash.CutRecovers | internal/chain/chain.go:105-172 | cut at any byte the journal stands for a valid node whose active chain is that of the last tip whose record survived, with no block the whole journal lacks |
| Crash.TipsStored | internal/storage/storage.go:187-200 | every tip ever recorded is a block of the journal |
| Life.LifeSafety | internal/chain/chain.go:970-1011 | over any life of arrivals, crashes at any byte and restarts the node is valid, and after a crash its active chain is one published earlier |
| Life.Deliver | internal/chain/chain.go:929-1075 | `Accept` on the chain object is a step of such a life |
| Life.Restart | internal/chain/chain.go:105-172 | opening store and chain on a cut file is a step of such a life, or fails under the exact opening condition |
| Mempool.V2Pool.Add | internal/mempool/v2.go:26-70 | admits exactly a valid new transaction with the expected nonce whose amount the unreserved balance covers, below capacity; both indexes stay inverse |
| Mempool.V2Pool.ExpectedNonce | internal/mempool/v2.go:113-131 | the first free nonce from the confirmed one on, none if all are taken |
| Mempool.V2Pool.RemoveIDs | internal/mempool/v2.go:95-112 | removes exactly the named transactions from both indexes |
| Mempool.V2Pool.List | internal/mempool/v2.go:71-94 | distinct pool transactions ordered by sender, nonce and identity, all of them or the first `limit` |
| Mempool.SortLists | internal/mempool/v2.go:71-94 | the sort orders every listing |
| Mempool.ListedMeans | internal/mempool/v2.go:71-94 | in a listing senders ascend, nonces within a sender, identities within a nonce |
| PoolRuns.Perform | internal/mempool/v2.go:26-112 | the pool's methods perform the operations of a run |
| PoolRuns.AdmissionLaw | internal/mempool/v2.go:26-70 | a transfer is admitted exactly when it is lawful, has the expected nonce below the maximum, finds room and no namesake, and the balance covers it with the sum of what its sender has listed |
| PoolRuns.PendingIsAuthorised | internal/mempool/v2.go:26-70 | after any run of operations every pending transfer was signed for the address it takes from, and the pool is within its capacity |
| Selection.SelectV2 | internal/node/node.go:559-590 | the two selection loops compute the specified selection |
| Selection.SelectionDrawn | internal/node/node.go:559-590 | what is selected from a listing is in the pool, each at most once |
| Selection.SelectionSequenced | internal/node/node.go:559-590 | each selected transaction carries its sender's next nonce when its turn comes |
| Completeness.SelectedExactly | internal/node/node.go:559-590 | from a fitting pool a listed transaction is selected exactly when the listing holds every nonce of its sender from the confirmed one up to its own |
| Completeness.EverythingSelected | internal/node/node.go:559-590 | from a listing of the whole pool everything pending is selected |
| Completeness.SelectionInOrder | internal/node/node.go:559-590 | a selection ascends by sender and by nonce within a sender |
| Drain.RunDrains | internal/node/node.go:559-590 | a selection from a fitting pool executes in full, and the pool without it fits the new balances and nonces |
| Template.MinedFollows | internal/node/node.go:502-557 | the block mined from a selection is a valid next block |
| LocalNode.SubmitKeeps | internal/node/node.go:377-400 | an admitted submission keeps nonces contiguous and spending covered, or two inputs with one hash are at hand |
| LocalNode.MineKeeps | internal/node/api.go:205-250 | a mined block that can be stored is accepted as best and extends the active chain, and the pool fits again, or two inputs with one hash are at hand |
| Completeness.MiningEmptiesPool | internal/node/api.go:205-250 | after a block was mined from a listing of the whole pool the pool is empty, or two inputs with one hash are at hand |
| LocalNode.CleanIsBest | internal/chain/chain.go:929-1075 | the exact outcome of accepting an own block, storage failures included |
| LocalNode.LocalRun | internal/node/api.go:205-250 | over any run of submissions and own blocks: pending nonces are contiguous from the confirmed one, pending spend is covered and every own block is best, or two inputs with one hash are at hand |
| NodeOps.SubmitPending | internal/node/node.go:377-400 | the tests of a submission admit exactly what the run admits |
| NodeOps.Search | internal/node/node.go:540-557 | the first nonce whose block meets the difficulty, or no nonce below the maximum does |
| NodeOps.LedgerNode.SubmitTransaction | internal/node/node.go:377-400 | pool and ledger move as the run's submission does |
| NodeOps.LedgerNode.MineNext | internal/node/node.go:470-557 | a mined block on the active chain, or the reason there is none |
| NodeOps.LedgerNode.Mine | internal/node/api.go:205-250 | lists up to 500 pending transactions in order; pool and ledger move as the run's mining act does, or there is a reason why nothing was mined |
| NodeOps.NextDifficultyOf | internal/node/node.go:591-614 | the miner's difficulty is the one validation requires |
| SyncOps.ComputeLocator | internal/p2pnode/network.go:1147-1163 | the last 32 active hashes, newest first |
| ForkPoint.LocatorAt | internal/p2pnode/network.go:1147-1163 | a locator holds the last hashes of a chain, as many as asked for, newest first |
| ForkPoint.MatchIsForkPoint | internal/chain/chain.go:1235-1264 | a round sets in above the last block both active chains share if fewer than 32 of the client's lie above it, otherwise above genesis, and offers the next 2048 blocks, or two distinct hash inputs with one digest are at hand |
| SyncOps.HeadersFromLocator | internal/chain/chain.go:1235-1264 | up to 2048 active blocks after the first locator hash that is active, or after genesis |
| SyncOps.BlocksByHashes | internal/chain/chain.go:1265-1275 | the stored blocks of the given hashes, in order |
| SyncOps.OfferedKnown | internal/p2pnode/network.go:938-975 | an honest peer finds every block it offers under its header hash |
| SyncOps.SyncRound | internal/p2pnode/network.go:1086-1146 | the round in batches of 32 leaves the client where feeding it everything offered leads, stopping at the first error |
| Sync.FeedRest | internal/p2pnode/network.go:1086-1146 | from the matched point on the peer's active chain ends up stored block by block |
| Sync.RoundCatchesUp | internal/p2pnode/network.go:1086-1146 | after a round with an honest unchanging peer at most 2048 blocks past the matched point the client's active work is at least the peer's and nothing it stores is heavier, or two distinct hash inputs with one digest are at hand |
| Sync.RoundsAdvance | internal/p2pnode/network.go:1086-1146 | r rounds, each with a locator made anew, take a client from the first k blocks of the peer's chain to the first min(length, k + 2048 r) |
| Sync.SyncFollows | internal/p2pnode/network.go:1086-1146 | for any valid client on the first k blocks of a valid peer's chain: r rounds bring it to the first min(length, k + 2048 r), and nothing it stores is heavier, or two distinct hash inputs with one digest are at hand |
| Utf8.RunesRoundTrip | internal/canonicaljson/canonical.go:167-200 | decoding encoded scalar values gives them back |
| CanonicalJson.EncodeString | internal/canonicaljson/canonical.go:167-200 | appends the escaped string to the shared buffer |
| CanonicalJson.EncodeTo | internal/canonicaljson/canonical.go:31-106 | appends the canonical text of any value, keys sorted |
| CanonicalJson.Marshal | internal/canonicaljson/canonical.go:18-30 | returns the canonical text |
| CanonicalJson.PairRead | internal/canonicaljson/canonical.go:202-209 | a surrogate pair is read back as its scalar value |
| CanonicalJson.StringRead | internal/canonicaljson/canonical.go:167-209 | an escaped string is read back with each ill-formed byte as the replacement rune, hence exactly if it is UTF-8 (section 7 of RFC 8259) |
| CanonicalJson.ParseEncoded | internal/canonicaljson/canonical.go:31-106 | a parser recovers every value from its canonical text, whatever follows, with ill-formed text replaced |
| CanonicalJson.EncodeInjective | internal/canonicaljson/canonical.go:31-106 | different values have different canonical texts |
| JsonText.ObjectInKeyOrder | internal/canonicaljson/canonical.go:85-101 | an object is its members in ascending key order, name, colon and value, with commas between |
| JsonText.ArrayInOrder | internal/canonicaljson/canonical.go:74-84 | an array is its items in order with commas between |
| JsonText.PlainIsQuoted | internal/canonicaljson/canonical.go:167-200 | printable text without quote and backslash stands between quotes as it is |
| JsonText.EscapeLength | internal/canonicaljson/canonical.go:167-209 | which characters take two, six or twelve characters, all printable |
| JsonText.CanonicalIsPrintable | internal/canonicaljson/canonical.go:31-106 | canonical text is printable ASCII throughout |
| BlockJson.BlockBytes | internal/codec/codec.go:81-88 | the loop over the transactions and the canonical text of the block |
| BlockJson.DecodeBlock | internal/codec/codec.go:90-114 | the loop over the raw transactions: block or refusal |
| BlockJson.TxRoundTrip | internal/codec/codec.go:16-79 | a transaction is read back as it was written exactly when all its text is UTF-8, its version is 0 or 2, parties and identity are present and the other version's fields are empty |
| BlockJson.BlockRoundTrip | internal/codec/codec.go:81-114 | a block's journal text is read back as the same block exactly when its header texts are UTF-8 and so is each transaction |
| BlockJson.JsonIsLawful | internal/codec/codec.go:81-114 | the block codec meets what every journal theorem asks of a codec |
| BlockJson.ValidatedIsReadBack | internal/codec/codec.go:81-114 | a validated block survives writing and reading exactly when the fields validation never reads are empty |
| Frames.FrameRoundTrip | internal/p2p/wire.go:64-134 | an encoded frame decodes to itself |
| Frames.AcceptedReencodes | internal/p2p/wire.go:64-134 | accepted bytes encode back to themselves |
| Frames.StreamRead | internal/p2p/wire.go:136-178 | reading concatenated frames gives exactly the list |
| Frames.PartialFrame | internal/p2p/wire.go:101-178 | no strict prefix of a frame is read or decoded |
| Fields.Writer.All | internal/p2p/wire.go:187-256 | the writer holds the specified bytes: after the first refused field nothing is written |
| Fields.Reader.All | internal/p2p/wire.go:258-320 | the reader gives the specified fields and rest, or fails |
| Fields.CleanRead | internal/p2p/wire.go:187-320 | fields that neither side objects to are read back in order |
| Fields.UncleanRefused | internal/p2p/wire.go:187-320 | one field that either side objects to makes the decoder refuse the whole message |
| Messages.WriteMessage | internal/p2p/messages.go:85-506 | the encoders: refused counts give nothing, refused fields a truncated frame |
| Messages.ReadMessage | internal/p2p/messages.go:115-534 | the decoders: message or refusal |
| Messages.MessageRoundTrip | internal/p2p/messages.go:63-534 | every message with any list length within the limits decodes to itself exactly when neither side objects to a field; otherwise its frame is never accepted |
| Wire.AcceptedIffLawful | internal/p2p/messages.go:63-534 | a message that is sent is accepted, as itself, exactly when its lengths, ranges and texts are lawful |
| Wire.FrameBytes | internal/p2p/wire.go:64-99 | the bytes of every lawful message, header and payload field by field, and when it can be sent |
| ReferenceRules.ComputeState | blockchain/validators.py:63-100 | the loops compute the specified monetary state |
| ReferenceRules.ValidateNext | blockchain/validators.py:139-194 | accepts exactly the valid next blocks |
| ReferenceRules.ValidateChain | blockchain/validators.py:197-226 | accepts exactly the valid chains |
| ReferenceRules.ValidSnoc | blockchain/validators.py:197-226 | a chain is valid exactly when its prefix is and its last block is a valid next one |
| ReferenceLaw.NextIsLawful | blockchain/validators.py:139-194 | over every valid chain from a genesis that moves nothing, validation accepts exactly the lawful blocks: header, zeros, Merkle root, one coinbase of the reward or what is left, valid transactions, and each transfer covered by sums over the chain with the coinbase credited first |
| ReferenceLaw.DifficultyLaw | blockchain/validators.py:34-49 | with factor 4 the required difficulty is the configured one for a window of fewer than two blocks, otherwise the last block's moved by at most one by the seconds of the last interval |
| ReferenceLaw.ChainIsLawful | blockchain/validators.py:197-226 | such a chain is valid exactly when genesis hashes right and every later block is lawful |
| ReferenceRules.StateIsNetEffect | blockchain/validators.py:63-100 | the recomputed balance of an address is the net effect of the chain's transactions on it |
| ReferenceRules.SupplyIsMinted | blockchain/validators.py:63-100 | the recomputed supply is the sum of the coinbases and within the maximum |
| ReferenceRules.CacheIsRecomputation | blockchain/storage.py:283-313 | the cached or summed balance of every address but the coinbase sender is the recomputed one |
| ReferenceRules.RepeatedCoinbaseIsValid | blockchain/network/propagation.py:233-248 | validation accepts a received block that repeats the only transaction of the block before it |
| ReferenceRules.RepeatedTransferIsValid | blockchain/blockchain.py:140-176 | validation accepts a new coinbase followed by any confirmed transfer whose amount its sender still holds |
| ReferenceRules.SplitIsReachable | blockchain/blockchain.py:228-241 | a concrete valid stored chain and a valid next block with a resubmitted transfer that the store refuses |
| BalanceCache.RowsFit | blockchain/storage.py:185-219 | transaction rows go in exactly when their hashes are new and distinct |
| BalanceCache.BlockFits | blockchain/storage.py:185-219 | a next block goes in exactly when it repeats neither block hash nor transaction hash |
| BalanceCache.StoredIffRecordable | blockchain/storage.py:185-219 | a chain can be stored exactly when no block hash and no transaction hash occurs twice |
| BalanceCache.ReorganizeKeeps | blockchain/storage.py:348-420 | undoing from the tip and redoing the new blocks leaves tables and cache as if the new chain had been stored from genesis |
| BalanceCache.ReorganizeSucceeds | blockchain/storage.py:348-420 | the rewritten tables are those of storing the whole new chain |
| BalanceCache.ReadBalance | blockchain/storage.py:283-313 | a missing cache row and its history sum stand for the same balance |
| BalanceOps.BalanceStore.SaveBlock | blockchain/storage.py:185-219 | all rows of a block go in, or none |
| BalanceOps.BalanceStore.UpdateBalancesForBlock | blockchain/storage.py:341-346 | every transaction of the block is applied to the cache in order |
| BalanceOps.BalanceStore.GetBalance | blockchain/storage.py:283-296 | the cache row or the history sum |
| BalanceOps.BalanceStore.ComputeFromHistory | blockchain/storage.py:298-313 | the sum over the transaction table |
| BalanceOps.BalanceStore.ReorganizeFrom | blockchain/storage.py:348-420 | undo, delete, insert and redo, or nothing at all |
| BalanceOps.BalanceStore.LoadChain | blockchain/storage.py:221-245 | the stored chain in order |
| BalanceOps.NextStored | blockchain/blockchain.py:228-241 | a valid next block is stored exactly when it repeats no hash, and then everything agrees again |
| BalanceOps.ForkStored | blockchain/blockchain.py:327-340 | a valid candidate of the same genesis is stored exactly when it repeats no hash, and then everything agrees again |
| BalanceOps.ReferenceChain.constructor | blockchain/blockchain.py:41-92 | the stored chain or the genesis block, with tables, cache and memory in agreement |
| BalanceOps.ReferenceChain.Append | blockchain/blockchain.py:228-241 | rejected exactly when invalid, split from the store exactly when a hash repeats, appended otherwise; memory, tables and cache agree exactly when it does not split |
| BalanceOps.ReferenceChain.FindForkIndex | blockchain/blockchain.py:351-364 | how far the two chains agree hash by hash |
| BalanceOps.ReferenceChain.ReplaceChain | blockchain/blockchain.py:280-349 | adopts exactly a valid heavier candidate of the same genesis that repeats no hash, and keeps tables, cache and memory in agreement |
| BalanceOps.ReferenceChain.PersistedIsMemory | blockchain/blockchain.py:280-349 | after any run of appends that do not split and replacements the persisted chain is the one in memory |
| BalanceOps.ReferenceChain.GetBalance | blockchain/blockchain.py:178-180 | after any such run the reported balance is that recomputed from genesis |
| BalanceOps.ReferenceChain.TotalSupply | blockchain/blockchain.py:187-194 | after any such run the reported supply is that recomputed from genesis |

## Left out

- ChainNode.Chain.Accept: blocks are handed in as decoded or mined, with the other version's fields empty; the text of an error is not modelled, only the verdict; of I/O errors only records that are too large.
- Journal.Store.Append: `Sync` failing after a complete write, and memory mapped or shared files, are not modelled.
- LedgerOps.Snapshot.Clone: snapshots that are cached are immutable values; aliasing of cached snapshots is not modelled beyond showing that every use works on a fresh copy.
- Sync.RoundCatchesUp: an honest, unchanging peer at most 2048 blocks past the matched point, whose blocks the store takes and the client's clock allows; the byte size of block batches and the 4096-byte bound on a header are not modelled, and locator hashes are texts instead of raw bytes.
- Sync.SyncFollows: the client starts on the peer's chain; the limit of 1024 rounds in one call is not modelled.
- LocalNode.LocalRun: submission and local mining only; after foreign blocks stale nonces may stay in the pool. Version 3 mining with its clock safety is not modelled.
- Messages.WriteMessage: where an encoder notices a refused value before the fields around it (a peer entry's port, a reject), the program stops a few fields earlier; both frames are refused.
- CanonicalJson.Marshal: of floats only whole numbers, written in full where the program switches to an exponent from 10^16 on, and no negative zero; integers are unbounded, and the parser takes no key that is not UTF-8.
- BlockJson.DecodeBlock: reads canonical text only, without the blanks, repeated members and case-blind member names that `json.Unmarshal` also takes; index and difficulty are unbounded.
- BalanceOps.ReferenceChain.ReplaceChain: equal block hashes between the two chains are taken to be equal blocks; SQL transactions are atomic updates of maps.
- BalanceOps.ReferenceChain.GetBalance: the coinbase sender is excluded, because the history sum counts its issues and recomputation does not.
- ReferenceLaw.NextIsLawful: a genesis block that moves nothing, as the program's own; for adjustment factors other than four the difficulty is only bounded (`Retarget.SlowerNeverHarder`).
- ReferenceRules.ValidateNext: `validate_transaction` is an arbitrary predicate and timestamps are integers.
- Time stamps are integers: validation forces whole seconds. Header hash, transaction hashes, signatures and CRC-32 are arbitrary functions.
- Twins.ResignedIsValid: that ECDSA verification reads both cases of hexadecimal alike is its premise, not derived.
- `sort.Slice` and `sort.Strings` are modelled by insertion and selection sort, which give the same listing.
- Resubmitting reorganisation candidates to the pool, the version 1 pool, the handshake, peer reputation, rate limits, address policy, wallets, HTTP, CLI, configuration, logging and the genesis tool: plumbing or easy members.
- Locks and goroutines: each method holds one lock throughout and is one atomic step.
