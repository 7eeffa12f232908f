# Cereblix consensus core: a Dafny model and its proofs

Cereblix is a proof-of-work currency: a Go node with a ledger engine, a bbolt block store, a
random-program hash called NeuroMorph with a C miner beside the Go verifier, and a stratum bridge.
This project models the parts of it that must agree with each other and proves that they do.

`dafny verify dfyconfig.toml` checks everything. Citations are paths of the repository and lines.

## What is modelled

* **Ledger and validity.** `Types`, `Ledger`, `MedianTime`, `Activation`, `Retarget` and
  `Validation` state the data, the folds over a chain and block validity without any cache. Each
  loop of the source is a method proved equal to a function. `uint64` arithmetic that could wrap is
  written with `Add64` and `Sub64`; block hashes and transaction ids are 256-bit numbers.
* **Laws of every valid chain.** `Conservation` (no coin appears or vanishes, nothing wraps),
  `Balances` (what the lifetime totals say about a balance), `Maturity` (immature rewards are
  always covered), `Identity` (ids and hashes are unique), `Validation.MedianNeverFalls`,
  `Activation.ActivationSticky`, and the retarget bounds and fixpoints. `Response` says how both
  retarget rules answer to fast and slow blocks, `Readiness` which supermajorities activate the
  forks, `Epochs` what an epoch seed commits to, and `Issuance` what every height issues.
* **The rules, spelled out.** `Acceptance.AcceptedExactly`, `Verdicts.AdoptedExactly`,
  `Mempool.AdmittedExactly` and `Mempool.SubmittedExactly` restate acceptance of a block, adoption
  of a chain and admission to the pool as conditions on sums, counts and single blocks, and prove
  them equivalent to the rules the code follows.
* **The node.** `Mempool`, `Template` and `Memo` hold the pool with its per-sender index, template
  building, and the proof-of-work and signature memos. `Engine.Chain` is the class with all the
  mutable fields. Its invariant `Valid` says that state, totals, work, supply and index equal the
  folds over the chain, that every memo entry is true, and that the pool is consistent and not
  stale. Every method keeps it, and says exactly when it accepts. `Protocol.Judge` is the verdict
  on a candidate stated without caches, and `Protocol.Step` the transitions that the methods make.
* **Runs.** `Runs` proves finality and progress over every sequence of steps. `Coherence` says
  exactly which steps keep the three activation caches coherent and what that means for deep
  reorgs, and `Witness` builds the real chains on which they go wrong. `Sync` covers the tie-break
  filter, the ancestor search, chunked adoption and the settled state of two nodes.
* **The store.** `Store` defines the four buckets written for a chain and proves them exact row by
  row. `BlockStore` performs reorgs, rebuilds and the row backfill as sequences of transactions;
  `commits` counts the transactions that still succeed, so what a method ensures when it returns
  false holds after a crash or a disk failure at any point. `Recovery` loads a store again, and
  `Commit` interleaves any number of threads that follow the diskMu / mu protocol with failing
  commits, crashes and restarts. `Finality` follows a checkpoint through them.
* **History.** `Encoding` has the big-endian keys, their byte order and the history rows.
  `History` and `Cursor` prove the in-memory walk and the database cursor scan equal to one page of
  one plain scan, and `Wallet` says what that scan means for a wallet.
* **Proof of work.** `Words` and `Vm` define the machine and prove the Go interpreter against it,
  with the step bound. `CWords` compares the C word primitives with Go's, `VmFast` proves the C
  interpreter (computed gotos become labels of a state machine), the vector fold and the single hash;
  `VmBatch` the K-lane batch whose dataset walks are interleaved. `Bits` and `Instructions` say what
  the word operations and the instructions mean, bit by bit and by opcode number, and `Mixing` what
  they do to memory: nothing that was written is lost. `Params` covers the opcode table and program
  generation.
* **Stratum.** Share targets and their bounds.

## Assumptions

* Hash, transaction id and transaction root are functions that are injective where a theorem says
  `Ideal`. Signature checks, the NeuroMorph proof of work as seen by the ledger, AES, IEEE-754
  operations and the pre-fork float fee curve are arbitrary functions, so results hold for all of
  them. A public key is identified with the address derived from it.
* A bbolt transaction is atomic. Block serialisation is faithful.
* Clock readings are parameters, and constant within one call.
* A chain is shorter than 2^64 / 200 blocks where a theorem says `NoncesFit`; longer ones could use
  up a uint64 nonce and repeat an id. The ids in it are below 2^256 where a theorem says `IdsFit`.

## Where the code and its comments differ

* The comments on the activation caches (core/chain.go:653-657 and 713-716) call a cached height
  immutable. There are two ways in which it is not. A cache is also written while a candidate is
  replayed that is refused afterwards (lines 1290-1293 and 1333-1336), and a fork below a
  remembered height can replace the signals it was read from; deep recovery itself allows the
  latter. `Coherence.RunCoherent` says exactly which steps do it,
  `Witness.AbandonedCandidateMisleads` and `Witness.StaleRecoveryRun` run them on valid chains.
* The comment on deep recovery (core/chain.go:1201-1206) calls a reorg beyond the cap possible only
  on an activated chain. After such a stale height it also happens on one that is not
  (`Witness.StaleRecoveryRun`); `Coherence.DeepReorgNeedsRecovery` is what holds.
* The reorg penalty is meant to demand more work of deeper reorgs. The product of depth and
  penalty is a uint64 cast to int64 (line 1261), so in the upper half of the range it demands less
  than the present work (`Protocol.ThresholdFair`); the progress theorems assume `Runs.FairRun`.
* Checkpoints are saved at once, blocks only when their commit runs. A checkpoint of a new branch
  that is applied while the reorg to that branch is still pending can therefore outlive the branch:
  after a crash the node is back on the old chain and has a checkpoint on record that contradicts
  it (`Finality.PendingContradicts`, `Finality.CrashAfterCheckpoint`). Otherwise it is final across
  restarts (`Finality.CheckpointSurvives`).
* Amount plus fee is added as uint64 in the mempool and overflow-checked in block validation only:
  a pair that wraps is admitted and kept though no block can hold it (`Mempool.WrappedKept`).
  `Mempool.FrontierFundable` gives the condition. A queued transaction beyond a gap is checked
  alone; nothing here says that a sender's whole queue is funded, `Template.SelectTxs` re-checks it.
* addrHistory matches by prefix, so a query shorter than an address is answered with rows of the
  addresses that begin with it, where the in-memory walk answers nothing
  (`Cursor.ShortQueryStrays`).
* A replacement must pay ten percent more (core/chain.go:1373-1375). The sum is a uint64, so above
  10/11 of its range one unit more is enough (`Mempool.BumpPays`).
* Between heights 500 and 598 the maturity window may reach coinbases mined before the rule, so
  balances cover only the coinbases from height 500 on (`Maturity.HoldsRewards`).

## Model

| member | source | states |
|---|---|---|
| `Ledger.ApplyBlockToState` | core/chain.go:523-535 | the in-place loop over a block equals the fold `ApplyTxs`, with an absent account read as (0, 0) and every uint64 operation wrapping explicitly |
| `Ledger.ApplyBlockToTotals` | core/chain.go:565-593 | the lifetime totals loop equals the fold `CountTxs`; a self-send counts as sent once and is not received |
| `Ledger.IndexBlock` | core/chain.go:602-617 | the per-address index grows by exactly the fold `IndexTxs`: recipient of a coinbase, sender and recipient otherwise, once when they coincide, nobody for an undecodable key |
| `Ledger.ReindexAddrTx` | core/chain.go:623-628 | the rebuilt index is the fold over the whole chain |
| `Ledger.RecomputeSupply` | core/chain.go:1925-1931 | the uint64 sum over the state in any order is the true total of balances whenever that total fits in 64 bits |
| `Ledger.TotalUpdate` | core/chain.go:1925-1931 | writing one account changes the total of balances by exactly the difference, so the total does not depend on iteration order |
| `Ledger.TotalSame` | core/chain.go:27-34 | inserting zero accounts, as State.get does, leaves the total unchanged |
| `Ledger.ApplyTxsSame` | core/chain.go:523-535 | states that differ only in zero accounts stay so under every list of transactions |
| `Balances.TotalsAreSums` | core/chain.go:565-593 | the stored received, mined and sent totals are the true sums modulo 2^64, on every sequence of blocks |
| `Balances.BalanceFromFlow` | core/chain.go:523-593 | on every valid chain an address's balance is what it received minus what it sent plus what it sent to itself, without any wrap |
| `Balances.BalanceFromTotals` | core/chain.go:537-593 | the stored totals give that balance if and only if received and sent have wrapped equally often |
| `MedianTime.MedianTimeOf` | core/chain.go:822-833 | the slice, sort and index computation returns `Median` |
| `MedianTime.MedianRank` | core/chain.go:822-833 | the median has middle rank: at most half of the window is below it and more than half is at or below it |
| `MedianTime.MedianStep` | core/chain.go:909-911 | a block later than the median cannot lower it, while the window grows and once it slides |
| `Validation.MedianNeverFalls` | core/chain.go:909-911 | median time past never decreases along a valid chain |
| `Activation.SignalCount` | core/upgrade.go:102-113 | the counting loop returns the number of signalling blocks in the window, and 0 outside its range |
| `Activation.ActivationHeight` | core/upgrade.go:132-147 | the scan returns the least qualifying height, or 0 when there is none |
| `Activation.ActivationSticky` | core/upgrade.go:120-147 | every chain sharing the first a blocks of a chain activated at a is activated at a, and every shorter prefix is inactive |
| `Activation.ActivationCached` | core/chain.go:659-689 | a scan result is remembered only once it is buried the reorg cap deep; the returned height is the remembered or scanned one |
| `Activation.CachedDecision` | core/chain.go:659-689 | a coherent cached height gives the rescan decision on every prefix of every chain sharing that many blocks |
| `Activation.CacheFillNeutral` | core/chain.go:659-689 | filling the cache from a prefix changes no later decision on the same chain |
| `Activation.FilledTwice` | core/chain.go:659-679 | of two look-ups on a growing chain only the second decides what is remembered |
| `Activation.CacheSurvivesReorg` | core/chain.go:659-668 | a height cached at length n survives one reorg that keeps all but the last MaxReorgDepth of those blocks |
| `Coherence.LwmaExact` | core/chain.go:659-684 | from a coherent LWMA cache, every step leaves it coherent if and only if it neither adopts a fork below the remembered height whose chain activates elsewhere, nor fills the cache from a candidate that is refused afterwards and activates elsewhere |
| `Coherence.FeeExact` | core/chain.go:670-689 | the same equivalence for the fee-market cache, with the look-up of a mempool submission |
| `Coherence.RecoveryExact` | core/chain.go:717-734 | the deep-recovery cache, filled from the own chain before the reorg it allows, stays coherent if and only if that adoption does not outdate it |
| `Coherence.RunCoherent` | core/chain.go:653-689 | along every run all three caches are coherent after each step if and only if every step so far was harmless |
| `Coherence.ShortForksHarmless` | core/chain.go:653-668 | a fork not below the remembered height and no longer than the cap plus one never harms the LWMA and fee caches |
| `Coherence.LoadCoherent` | core/chain.go:423-442 | a node that has just been loaded has three coherent caches, whatever cap the operator sets after the load-time look-ups |
| `Coherence.DeepReorgStep` | core/chain.go:1199-1213 | a reorg deeper than the cap carries the stored anchor into the chain; a rescan finds deep recovery active if and only if no height had been remembered or the chain still has an activation |
| `Coherence.DeepReorgNeedsRecovery` | core/chain.go:1199-1213 | in every run whose deep-recovery cache was never outdated, a reorg deeper than the cap happens only on a chain that has activated deep recovery by its own signals, and only onto the anchored chain |
| `Coherence.AdoptedRefill` | core/chain.go:1321-1350 | an adopted candidate of any length that refilled an empty cache leaves it coherent |
| `Witness.ChainValid` | core/chain.go:889-1000 | the chains of the failing runs are real: validateBlock accepts each of their hash-linked blocks, whatever the hash functions, when the proof of work is always met |
| `Witness.AbandonedCandidateMisleads` | core/chain.go:1290-1296 | the failing inputs for the LWMA cache: a node at genesis replays 99 + cap acceptable signalling blocks and one that has no transactions or spells its transaction root in upper case; the candidate is refused, the chain is unchanged, and every such step leaves activation height 100 in the cache |
| `Witness.MisledDecision` | core/chain.go:681-684 | on a valid chain of a hundred blocks that never signalled that cache answers active and a rescan does not |
| `Witness.StaleRecoveryRun` | core/chain.go:1199-1213 | the failing run for the deep-recovery cache: from a coherent node with cap 10, an anchored 11-block reorg removes the signals it relied on, and a 21-block reorg follows on a chain on which deep recovery is not active |
| `Retarget.LegacyTargetOf` | core/chain.go:736-770 | the windowed-average loop, including int64 time differences and clamps, computes `LegacyTarget` |
| `Retarget.LwmaTargetOf` | core/chain.go:778-820 | the LWMA loop computes `LwmaTarget`, which lies in [1, MaxTarget] |
| `Retarget.LwmaDifficultyBounds` | core/chain.go:778-820 | before target clamping the next difficulty is between one tenth and sixty times the 90-block average |
| `Retarget.DivGalois` | core/types.go:349-353 | floor division is a Galois connection, the law behind work and target |
| `Retarget.WorkRoundTrip` | core/types.go:349-353 | a work value that comes from a target is reproduced by target-for-work and back |
| `Retarget.WorkSurvivesClamp` | core/chain.go:812-818 | work of at least 4095 needs no clamping: its target has exactly that work |
| `Retarget.LwmaFixpoint` | core/chain.go:778-820 | 90 blocks of work D >= 4095 at exactly 60 s spacing demand work exactly D |
| `Retarget.LegacyFixpoint` | core/chain.go:736-770 | a legacy window of one target on schedule repeats that target |
| `Retarget.WorkFloor` | core/types.go:349-353 | every target the chain allows has at least the difficulty floor of work, so work is never zero |
| `Validation.ImmatureCoinbase` | core/chain.go:471-488 | the per-address map holds, for every address, exactly the coinbases of the maturity window |
| `Validation.MinFeeOf` | core/chain.go:1943-1972 | the fullness loop and the choice of curve compute `MinFee`; the legacy float curve is one uninterpreted function of the fill |
| `Validation.BodyOkSame` | core/chain.go:967-998 | body validity does not depend on zero accounts being present |
| `Validation.NextIsCore` | core/chain.go:889-1000 | whatever a node accepts satisfies the cache-free, clock-free core rules |
| `Validation.CandidateChainOk` | core/chain.go:1294-1302 | a candidate whose blocks are accepted in turn makes a valid chain |
| `Validation.ChainOkPrefix` | core/chain.go:889-1000 | prefixes of valid chains are valid |
| `Validation.HashFixesHistory` | core/types.go:268-299 | in hash-linked chains equal block hashes at a height mean equal headers at every height below |
| `Validation.SealedUnique` | core/types.go:312-320 | two blocks with one header and a checked transaction root are the same block |
| `Validation.ChainSealed` | core/chain.go:893-954 | every block of a valid chain is keyed by its position and its body is committed by its root |
| `Conservation.SubsidyBound` | core/types.go:86-92 | the subsidies up to any height sum to at most 2 * InitialReward * HalvingInterval |
| `Conservation.CoinbaseFirst` | core/chain.go:964-998 | validating a body without the block's coinbase and applying it with the coinbase first give the same state, and the second order never wraps |
| `Conservation.TransferTotal` | core/chain.go:530-534 | a transfer moves the amount and takes exactly the fee out of circulation |
| `Conservation.BlockEffect` | core/chain.go:964-998 | an accepted block adds exactly its subsidy to the sum of balances and no uint64 operation on the way wraps |
| `Conservation.ChainConserves` | core/chain.go:523-535 | in every valid chain the balances sum to the subsidies of heights 1 to the tip |
| `Conservation.NoWrap` | core/chain.go:964-998 | for the next block of any valid chain TotalFees, the coinbase sum and every balance update are exact |
| `Conservation.GenesisLedger` | core/types.go:363-381 | the genesis block leaves the empty ledger |
| `Maturity.CoinbaseSumExact` | core/chain.go:471-488 | over one maturity window the uint64 coinbase sum does not wrap |
| `Maturity.HoldsRewards` | core/chain.go:490-521 | from height 500 each balance covers the account's coinbases of the last 99 blocks mined at 500 or later |
| `Maturity.ClampNeverFires` | core/chain.go:490-495 | in every valid chain of length 599 or more the clamp in spendable is dead and spendable is an exact subtraction |
| `Identity.NoncesSpent` | core/chain.go:502-521 | every confirmed transaction has a nonce below its sender's next one |
| `Identity.BlockNonces` | core/chain.go:964-998 | what one accepted block does to nonces, with the coinbase applied first |
| `Identity.NextIsFresh` | core/chain.go:985-998 | no transaction of a valid next block is already in the chain |
| `Identity.IdsUnique` | core/types.go:139-152 | transaction ids are unique across a valid chain |
| `Identity.HashesUnique` | core/types.go:284-299 | block hashes are unique across a valid chain |
| `Identity.PooledUnconfirmed` | core/chain.go:1531-1543 | a pooled transaction is never one that the chain already contains |
| `Mempool.SearchNonce` | core/chain.go:1499-1502 | the search returns the first position whose nonce is not smaller |
| `Mempool.RemoveInsert` | core/chain.go:1492-1529 | taking an entry out of a nonce-ordered list and inserting it again restores the list |
| `Mempool.WalkLeastMissing` | core/chain.go:1429-1441 | the frontier walk computes the least nonce from the account's on that the sender's list does not hold |
| `Mempool.ValidateMempoolTx` | core/chain.go:1416-1471 | the admission checks, in their order and with uint64 arithmetic, return `Admission` |
| `Mempool.RunFunded` | core/chain.go:502-521 | a sender's run of consecutive nonces is executed if and only if its largest outlay, payments to itself counted as returned, is spendable; it then leaves exactly the balance less what it took |
| `Mempool.FrontierFundable` | core/chain.go:1422-1463 | a transaction admitted at the frontier can be executed, behind the run the walk counted, if and only if the largest outlay of both is spendable; that is so whenever their cost fits in a uint64, and only then unless the run pays its own sender |
| `Mempool.OnePerNonce` | core/chain.go:1373-1399 | at most one pooled transaction exists per sender and nonce |
| `Mempool.IndexDetermined` | core/chain.go:1492-1529 | the pool determines its per-sender index: two indexes satisfying the invariant are equal |
| `Mempool.DropPlace` | core/chain.go:1391-1394 | dropping a pending transaction and restoring it gives back the same index |
| `Mempool.InsertedOk` | core/chain.go:1499-1504 | inserting a new nonce keeps the list strictly ordered and adds exactly that transaction |
| `Mempool.Pool.constructor` | core/chain.go:134-160 | an empty pool satisfies the invariant |
| `Mempool.Pool.Add` | core/chain.go:1492-1505 | mpAdd puts the transaction in the map and at its place in the sender's list, and keeps the invariant |
| `Mempool.Pool.Del` | core/chain.go:1507-1529 | mpDel removes a transaction from both, drops an emptied list, and is a no-op for an unknown id |
| `Mempool.Pool.Prune` | core/chain.go:1531-1543 | after pruning the pool is exactly the old transactions whose nonce is not below the account's and whose amount plus fee, added as uint64, the balance covers |
| `Mempool.KeptFundable` | core/chain.go:1531-1543 | a kept transaction at its account's nonce is one the new state can pay for if and only if its amount plus fee does not wrap |
| `Mempool.WrappedKept` | core/chain.go:1459-1471 | amount 2^64 - 1 with fee 1001 is admitted and survives pruning at a spendable balance of 1000, and no state validates it |
| `Mempool.Pool.FindRival` | core/chain.go:1373-1383 | the scan finds the pending transaction of the same sender and nonce if and only if there is one |
| `Mempool.Pool.AddTx` | core/chain.go:1364-1408 | AddTx answers `Decision`; a refusal, also a failed replace-by-fee, leaves map and index exactly as they were |
| `Mempool.Pool.Replace` | core/chain.go:1384-1398 | replace-by-fee swaps the rival for the new transaction or restores it |
| `Template.GroupBySender` | core/chain.go:1729-1739 | grouping the pool by sender and sorting by nonce gives exactly the pool's own index |
| `Template.PickBest` | core/chain.go:1743-1764 | the inner loop moves cursors past stale nonces only and returns the best eligible transaction of the whole pool |
| `Template.SelectTxs` | core/chain.go:1740-1774 | the selection is a valid body, each pick is the best that could have been appended at its turn, and if there is room left no pool transaction fits behind it |
| `Template.NothingLeft` | core/chain.go:1765-1767 | when no list head is eligible, nothing in the pool can be appended |
| `Template.BuildTemplate` | core/chain.go:1699-1804 | the only failures are a bad address and a median beyond clock drift; otherwise the block passes every check of validateBlock but the proof of work and a checkpoint of its height, its body is greedy and maximal, it signals version 4, and its time is the clock or the first second above the median, whichever is later |
| `Template.ChainsHaveRoom` | core/chain.go:1740-1774 | the side condition on nonces of the greedy and maximal claims holds on every valid chain below 2^64 / 200 blocks |
| `Memo.FactFromOne` | core/chain.go:839-847 | a block hash fixes the block's epoch seed, so one verified proof of work holds on every chain the block links to |
| `Memo.MarkVerified` | core/chain.go:449-462 | recording a hash keeps the memo sound, adds nothing else and forgets nothing below the cap of 8192; at the cap arbitrary entries go |
| `Memo.PreVerifyPow` | core/chain.go:1015-1066 | pre-verification on any prefix, also of candidates that do not link, records only true facts, and every block of the aligned candidate that meets its target is on record when the call returns |
| `Memo.PreVerifySigs` | core/chain.go:1074-1107 | only true signatures are recorded, and every true one of the aligned candidate is on record when the call returns |
| `Engine.CandidateWork` | core/chain.go:1239-1256 | the header-only subtract-and-add sum equals the work of the whole candidate chain |
| `Engine.CheckBody` | core/chain.go:969-999 | the body loop with memoised signatures accepts exactly `BodyOk` |
| `Engine.CheckTx` | core/chain.go:502-521 | validateTxAgainstState accepts exactly `TxOk` |
| `Engine.EvictOld` | core/chain.go:865-873 | eviction removes exactly the epochs more than two behind, when more than three are cached, and keeps every other VM bound to its seed |
| `Engine.Replay` | core/chain.go:423-442 | rebuilding from genesis yields the folds over the whole chain |
| `Engine.FoldStep` | core/chain.go:1133-1145 | applying one block to running ledgers that equal the folds gives the folds of the longer chain |
| `Engine.IndexBlocks` | core/chain.go:1298-1302 | appending a candidate's blocks to the index gives the index of the longer chain |
| `Engine.Chain.Load` | core/chain.go:161-345 | starting marks every block read as verified, also those beyond the first break, keeps the linked prefix and establishes the invariant: state, totals, work, supply and index equal the folds and every memo is sound; the caches are those of one look-up under the default cap of 100, saved checkpoints and anchor are taken over, and the operator's cap and penalty come last |
| `Engine.Chain.VmFor` | core/chain.go:849-875 | the VM used is built for the hash of the last block below the epoch, or the fixed seed of epoch 0, whatever is cached |
| `Engine.Chain.CheckPow` | core/chain.go:929-946 | with all three memos the answer is exactly whether the proof of work meets the target |
| `Engine.Chain.CheckHeader` | core/chain.go:889-914 | the header checks accept exactly `HeaderOk`, the checkpoint rule and the drift limit |
| `Engine.Chain.ValidateBlock` | core/chain.go:889-1000 | memoised, cached validation accepts exactly the blocks that memo-free validation accepts under the same cached activations; one that passes everything else is accepted if and only if it is mined under the last block below its epoch |
| `Engine.Chain.ExpectedTargetC` | core/chain.go:681-684 | the required target under the cached activation |
| `Engine.Chain.MinFeeForC` | core/chain.go:686-689 | the required fee under the cached activation |
| `Engine.Chain.Append` | core/chain.go:1133-1141 | the incremental update keeps every ledger equal to its fold |
| `Engine.Chain.AddBlock` | core/chain.go:1116-1157 | a block is connected if and only if it is acceptable; then chain, ledgers, pool and pending commit are those of the longer chain, otherwise nothing changes |
| `Engine.Chain.ReplayCandidate` | core/chain.go:1281-1348 | replaying a candidate on copies accepts exactly acceptable candidates and computes the folds of the candidate chain |
| `Engine.Chain.DeepRecoveryActive` | core/chain.go:717-734 | the recovery gate under its cache |
| `Engine.Chain.DiscardsCheckpoint` | core/chain.go:1223-1231 | the loop over checkpoints decides whether a held checkpoint would be dropped without being reached |
| `Engine.Chain.Screen` | core/chain.go:1192-1279 | the guards in their order return the first refusal that applies |
| `Engine.Chain.ExtendTip` | core/chain.go:1281-1319 | extension is all or nothing |
| `Engine.Chain.Reorganise` | core/chain.go:1321-1348 | reorg is all or nothing, and rebuilds the kept prefix |
| `Engine.Chain.TryAdoptChain` | core/chain.go:1161-1350 | the verdict is `Judge` of the cache-free rules; an adopted candidate replaces exactly the blocks from the fork on; a rejected one changes no ledger; the pending commit is the one the protocol expects |
| `Engine.Chain.AddTx` | core/chain.go:1364-1408 | submission to the node keeps the whole invariant and answers the pool's decision |
| `Engine.Chain.ApplyCheckpoint` | core/chain.go:1639-1654 | a checkpoint is recorded if and only if the node holds that block |
| `Engine.Chain.SetAuthorityAnchor` | core/chain.go:1662-1669 | the anchor only moves to greater heights |
| `Engine.Chain.PreVerify` | core/chain.go:1015-1107 | pre-verification of any candidate changes no ledger and no later verdict |
| `Protocol.WorkConcat` | core/chain.go:1239-1256 | work is additive over concatenation, which makes the header-only sum exact |
| `Protocol.ThresholdFair` | core/chain.go:1257-1263 | with the int64 cast of the uint64 product, the threshold is at least the present work if and only if no penalty applies or that product, modulo 2^64, is below 2^63 |
| `Runs.StepChainOk` | core/chain.go:1116-1350 | every transition keeps the chain valid |
| `Runs.RunChainOk` | core/chain.go:1116-1350 | every chain that any run passes through is valid |
| `Runs.CheckpointFinal` | core/chain.go:1639-1654 | once a checkpoint was applied at a height the block there never changes in any later run |
| `Runs.StepImproves` | core/chain.go:1257-1279 | each change of chain strictly raises (work, then smaller tip hash), unless the penalty product has wrapped into a discount |
| `Runs.RunImproves` | core/chain.go:1257-1279 | along a run a node never returns to an earlier, different chain |
| `Runs.FinitelyManyChanges` | core/chain.go:1257-1279 | a node whose tips come from a finite set of blocks changes chain fewer times than the set has members |
| `Runs.SameBlock` | core/chain.go:893-954 | in two valid chains equal hashes at a height mean equal blocks |
| `Sync.FilterComplete` | node/node.go:673-692 | the sync filter never skips a peer whose chain would be adopted |
| `Sync.FindAncestor` | node/node.go:758-783 | the binary search returns a confirmed common height, for a hash-linked peer the greatest one; an answer of none means a different genesis |
| `Sync.LinkedPeerMonotone` | node/node.go:758-783 | a peer that answers from a hash-linked chain agrees on every height below an agreeing one |
| `Sync.AncestorIsFork` | node/node.go:758-783 | up to the found height the two chains are identical |
| `Sync.ChunkedExtension` | node/node.go:816-845 | however an extension is cut into chunks, all of them are adopted if and only if the whole would be, and they leave the same chain |
| `Sync.OnlyWorkDecides` | core/chain.go:1192-1279 | without checkpoints and penalty, and with settled caches, a shallow fork of acceptable blocks is adopted exactly when it outweighs |
| `Sync.SettledEqualWork` | core/chain.go:1257-1279 | two nodes forked within each other's cap, neither of which can adopt the other, have equal work |
| `Sync.SettledSameTip` | core/chain.go:1268-1279 | when they are forked by one block at equal height they hold the same tip |
| `Store.DeleteInvertsPut` | core/bbolt_store.go:510-548 | deleting a block whose keys are fresh undoes writing it, in all four buckets |
| `Store.TipFresh` | core/bbolt_store.go:467-485 | in a valid chain the tip shares no key with the rows of the blocks before it |
| `Store.TruncateImage` | core/bbolt_store.go:553-570 | deleting the top blocks lowest first leaves exactly the rows of the rest |
| `Store.ImageExact` | core/bbolt_store.go:467-485 | the rows written for a valid chain are exact: every block, hash, transaction and address row under its key, and no other |
| `BlockStore.PutAddrRows` | core/bbolt_store.go:83-112 | the loop over a block's transactions writes exactly its address rows |
| `BlockStore.PutBlockTx` | core/bbolt_store.go:467-485 | block, hash, transaction and address rows of a block are written together |
| `BlockStore.DeleteBlockTx` | core/bbolt_store.go:515-548 | the mirror of writing, with the same skip of undecodable senders |
| `BlockStore.DeleteRangeTx` | core/bbolt_store.go:553-570 | the ascending loop deletes whatever is stored in the range |
| `BlockStore.DeletesTop` | core/bbolt_store.go:553-570 | on the exact store of a valid chain it leaves the exact store of the shorter chain |
| `BlockStore.PutMeta` | core/bbolt_store.go:489-497 | the tip stamp is the highest stored key, unchanged when nothing is stored |
| `BlockStore.BoltStore.Update` | core/bbolt_store.go:501-510 | a transaction commits whole or not at all |
| `BlockStore.BoltStore.TipHeight` | core/bbolt_store.go:735-746 | the cursor's last key is the greatest stored height |
| `BlockStore.BoltStore.AppendBlocks` | core/bbolt_store.go:501-510 | an extension is one transaction: all blocks with tip and work, or no change |
| `BlockStore.BoltStore.DropDown` | core/bbolt_store.go:613-626 | after any number of committed delete batches the store is the exact image of a prefix |
| `BlockStore.BoltStore.AppendUp` | core/bbolt_store.go:627-641 | after any number of committed append batches the store is the exact image of the base and a prefix of the new blocks |
| `BlockStore.BoltStore.OneTransaction` | core/bbolt_store.go:597-612 | the common reorg commits in one transaction |
| `BlockStore.BoltStore.Batched` | core/bbolt_store.go:613-642 | the batched reorg, cut after any transaction |
| `BlockStore.BoltStore.TruncateAndAppend` | core/bbolt_store.go:590-643 | from an exact store, stopping after any transaction leaves the exact rows of a prefix of the old chain or of the kept blocks and a prefix of the branch; success leaves kept blocks and branch with tip and work; from any store nothing foreign appears and no height below the fork is lost |
| `BlockStore.BoltStore.Rebuild` | core/bbolt_store.go:652-685 | an interrupted rebuild leaves the exact image of a prefix |
| `BlockStore.BoltStore.BackfillRows` | core/bbolt_store.go:441-462 | the backfill keeps a store with partly empty rows consistent after every batch and fills every row on success |
| `Recovery.ForEachBlock` | core/bbolt_store.go:688-702 | blocks are read in ascending height order |
| `Recovery.LoadBolt` | core/chain.go:295-328 | the linkage loop keeps the blocks before the first one that does not follow its predecessor, and asks for a rewrite exactly then or when the store was empty |
| `Recovery.SameAsChain` | core/chain.go:313-328 | linked stored blocks whose last one belongs to a valid chain are that chain's prefix |
| `Recovery.LoadRecovers` | core/chain.go:295-328 | from any mixture of blocks of once-current chains, loading meets the right genesis and keeps a prefix of one of those chains |
| `Recovery.LoadUsable` | core/chain.go:284-328 | whatever a node has stored can be loaded: the kept chain is valid, and every block read was once part of a valid chain |
| `Recovery.LoadExact` | core/chain.go:295-328 | loading the exact store of a valid chain returns that chain and rewrites nothing |
| `Commit.RunCommit` | core/chain.go:368-421 | executing a pending commit has exactly the outcomes the protocol allows |
| `Commit.ChangeWrites` | core/chain.go:1133-1157 | a change of memory and its pending commit describe the same new chain |
| `Commit.NextLocks` | core/chain.go:1116-1151 | every interleaved step keeps the lock invariant |
| `Commit.NextHistory` | core/chain.go:1175-1194 | every step, also a failed commit, a crash or a restart, keeps every stored block a block of a once-current valid chain |
| `Commit.NextSynced` | core/chain.go:1175-1194 | every step without a failed commit keeps store and memory at most one pending write apart |
| `Commit.StoreFollowsMemory` | core/chain.go:1116-1157 | over every interleaving without a failed commit: diskMu free means the store is the exact image of memory; otherwise one pending write separates them and the store is part-way along it |
| `Commit.AlwaysRecovers` | core/chain.go:295-328 | after any failed or cut-short commits loading succeeds with a prefix of a chain that was once current |
| `Commit.NoDeadlock` | core/chain.go:1116-1151 | the lock order never deadlocks: if a thread is inside the protocol, some thread inside it has a step it can take, and a thread writing to disk does not hold mu |
| `Finality.StepKeeps` | core/chain.go:903-905 | no transition of a node brings a block that contradicts a recorded checkpoint or replaces the record, unless the chain already contradicts it |
| `Finality.CheckpointSurvives` | core/chain.go:1639-1654 | over every interleaving with crashes and restarts, as long as no commit has failed: a checkpoint applied while no pending commit had started on a chain with another block there stays recorded, and the node never again holds another block at that height |
| `Finality.CrashAfterCheckpoint` | core/chain.go:161-170 | a node that applies a checkpoint while its store holds a chain exactly, dies and starts again is back on that chain, and keeps the checkpoint if and only if that chain does |
| `Finality.PendingContradicts` | core/chain.go:1173-1194 | between the change of memory and the first store transaction of any reorg, a checkpoint of the new branch can be applied whose height the store still fills otherwise: the condition of the survival theorem cannot be dropped |
| `Finality.ReorgExists` | core/chain.go:1199-1213 | a reorg on valid chains, accepted by the node, in which that happens |
| `Encoding.BigEndianOrder` | core/bbolt_store.go:370-371 | numeric order is byte order of fixed-width big-endian keys |
| `Encoding.NumberBack` | core/bbolt_store.go:370-371 | decoding a big-endian key gives the number back |
| `Encoding.KeyOrder` | core/bbolt_store.go:378-384 | keys of one address are in cursor order exactly when they are in (height, index) order |
| `Encoding.KeyBack` | core/bbolt_store.go:176-177 | address, height and index are read back from a key |
| `Encoding.KeyBelowUpper` | core/bbolt_store.go:130-137 | the seek position lies above every key of the address |
| `Encoding.RowRoundTrip` | core/bbolt_store.go:27-77 | a history row is decoded to what was encoded if and only if its three strings are shorter than 256 bytes |
| `Encoding.ShortRowsFallBack` | core/bbolt_store.go:57-60 | a missing or short value never decodes |
| `History.IndexIsOldest` | core/chain.go:602-617 | the in-memory index of an address lists exactly the transactions touching it, oldest first |
| `History.RunsOfOldest` | core/chain.go:2054-2062 | walking the index run by run from its end is the plain scan, newest block first |
| `History.FromIndex` | core/chain.go:2042-2089 | the in-memory walk returns exactly rows [offset, offset + limit) of the plain scan |
| `Cursor.Segment` | core/bbolt_store.go:130-137 | walking down from the seek position, the keys of the address come first and without a gap |
| `Cursor.RowOrBlock` | core/bbolt_store.go:151-172 | the decoded bytes of a stored row and the fallback to its block give the same item |
| `Cursor.Flush` | core/bbolt_store.go:145-173 | the buffered rows of one block are emitted in transaction order under offset and limit |
| `Cursor.Seek` | core/bbolt_store.go:131-137 | the cursor stands at the first key not below the target |
| `Cursor.AddrHistory` | core/bbolt_store.go:120-207 | the reverse cursor scan, with its length and prefix guard, returns exactly the same page, whatever mixture of encoded and empty rows is stored |
| `Cursor.RowBack` | core/bbolt_store.go:27-77 | a row with 64-digit id and strings below 256 bytes is read back as the item that was written |
| `Cursor.RowsFit` | core/bbolt_store.go:27-77 | every row of a valid chain meets that condition |
| `Cursor.PlainExact` | core/bbolt_store.go:176 | every query of address length or longer is answered from its own keys, a shorter one if and only if no stored address begins with it |
| `Cursor.ShortQueryStrays` | core/bbolt_store.go:130-177 | a shorter query with which a stored address begins makes the cursor take that address's key for its own, though nothing touches the query |
| `Cursor.StoreServes` | core/bbolt_store.go:83-112 | the store of a valid chain, fully or partly backfilled, meets the scan's assumptions for a query if and only if the query is not a proper beginning of a stored address |
| `Cursor.CountIsScanLength` | core/chain.go:567-593 | the incremental transaction count of an address is the length of its scan |
| `Words.RotateBound` | neuromorph/neuromorph.go:286-287 | a 64-bit rotation stays in 64 bits |
| `Vm.SlackTaken` | neuromorph/neuromorph.go:304-313 | each taken branch uses up one of its eight allowances |
| `Vm.StepBound` | neuromorph/neuromorph.go:267-339 | every outer loop halts within 257 * ProgSize instructions for every program, register and scratchpad contents |
| `Vm.Execute` | neuromorph/neuromorph.go:276-330 | the instruction bodies change registers and scratchpad exactly as specified, every index in bounds |
| `Vm.RepairFloat` | neuromorph/neuromorph.go:331-337 | a NaN, infinite or zero float is replaced, others are kept |
| `Vm.RunLoop` | neuromorph/neuromorph.go:267-339 | the Go instruction loop computes `Run` and takes at most 257 * ProgSize steps |
| `Vm.InitRegisters` | neuromorph/neuromorph.go:253-264 | the initial registers from seed and scratchpad head |
| `Vm.WalkDataset` | neuromorph/neuromorph.go:340-350 | the 64 data-dependent reads, every index in bounds |
| `Vm.FoldRegisters` | neuromorph/neuromorph.go:351-358 | the registers are folded into the scratchpad with wrap-around, the floats into the upper registers |
| `Vm.FinalFold` | neuromorph/neuromorph.go:361-372 | the eight accumulators are the column folds of the whole scratchpad |
| `Vm.Hash` | neuromorph/neuromorph.go:241-390 | the Go hash computes `HashOf`, the preimage of the final SHA-256 |
| `CWords.RotlIsRotate` | unm/nm_fast.c:24 | rotl64 of a negative count, with its mask, zero case and two shifts, is the Go rotation to the right |
| `CWords.MulHiIsHigh` | unm/nm_fast.c:25 | the high half of the 128-bit C product is the high word of the Go multiplication |
| `VmFast.ExecuteFast` | unm/nm_fast.c:241-262 | the fourteen C instruction bodies, with rotl64 and mulhi64, have the specified effect |
| `VmFast.VmOneLoop` | unm/nm_fast.c:230-265 | threaded dispatch with computed gotos and a shared repair label computes the same registers and scratchpad as the Go loop |
| `VmFast.VectorFold` | unm/nm_fast.c:275-281 | two four-word vector accumulators give the same eight words as the Go fold |
| `VmFast.FastHash` | unm/nm_fast.c:298-317 | the single-lane C hash equals the Go hash for every program |
| `VmBatch.Lane.constructor` | unm/nm_fast.c:326-338 | fresh, pairwise distinct buffers for one lane |
| `VmBatch.RunAll` | unm/nm_fast.c:340-341 | one outer loop on every lane leaves each lane with its own result |
| `VmBatch.ReadAll` | unm/nm_fast.c:347-354 | one interleaved read per lane advances each lane's own walk by one step |
| `VmBatch.WalkAll` | unm/nm_fast.c:343-355 | 64 interleaved rounds give each lane the walk it would have made alone |
| `VmBatch.HashBatch` | unm/nm_fast.c:319-363 | hashing K disjoint lanes in lock step gives for each lane exactly the single-lane hash |
| `Params.EveryOpHasSlots` | unm/nm_params.c:36-48 | each of the 15 operations gets at least 2 of the 256 slots, for every weight hash |
| `Params.BuildTable` | neuromorph/neuromorph.go:98-120 | the running index fills the whole table in order and the final fill loop never runs |
| `Params.FillRest` | unm/nm_params.c:49-52 | the padding loop touches only slots from its start on |
| `Params.TableDecodes` | unm/nm_params.c:43-48 | the table holds nothing but the fifteen operations |
| `Params.DeriveRanges` | neuromorph/neuromorph.go:87-93 | program size 384..768, loops 32..64, branch shift below 24, each congruent to its bytes of the hash modulo the size of its range |
| `Params.GenProgram` | neuromorph/neuromorph.go:206-228 | every generated instruction names one of the fifteen operations, so the C dispatch table is never indexed out of range |
| `Stratum.ShareGalois` | cmd/cereblix-stratum/solodiff.go:53-75 | difficulty and target conversions form a Galois pair on every target the chain allows |
| `Stratum.BoundsOrdered` | cmd/cereblix-stratum/solodiff.go:98-115 | easiest <= default <= hardest for every target the chain allows |
| `Stratum.DefaultIsEasier` | cmd/cereblix-stratum/solodiff.go:98-115 | the default share target is at least 4096 times the network's, or the easiest the chain allows |
| `Stratum.Client.constructor` | cmd/cereblix-stratum/solodiff.go:151-153 | a connection starts without a current difficulty |
| `Stratum.Client.ShareTarget` | cmd/cereblix-stratum/solodiff.go:151-171 | a share is never harder than a block, for any current difficulty; the final safety check acts exactly when the network target is easier than MaxTarget |
| `Bits.XorBit` | neuromorph/neuromorph.go:260 | bit i of the exclusive or is set if and only if bit i of the operands differs, for every bit of the word |
| `Bits.XorTwice` | neuromorph/neuromorph.go:260 | xoring a word in twice gives the first word back |
| `Bits.RotateBit` | neuromorph/neuromorph.go:286-287 | rotating right by n moves bit i + n, around the end of the word, to bit i |
| `Bits.ProductWords` | neuromorph/neuromorph.go:281-283 | the high and the low word of a 64-bit product make up the whole product |
| `Bits.ScratchIndexBit` | neuromorph/neuromorph.go:298-303 | a scratchpad index is bits 3 to 20 of the address |
| `Bits.DatasetIndexBit` | neuromorph/neuromorph.go:343-348 | a dataset index is bits 3 to 25 of the address |
| `Bits.NormFloatBit` | neuromorph/neuromorph.go:231-235 | a normalised float keeps the 52 mantissa bits and has the sign and exponent of [1, 2) |
| `Instructions.IntegerOps` | neuromorph/neuromorph.go:276-289 | opcodes 0 to 5 by number: sum, product with the odd source, high product under the immediate, exclusive or under the salt, rotation by the low six bits of source and immediate, and imm - 1 - x, each modulo 2^64; no other register changes |
| `Instructions.LoadOp` | neuromorph/neuromorph.go:298-300 | opcode 10 xors in the word at (source + imm) mod 2 MiB and changes nothing else |
| `Instructions.StoreOp` | neuromorph/neuromorph.go:301-303 | opcode 11 xors source + loop into the word at (target + imm) mod 2 MiB and changes nothing else |
| `Instructions.AesOp` | neuromorph/neuromorph.go:304-323 | opcode 13 replaces an aligned pair of words by one AES round and xors the first result in; opcode 12 changes no register |
| `Instructions.FloatOps` | neuromorph/neuromorph.go:290-337 | opcodes 6 to 9 change one float register, by sum, product, quotient by the normalised divisor or root of the magnitude; a result that is not finite and non-zero becomes the normalised target register with its low bit set |
| `Instructions.CrossOp` | neuromorph/neuromorph.go:324-329 | opcode 14 xors a float register in on an even immediate and multiplies by a normalised integer register on an odd one |
| `Instructions.RunIsSteps` | neuromorph/neuromorph.go:268-339 | any sequence of single steps from instruction 0 to the end of the program ends in the registers and scratchpad of `Run`, after at most 257 steps per instruction |
| `Instructions.WalkStepIs` | neuromorph/neuromorph.go:343-350 | one dataset read takes the word at the address mod 64 MiB into register k mod 16, and the next address is that word plus the next register plus the loop number |
| `Instructions.HashIsLoops` | neuromorph/neuromorph.go:266-372 | the hash is what any sequence of outer loops numbered 0, 1, 2, ... from the initial registers ends in |
| `Instructions.StartIs` | neuromorph/neuromorph.go:253-264 | the first four registers are the seed, the other twelve scratchpad words under the salt, the float registers the next eight words normalised |
| `Mixing.ColumnParity` | neuromorph/neuromorph.go:361-372 | bit i of a fold word is the parity of bit i over the words of its column |
| `Mixing.FoldSensitive` | neuromorph/neuromorph.go:361-372 | changing one scratchpad word changes exactly one word of the fold |
| `Mixing.LoopFoldAt` | neuromorph/neuromorph.go:351-358 | an outer loop ends by xoring the sixteen registers into sixteen consecutive words, wrapping around, and the float registers into registers 8 to 15; every other word and register keeps its value |
| `Mixing.RegistersRemain` | neuromorph/neuromorph.go:351-355 | two register files that differ leave different scratchpads behind when they fold to the same place |
| `Mixing.FourWordsEach` | neuromorph/neuromorph.go:343-350 | in one walk every register takes in exactly four of the 64 dataset words, sixteen reads apart |
| `Mixing.NextAddress` | neuromorph/neuromorph.go:343-350 | two different dataset words under one address lead to different next addresses |
| `Mixing.Reversible` | neuromorph/neuromorph.go:276-329 | an integer instruction whose source is another register maps different values of its target to different values |
| `Mixing.BranchBits` | neuromorph/neuromorph.go:304-314 | a branch is taken if and only if the eight condition bits of the sum are clear and it was taken fewer than eight times |
| `Response.LegacyResponse` | core/chain.go:736-770 | a window faster than schedule never eases the average target and a slower one never tightens it; a quarter and four times the average are reached at a quarter of and four times the schedule, and bound the result |
| `Response.LegacyMonotone` | core/chain.go:736-770 | for the same average target, the longer the window took the easier the next target |
| `Response.AverageBetween` | core/chain.go:753-760 | the average lies between the least and the greatest target of the window |
| `Response.ShortHistory` | core/chain.go:736-781 | genesis alone asks for the genesis target, of work 32767; up to 90 blocks the LWMA rule is the legacy rule |
| `Response.LwmaResponse` | core/chain.go:778-820 | a window in which no block took longer than a minute never lowers the average difficulty, and one in which none took less never raises it |
| `Response.LwmaMonotone` | core/chain.go:778-820 | of two windows of the same work the one whose blocks were each at least as fast gets the harder target |
| `Response.NewerWeighsMore` | core/chain.go:788-798 | the same delay raises the weighted time, and eases the target, more on the later of two blocks |
| `Response.SolveTimeIs` | core/chain.go:790-796 | a solve time counts as it is between one second and ten minutes, and as the nearer limit beyond |
| `Epochs.OneSeed` | core/chain.go:839-847 | all heights of one epoch of 4096 blocks of a chain have one seed |
| `Epochs.SeedsAgree` | core/chain.go:839-847 | two hash-linked chains give a later epoch the same seed if and only if they agree on the block right below it, and then on every header below |
| `Epochs.SeedCommits` | core/chain.go:839-847 | two valid chains give an epoch the same seed if and only if they are identical below it, transactions included |
| `Epochs.ChainMined` | core/chain.go:942-955 | every block of a valid chain meets its target under the hash of the last block below its epoch |
| `Readiness.ForksActivateAt` | core/upgrade.go:40-56 | the forks activate at the first height below which 90 of 100 blocks signal version 3, 80 of 100 version 2 from height 3195 on, and 48 of 50 version 4 |
| `Readiness.TemplatesActivate` | core/upgrade.go:68-97 | 100 blocks built from this node's templates activate LWMA and, above height 3195, the fee market; 50 activate deep recovery |
| `Readiness.VersionBack` | core/upgrade.go:77-90 | every version number that fits an int is read back from its tag, with or without a plus sign; a larger one counts as 1 |
| `Readiness.OtherTagsAreOld` | core/upgrade.go:77-90 | a tag without the prefix, without digits or with anything but digits counts as version 1 |
| `Template.MinedTemplate` | core/chain.go:1793-1803 | whatever nonce a miner finds for a template, and however much later the block arrives, it is accepted if and only if it meets its target under the epoch seed and any checkpoint at its height names it |
| `Mempool.AdmittedExactly` | core/chain.go:1416-1471 | a transaction is admitted if and only if it is well signed, pays the floor, has a nonce from the account's to 256 above the least unused one, finds fewer than 4096 queued, and the spendable balance covers it, at the frontier with all that is queued below |
| `Mempool.QueuedFundable` | core/chain.go:1461-1470 | an admitted transaction ahead of the frontier is valid on every state with its nonce and the same balance if and only if amount plus fee does not wrap; one valid there that meets the fee, gap and queue limits is admitted |
| `Mempool.BumpLaw` | core/chain.go:1384-1390 | a fee replaces a pending one if and only if it is higher and ten percent higher, rounded down, as long as that fits in a uint64; beyond, any higher fee does |
| `Mempool.BumpPays` | core/chain.go:1384-1390 | that every replacement pays ten percent more holds if and only if the pending fee and its tenth do not wrap |
| `Mempool.SubmittedExactly` | core/chain.go:1364-1408 | AddTx accepts if and only if the transaction is not pooled, pays the bump over a pending one of its nonce or else finds at most 10000 pooled, and is admitted against its sender's other transactions |
| `Mempool.KeptExactly` | core/chain.go:1531-1543 | pruning keeps a transaction if and only if its nonce is not used up and it is valid once its turn comes with the same balance |
| `Verdicts.AdoptedExactly` | core/chain.go:1161-1342 | a candidate is adopted if and only if it is not empty, forks above genesis within our chain, is within the cap or passes the active authority anchor, keeps every checkpoint above the fork, has enough work, and is acceptable block by block |
| `Verdicts.WorkExactly` | core/chain.go:1257-1286 | two or more blocks deep the work needed is ours and, for each block of depth, another penalty / 1000 of it; at the tip it is more work, or equal work at equal height under a smaller hash |
| `Verdicts.PenaltyPaid` | core/chain.go:1257-1286 | a reorg two or more blocks deep is adopted only with work above ours plus ours * depth * penalty / 1000 |
| `Verdicts.OrdersTaken` | core/chain.go:1639-1673 | a checkpoint is recorded if and only if it names a block the node holds above genesis, the anchor becomes the highest seen, and nothing else changes |
| `Acceptance.AcceptedExactly` | core/chain.go:889-1000 | a block extends a valid chain if and only if it keeps the header, coinbase and payment rules, spelled out without folds, sorts or wrap-around |
| `Acceptance.BodyExactly` | core/chain.go:978-1000 | a body is valid if and only if each payment is: signed, new, above the floor, under the next nonce, and covered by what its sender may spend, received and has not spent earlier in the block |
| `Acceptance.BodyAccount` | core/chain.go:502-533 | after a valid body an account has what it had, plus what the body paid it, less what it spent, exactly |
| `Acceptance.MedianIsMiddle` | core/chain.go:822-833 | a time is above the median if and only if it is later than more than half of the last eleven blocks |
| `Acceptance.FeeFloorExactly` | core/chain.go:1943-1972 | no fee floor below height 450, 1000 once the fee market is active, and before that the old curve for the fullness of the last twenty blocks out of 3980 transactions |
| `Acceptance.AddressIs` | core/types.go:101-111 | an address is crb1 and forty hex digits |
| `Maturity.SpendsExactly` | core/chain.go:471-521 | a signed transaction under the next nonce is valid if and only if the balance, less every coinbase paid to its sender in the last 99 blocks from height 500 on, covers amount and fee |
| `Issuance.SubsidyExact` | core/types.go:86-92 | every height issues five billion halved height / 1051200 times and rounded down; the cut-off at 33 halvings changes nothing |
| `Issuance.IssuedExactly` | core/types.go:86-92 | the coins issued up to a height are those of the eras passed and of the blocks of the present one; genesis issues none |
| `Issuance.FinalSupply` | core/types.go:86-92 | no height exceeds 10511994988436800 units issued, and from the 33rd halving on it is exactly that |
| `Issuance.CoinsExactly` | core/chain.go:523-535 | the balances of a valid chain add up to exactly what its height has issued, and never exceed the final supply |
| `Wallet.ScanExactly` | core/chain.go:2042-2104 | the history of an address holds exactly the transactions that concern it, each once, newest block first and in order inside a block |
| `Wallet.PageRows` | core/chain.go:2042-2104 | row k of a page is the transaction at offset + k, with its id, height, time, sender, recipient, amount and fee |
| `Wallet.PagesJoin` | core/chain.go:2042-2104 | two consecutive pages are the page asked for at once |
| `Wallet.HistoryBalance` | core/chain.go:2042-2104 | the rows of an address's whole history add up to its balance |
| `Encoding.RowLayout` | core/bbolt_store.go:44-54 | a stored row is three big-endian numbers, time first, then id, sender and recipient, each behind its length |
| `Encoding.HexDigitAt` | core/bbolt_store.go:44-54 | digit k of a hex id is the one of its power of sixteen, in lower case |
| `Params.SlotsProportional` | neuromorph/neuromorph.go:97-116 | an operation holds one consecutive range of slots and no other, and but for the last as many as its weight's share of 256, rounded down |
| `Params.InstrBytes` | neuromorph/neuromorph.go:220-227 | an instruction keeps the stream bytes it was decoded from, the immediate lowest byte first |
| `Stratum.DefaultTight` | cmd/cereblix-stratum/solodiff.go:91-106 | where it can be 4096 times easier the default difficulty is between a 4096th and a 2048th of the hardest |
| `Stratum.ClampNearest` | cmd/cereblix-stratum/solodiff.go:73-81 | a requested difficulty is served as the nearest one within the bounds |
| `Sync.FilterIsForkChoice` | node/node.go:673-692 | the filter lets through exactly the peers whose announced chain is better in the fork-choice order |
| `Mixing.StoreReversible` | neuromorph/neuromorph.go:301-303 | a store changes its word by a xor: different words stay different |

## Left out

- HTTP handlers, P2P transport, rate limits, long-poll, Stratum sockets: I/O around the core. A peer is a function from height to block hash.
- JSON, jsonl files, compaction, export, the jsonl fallback store and one-time imports: serialisation and file handling.
- SHA-256, AES, ed25519, PBKDF2 and IEEE-754 internals: arbitrary functions, see Assumptions.
- The AES scratchpad fills and the AES key stream of programs: one value per seed (`Vm.Job`), `Params.GenProgram` starts from the stream.
- Hardware variants of the scratch fill, huge pages, NUMA and pinning in `unm/`: equivalent by the miner's own start-up comparison, which is not modelled.
- The vardiff average (cmd/cereblix-stratum/solodiff.go:174-210): float arithmetic; `Stratum.Client.ShareTarget` holds for any difficulty it may leave.
- SuggestedFee, rich list, recent coinbase share and other views: they read the state and would only add easy members.
- Self-update, boot markers, wallets and user interfaces.
- The checkpoint and anchor files themselves: what was saved is read back, and a save that fails, which the source ignores, is not modelled. Authority signatures are verified by the caller.
- Resubmitting the saved mempool after a start: each transaction goes through `Engine.Chain.AddTx`.
- The history backfill goroutine running at the same time as a reorg: `BlockStore.BoltStore.BackfillRows` is sequential.
- Readers of the store between two transactions of one commit: `Commit` shows which states they can meet, not what each query answers there.
- Threads other than the chain's in `Commit`: pool submissions and checkpoints take mu alone; memo locks are not modelled.
- Commit.StoreFollowsMemory: claims exact index rows only while no commit has failed since the store was last rewritten; after a failed commit only the chain-level recovery of `Commit.AlwaysRecovers` is claimed, because blocks of two chains may then share a transaction id.
- Commit.RunCommit: covers the bbolt store; the jsonl path of commitExtend and commitReorg is not part of this model.
- Engine.Chain.ValidateBlock: compares with memo-free validation under the same cached activation heights; that these answer like a rescan is `Activation.CachedDecision` for coherent caches.
- Runs.StepImproves: assumes that the penalty product has not wrapped into a discount, by `Protocol.ThresholdFair` the exact condition; so do the run theorems built on it and `Sync.FilterComplete`.
- Finality.CheckpointSurvives: claims nothing after a failed commit, because what is loaded then may be a prefix of any once-current chain.
- Identity.IdsUnique: needs `NoncesFit`; so do the store theorems that rest on unique ids.
- Maturity.HoldsRewards: below height 599 counts only coinbases mined at height 500 or later, because earlier ones were spendable at once and may be gone.
- Template.BuildTemplate: excludes a median time of 2^64 - 1, which no accepted block can follow; greedy and maximal selection is claimed while nonces stay 200 below 2^64, which `Template.ChainsHaveRoom` proves of real chains.
- Sync.SettledEqualWork: assumes no checkpoints, no penalty, no block beyond clock drift and caches settled at the fork; with those present two nodes may rightly stay apart.
- Sync.FindAncestor: a peer that stops answering in the middle of the search is not modelled, the source gives up on it.
- Cursor.AddrHistory: the page limit is a natural number; for a query that is a proper beginning of a stored address it promises nothing, see `Cursor.ShortQueryStrays`.
- Vm.Hash: floats are their bit patterns, so a platform that alters NaN payloads when moving a register is outside the model.
- VmBatch.HashBatch: any number of lanes instead of at most 16.
- Params.DeriveRanges: the bytes come from an arbitrary hash; the salt and the keys are taken from it as they are.
- Verdicts.WorkExactly: needs depth times penalty below 2^63; what happens beyond is `Protocol.ThresholdFair`.
- Response.LwmaMonotone: compares windows of the same work, because a window's targets and times both move the result.
