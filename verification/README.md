# kasplex-reth: a verified model of its ledger, transaction numbers, selection and payloads

kasplex-reth is an execution client for the Kasplex L2 chains. Most of it wires library components
together; this project models the parts that carry arithmetic, state and loops of their own, and
proves what they guarantee over whole transactions, blocks, chains and runs.

## What is modelled

- **Fee ledger** (`Handler.dfy`, `Executor.dfy`, `Inclusion.dfy`, `SystemCall.dfy`, on `Balances.dfy`,
  `Transactions.dfy`, `Treasury.dfy`). The three replaced handler hooks on a mutable journal, in the
  width and overflow mode of each operation; the executor's gas counter and receipts; the treasury
  address. Caller, beneficiary and treasury may coincide in any way.
- **Transaction numbers** (`Numbers.dfy`, `TxPool.dfy`, `Validator.dfy`, `Engine.dfy`,
  `Lifecycle.dfy`). The shared map from hash to submission block and the pool, as classes whose
  methods are proved to be the steps of a state machine; the theorems are about all runs of it.
- **Building** (`Config.dfy`, `Builder.dfy`). The shared override cells, the build loop with its
  push and pop of numbers, the fee total and the write-back.
- **Selection** (`Selection.dfy`). The loop of `txPoolContent` under two budgets and the listing by
  minimum tip.
- **Blocks, payloads, consensus** (`Blocks.dfy`, `Consensus.dfy`) and the results that join the
  components (`Chain.dfy`).

`Machine.dfy` holds the widths and the overflow modes. `Handler.Env` carries the treasury address,
which `ForChain` derives from the chain id; the ledger theorems of a block hold for any treasury
address. Arithmetic follows the release build, where `+` and `*` wrap, because no profile of the
workspace turns overflow checks on; a debug build panics where the model wraps. The theorems state
exactly when wrapping does not happen.

## What is assumed

- `Handler.Lawful`: the execution engine between the hooks preserves the total balance, its gas
  counter satisfies `spent + remaining == gas_limit`, and the refund is at most a fifth of the gas
  spent (EIP-3529). The engine is otherwise an arbitrary function that may refuse or fail.
- `Handler.KeepsNonces` (only for the nonce theorems): the engine lowers no nonce. For a creation it
  bumps the creator's nonce itself, if and only if the creator's balance covers the value: that check
  comes first in `make_create_frame` of the library.
- `Handler.LeavesAccounts`, `Inclusion.AlwaysRuns`, `Inclusion.NeverAborts` (only for the theorems that
  name them): engines that change no nonce or code, that run everything, that never fail fatally.
- `Blocks.RoundTrips`: decoding an encoded transaction gives it back. Hashes, roots and signer
  recovery are arbitrary functions.
- Library behaviour written out as code: `effective_balance_spending` fails when gas cost leaves 128
  bits or the sum leaves 256; `balance_incr` drops a credit that would leave 256 bits; the engine's
  fee checks precede the hooks; a failed transaction leaves no trace; the pool removes exactly the
  hashes it is given; conversion between payload and block follows ExecutionPayloadV1 of the Engine
  API (Paris) with the constant fields of EIP-3675.
- Each map operation and each engine event is atomic.
- `Chain.ImportedChain`: no balance moves between two blocks. The system calls carry no value and
  their hooks move none (`SystemCallIsFeeNeutral`), and blocks have no withdrawals.

## Where the code does not keep a promise

- An underfunded caller is not rejected (`saturating_sub` in the deduction). The supply then grows by
  exactly the shortfall: `HooksSupply`, `TransactSupply`, `BlockConservation`; `UnderfundedCallerMints`
  covers the whole family and `EmptyAccountMints` is one instance.
- The nonce of a creation is left to the engine, and no balance is asked for before it. A creation
  whose caller is left with less than its value is accepted with its nonce unused, and a candidate
  list that repeats it puts it into the block twice: `TransactNonces` is the exact condition,
  `UnusedNonceRepeats` and `UnusedNonceRunsTwice` cover the family, `CreationRunsTwice` is an
  instance, and `FundedUsesNonce` a guard. `NoncesIncrease` is what remains true of every block.
- `tx_number + 100` wraps for the last hundred numbers, and every head then counts as expired
  (`ExpiryWindow`). `NumbersFollowHeads` shows when that cannot be reached.
- The unit test at crates/tx_mapping/src/lib.rs:241-242 expects expiry at exactly submission + 100; the
  code and its doc comment say "more than", and the model follows them (`RetentionBoundary`).
- A forkchoice update that repeats the head under which a transaction was submitted already expels it
  as belonging to a future block (`StampedSurvival`).
- The 64-bit sums of the selection loop can wrap below the budgets. `SelectionExact` gives the exact
  condition, `OverflowUnseen` a pool of three transactions that is listed in full at more gas than the
  budget, `NoOverflowSuffices` a simple guard.
- Numbers are consumed before the block hash is compared (`EnsureWellFormedPayload`), so a payload
  whose block is not found does not commute with a forkchoice update (`PayloadForkchoiceCommute`).
- The builder accepts extra data that its own validator refuses (`FrozenBlockRoundTrip`).
- An assembled block has an empty withdrawals list, and the block read back from its payload has none
  at all; the header is the same (`AssembledRoundTrip`).

## Model

| member | source | states |
|---|---|---|
| Treasury.TreasuryClosedForm | crates/evm/src/lib.rs:32-49 | for every 64-bit chain id the string has exactly forty digits and parses, the zero fallback is never taken, and the address is the id's BCD value shifted to the top plus 0x10001 |
| Treasury.TreasuryCollision | crates/evm/src/lib.rs:32-49 | two chain ids share a treasury if and only if one is the other times a power of ten |
| Treasury.SupportedTreasuriesDistinct | crates/chainspec/src/lib.rs:21-24 | the four supported networks have four different treasuries |
| Treasury.SupportedTreasuries | crates/evm/src/lib.rs:60-80 | the four treasury addresses, digit by digit |
| Transactions.TipFormulasAgree | crates/payload/src/builder.rs:174-176 | when the fee cap covers the base fee, the builder's tip is the price the engine charges minus the base fee |
| Transactions.PriceExact | crates/evm/src/handler.rs:171-172 | nobody pays more than its cap, nor with a priority fee more than base fee plus priority, and everybody pays one of the two |
| Handler.Journal.ValidateAgainstStateAndDeductCaller | crates/evm/src/handler.rs:87-137 | succeeds if and only if the caller has no code, the nonce matches and the amounts fit; then exactly the caller has paid what it has of the charge, exactly a call has bumped its nonce, by one, and nothing else has changed |
| Handler.Journal.RewardBeneficiary | crates/evm/src/handler.rs:164-201 | tip to the beneficiary, then base fee to the treasury, as machine amounts |
| Handler.Journal.ReimburseCaller | crates/evm/src/handler.rs:205-245 | the caller is credited the price of remaining plus refunded gas, as a machine amount |
| Handler.RunTransaction | crates/block/src/executor.rs:101-107 | running the hooks in order around the engine, with the journal dropped on every error, is the function all theorems are about |
| Handler.TransactExact | crates/evm/src/handler.rs:87-137 | an inadmissible transaction is refused unrun; an admissible one runs on exactly the charged state, is accepted if and only if the engine runs it, skippable if the engine refuses it, fatal if and only if the engine aborts, and settlement changes balances only |
| Handler.RefusalReasons | crates/evm/src/handler.rs:101-128 | each refusal is given exactly when its rule is the first one broken |
| Handler.NonceStep | crates/evm/src/handler.rs:117-120 | under an engine that leaves nonces alone an accepted call moves its caller's nonce by exactly one, to its own nonce plus one, and no other nonce moves |
| Handler.MachineArithmeticIsExact | crates/evm/src/handler.rs:125-230 | once the deduction is accepted, the wrapping product, both saturating products, the gas sum and every saturating subtraction equal their integer values |
| Handler.GasIsExact | crates/evm/src/handler.rs:175-229 | under the refund cap the signed-to-unsigned casts and the sum of remaining and refunded gas are exact |
| Handler.SettlementIsExact | crates/evm/src/handler.rs:179-232 | while the total fits 256 bits no credit is lost, and every account gains the sum of what its roles earn under every aliasing |
| Handler.SettlementOrder | crates/evm/src/handler.rs:164-245 | without any bound an account receives refund, tip and base fee in this order, each dropped alone when it does not fit |
| Handler.HooksSupply | crates/evm/src/handler.rs:87-245 | around any supply-preserving execution the supply grows by exactly the caller's shortfall plus the part of the base fee the price does not cover |
| Handler.HooksConserve | crates/evm/src/handler.rs:87-245 | wei is conserved if and only if the balance covers the charge and the price covers the base fee (or no gas is used) |
| Handler.TransactSupply | crates/evm/src/handler.rs:87-245 | a committed transaction mints exactly its caller's shortfall, and conserves wei if and only if the caller covers its charge |
| Handler.TransactIncome | crates/evm/src/handler.rs:164-245 | beyond what execution left, each account gains exactly its roles' refund, tip and base fee |
| Handler.AcceptedPriceCoversBaseFee | crates/payload/src/builder.rs:173-176 | an executed transaction always has a tip, so the builder's expectation never fails |
| Handler.UnderfundedCallerMints | crates/evm/src/handler.rs:133-134 | under every engine that keeps the law and runs it, an otherwise valid transaction of an underfunded caller is accepted and increases the supply |
| Handler.EmptyAccountMints | crates/evm/src/handler.rs:133-134 | a concrete transaction from an account without balance that mints |
| Handler.TransactNonces | crates/evm/src/handler.rs:110-134 | an accepted transaction has the caller's current nonce, no nonce falls, and the caller's rises if and only if it is a call or the balance after the charge covers the value |
| Handler.FundedUsesNonce | crates/evm/src/handler.rs:125-134 | a caller that covers charge and value, which the hook never asks for, always uses up its nonce |
| Executor.BlockExecutor.ExecuteTransactionWithoutCommit | crates/block/src/executor.rs:101-107 | the buffered result is that of the whole transaction and nothing is stored |
| Executor.BlockExecutor.CommitTransaction | crates/block/src/executor.rs:110-137 | any output can be committed: its gas is added to the 64-bit counter, the receipt carries the new count, and its state is stored |
| Executor.BlockExecutor.ExecuteTransaction | crates/block/src/executor.rs:101-137 | an accepted transaction extends the trace by one step, a failed one leaves everything unchanged |
| Executor.ReceiptPrefixSums | crates/block/src/executor.rs:119-131 | receipt i belongs to transaction i and carries the gas of the first i + 1 transactions |
| Executor.BlockConservation | crates/block/src/executor.rs:110-137 | over a block the supply grows by exactly the callers' shortfalls, and is conserved if and only if every caller covers its charge |
| Executor.LedgerAgreement | crates/evm/src/handler.rs:174-188 | over a block the treasury's credits are base fee times gas, the beneficiary's credits are the builder's fee total, and that total cannot wrap |
| Executor.BlockIncome | crates/evm/src/handler.rs:164-245 | the balances themselves move by these sums, for every account and every aliasing of the roles |
| Executor.NoncesIncrease | crates/evm/src/handler.rs:110-120 | in a block the nonces of one caller never fall, and a transaction that uses up its nonce is never executed again, whatever the candidates repeat |
| Executor.ReplayExact | crates/block/src/executor.rs:101-137 | importing succeeds with given steps if and only if they are a trace of exactly these transactions |
| Inclusion.GreedyExact | crates/payload/src/builder.rs:146-177 | the builder's loop includes each candidate if and only if it is accepted on the state its included predecessors left, and gives up if and only if one fails fatally in its turn |
| Inclusion.CallsIncludedWhole | crates/payload/src/builder.rs:146-177 | otherwise valid calls of any callers are all included if and only if each carries the nonce its caller has reached by its turn |
| Inclusion.ConsecutiveCallsIncluded | crates/payload/src/builder.rs:146-177 | a run of one caller's calls with consecutive nonces from its current one is included whole and uses up those nonces |
| Inclusion.UnusedNonceRepeats | crates/evm/src/handler.rs:110-134 | a transaction that leaves its nonce unused passes every check of the hooks again on the state it left |
| Inclusion.UnusedNonceRunsTwice | crates/payload/src/builder.rs:146-177 | under an engine that refuses nothing every such transaction is put into the block twice when it is offered twice |
| Inclusion.CreationRunsTwice | crates/evm/src/handler.rs:117-134 | a concrete creation with value from an empty account that one block contains twice |
| Inclusion.BuiltBlockReplays | crates/payload/src/builder.rs:146-177 | executing only the included transactions, with no skipping, goes through the same states, gas and receipts |
| Inclusion.GreedyGasBound | crates/payload/src/builder.rs:146-177 | the built block's gas is at most the sum of the candidates' gas limits |
| SystemCall.KasplexEvm.TransactSystemCall | crates/evm/src/alloy.rs:149-210 | for every outcome of the inner run the settings are restored, the run was a call without value at price zero under gas limit 30000000, base fee zero and no nonce check, and a result mentions the contract alone |
| SystemCall.SystemCallIsFeeNeutral | crates/evm/src/alloy.rs:155-188 | the deduction passes and neither it nor the settling hooks change any balance, without a condition on balances or supply |
| Numbers.ExpiryWindow | crates/tx_mapping/src/lib.rs:146-158 | the expiry test means "outside a window of a hundred blocks" exactly when the window ends below 2^64 |
| Numbers.RetentionBoundary | crates/tx_mapping/src/lib.rs:146-158 | a hundred blocks after submission is not expired, a hundred and one is |
| Numbers.TxMapping.GetTxNumber | crates/tx_mapping/src/lib.rs:96-99 | returns the number or zero and removes exactly that hash |
| Numbers.TxMapping.ConsumeAll | crates/rpc/src/engine/validator.rs:405-416 | the loop removes exactly the hashes of the block |
| Numbers.WriteBackKeepsView | crates/primitives/src/engine/mod.rs:54-70 | storing back get-or-zero numbers is invisible to every reader of numbers and leaves an entry for every hash of the block |
| Numbers.AssignedIsWriteBack | crates/primitives/src/engine/mod.rs:54-70 | the insertion loop is that write-back even when hashes repeat |
| Numbers.ConsumeAfterAssign | crates/rpc/src/engine/validator.rs:364-416 | whatever a sidecar stored for the block's hashes first, consuming leaves the original map without them, and repeating it changes nothing |
| TxPool.KeepConcat | crates/txpool/src/lib.rs:45-135 | a cleanup judges each transaction by itself and keeps the order |
| TxPool.HandleKasplexPoolReorg | crates/txpool/src/lib.rs:24-148 | both sub-pools lose exactly the transactions expelled at the new head, the map is unchanged and the reorg flag is down; nothing happens off Kasplex |
| TxPool.RemoveIncludedTransactions | crates/txpool/src/lib.rs:154-231 | exactly the block's transactions leave the pool, in order, and the result counts them |
| TxPool.CleanupExact | crates/txpool/src/lib.rs:56-114 | a transaction remains if and only if its number is absent, zero, or has the head in its unwrapped window |
| TxPool.CleanupsIntersect | crates/txpool/src/lib.rs:56-135 | cleanups are idempotent and commute, and two of them keep what belongs to both windows |
| TxPool.QueriesAgree | crates/txpool/src/lib.rs:238-252 | both published expiry queries decide like the cleanup for every stored number except zero |
| Validator.BlockToPayload | crates/primitives/src/engine/mod.rs:32-77 | the payload is the block's under its own hash and the numbers are written back |
| Validator.ConversionIdempotent | crates/primitives/src/engine/mod.rs:54-70 | converting again stores nothing new and reports the same numbers |
| Validator.ProcessKasplexExecutionData | crates/rpc/src/engine/validator.rs:344-420 | a decoded payload leaves the original map minus exactly the block's hashes for every sidecar; an undecodable one leaves it alone |
| Validator.EnsureWellFormedPayload | crates/rpc/src/engine/validator.rs:129-284 | accepted if and only if the payload decodes, its hash is zero or the restored header's, and every transaction has a signer; otherwise the exact error; the numbers are consumed even when the hash is wrong |
| Validator.OwnPayloadAccepted | crates/rpc/src/engine/validator.rs:222-283 | the payload made from a representable block passes the hash check and is accepted as that block without ommers and withdrawals |
| Validator.ForeignHashRefused | crates/rpc/src/engine/validator.rs:222-281 | under any other hash than zero and its own the same payload is refused with both hashes named |
| Engine.KasplexNode.SendRawTransaction | crates/rpc/src/eth/auth.rs:258-319 | is the submission step, and outright: past the fee floor the number becomes the latest plus one and no other number changes, also when the pool refuses; a refused transaction leaves both sub-pools alone |
| Engine.KasplexNode.NewPayloadV2 | crates/rpc/src/engine/api.rs:106-166 | is the new-payload step, and outright: exactly the decoded hashes lose their entries, and exactly the found block's transactions leave the pool, after an accepted status only |
| Engine.KasplexNode.ForkChoiceUpdatedV2 | crates/rpc/src/engine/api.rs:169-229 | is the forkchoice step, and outright: a pool transaction stays if and only if nothing is pruned, it has no number, or the resolved head is at most a hundred blocks above it; numbers are unchanged and the reorg flag ends down |
| Engine.KasplexNode.BuildPayload | crates/payload/src/builder.rs:138-222 | a completed job is a build step, any other leaves the state alone, and no reader notices either |
| Engine.KasplexNode.ConvertBlock | crates/primitives/src/engine/mod.rs:54-70 | is the conversion step, which no reader notices |
| Lifecycle.RunClosedForm | crates/rpc/src/engine/api.rs:106-229 | a run between two submissions with found valid blocks has a closed form in its first state: who is gone and whose number is zero |
| Lifecycle.OrderIndependence | crates/rpc/src/engine/api.rs:106-229 | pool and visible numbers after such a run depend only on which events happened, not on order or repetition |
| Lifecycle.PermutationIndependence | crates/rpc/src/engine/api.rs:106-229 | in particular every rearrangement of the events gives the same result |
| Lifecycle.PayloadForkchoiceCommute | crates/rpc/src/engine/validator.rs:189-230 | without that assumption payload and forkchoice update commute if and only if no pool transaction is consumed, left in the pool and expelled by the head |
| Lifecycle.RunSurvival | crates/txpool/src/lib.rs:56-135 | a transaction that is left alone stays in the pool over a run if and only if no head of the run expels its number |
| Lifecycle.StampedSurvival | crates/rpc/src/eth/auth.rs:286-302 | a transaction stamped under head n survives a run if and only if every new head lies in [n+1, n+101], whether this submission was admitted or refused because the pool held it already, with the exact behaviour at the top of the number range |
| Lifecycle.NumbersFollowHeads | crates/rpc/src/eth/auth.rs:286-302 | every stored number is at most one above the highest head seen, so pruning does not wrap for heads below 2^64 - 101 |
| Config.CellsDecide | crates/block/src/config.rs:141-183 | set cells decide base fee and extra data, empty ones leave them to the parent, and nothing else depends on the cells |
| Builder.PrepareNextBlock | crates/payload/src/builder.rs:105-132 | whatever the cells held, the next block's environment and context carry this job's base fee and extra data, and the cells are empty afterwards |
| Builder.ExecuteCandidate | crates/payload/src/builder.rs:146-177 | one candidate, skipped or included, keeps numbers aligned with the included transactions and the fee total equal to their sum |
| Builder.ExecuteCandidates | crates/payload/src/builder.rs:146-177 | for every pattern of skips number i belongs to the i-th included transaction; cancellation and fatal errors end the loop where the source does |
| Builder.StoreNumbers | crates/payload/src/builder.rs:185-207 | the indexed write-back is the get-or-zero write-back of the block's hashes |
| Builder.KasplexPayload | crates/payload/src/builder.rs:84-218 | one job: how it ends is exactly as in JobEnds and depends on its own attributes alone, whatever the cells held, the cells are not left full, and only a completed job touches the map |
| Builder.JobEnds | crates/payload/src/builder.rs:84-218 | a job completes if and only if it starts, is not cancelled, finishes and meets no fatal candidate, whatever was included, and is cancelled if and only if it was reached without one; the block has the job's own parent, time, limits, base fee and extra data and the roots of a best effort at its candidates |
| Builder.JobEndsWithoutFatal | crates/payload/src/builder.rs:146-179 | under an engine that never aborts, completion and cancellation depend on the job's own conditions alone |
| Builder.EmptyJobFreezes | crates/primitives/src/payload/builder.rs:69-76 | a job without candidates, as after a list that does not decode, completes with an empty block |
| Builder.PayloadBuilder.RunJobs | crates/payload/src/builder.rs:56-61 | over any sequence of jobs, each on a clone that shares the cells, every outcome is that of its own job alone, the cells are empty after every job, and the map is the chain of write-backs, which no reader notices |
| Builder.FrozenBlockLedger | crates/payload/src/builder.rs:173-215 | the built header has the job's base fee, extra data and beneficiary and the state root of the executed trace, its fee total is what the beneficiary was credited, and base fee times header gas is what the treasury was credited |
| Builder.FrozenBlockRoundTrip | crates/block/src/assembler.rs:72-102 | the built block comes back from its payload with withdrawals absent instead of empty and otherwise the same, if and only if the extra data is at most 32 bytes |
| Blocks.PayloadRoundTrip | crates/rpc/src/engine/validator.rs:350-361 | payload conversion and back gives the same header and transactions, without ommers and withdrawals, if and only if the header is representable; otherwise the header with the constants, and too much extra data is refused |
| Blocks.RestoredExactly | crates/rpc/src/engine/validator.rs:344-361 | which payloads are refused and why, and every other one is read back as a block whose own payload is the given one, up to the encoding of its transactions |
| Blocks.PayloadRestoresItself | crates/primitives/src/engine/mod.rs:48-76 | with one encoding for each transaction, payload to block and back is the identity |
| Blocks.AssembledRoundTrip | crates/block/src/assembler.rs:51-103 | an assembled block is restored, with withdrawals absent instead of empty, if and only if it has no beacon root, zero difficulty and short extra data; its payload carries the execution results and the environment |
| Selection.TxPoolContent | crates/rpc/src/eth/auth.rs:123-197 | the returned list is a prefix of the base-fee-filtered pending transactions, each admitted under the 64-bit sums and the next one not |
| Selection.EligibleConcat | crates/rpc/src/eth/auth.rs:145-150 | each transaction is judged by its own cap and the order is the pool's |
| Selection.LongestFitIsLongest | crates/rpc/src/eth/auth.rs:157-163 | a prefix fits both budgets if and only if it is no longer than the longest one |
| Selection.SelectionExact | crates/rpc/src/eth/auth.rs:157-168 | the list is the longest fitting prefix with exact sums if and only if the first transaction over budget does not wrap a sum back below both budgets |
| Selection.NoOverflowSuffices | crates/rpc/src/eth/auth.rs:157-163 | gas limits and sizes that cannot overflow on top of a full budget are enough for that |
| Selection.OverflowUnseen | crates/rpc/src/eth/auth.rs:157-158 | three distinct transactions, each within the largest header gas limit, are all returned under the largest budget, at more gas than it and with an estimate that hides this |
| Selection.BudgetsMonotone | crates/rpc/src/eth/auth.rs:157-168 | raising either budget only extends the list that the loop returns, even where sums wrap |
| Selection.InsertWithMinTip | crates/rpc/src/eth/auth.rs:205-252 | a sender and nonce are listed if and only if a transaction of theirs has enough tip, and what is listed is the last such transaction |
| Selection.ThreeTipsAgree | crates/rpc/src/eth/auth.rs:216-227 | where the fee cap covers the base fee, the RPC's, the builder's and the engine's tips are equal |
| Selection.ListedIffCredited | crates/rpc/src/eth/auth.rs:216-230 | an executed transaction that used gas has enough tip for the listing if and only if the beneficiary is credited at least that tip for each unit of gas |
| Consensus.ChainShape | crates/consensus/src/validation.rs:118-146 | in an accepted chain timestamps never decrease between any two headers, numbers count up, parent hashes link, and the base fee is fixed after the first header |
| Consensus.AcceptedChainExact | crates/consensus/src/validation.rs:118-146 | a header sequence is accepted if and only if each header has the next number, the parent's hash, base fee 2000 GWei and a timestamp not before its parent's |
| Consensus.EqualTimestampsAccepted | crates/consensus/src/validation.rs:128-134 | a linked chain of equal timestamps is accepted |
| Consensus.LinkRefusals | crates/consensus/src/validation.rs:118-146 | each refusal is given exactly when its rule is the first one broken |
| Consensus.HeaderExact | crates/consensus/src/validation.rs:96-115 | exactly the headers with the post-merge constants, extra data of at most 32 bytes, gas within a limit below 2^63 and base fee 2000 GWei pass the standalone rules |
| Consensus.ValidHeaderSurvivesPayload | crates/consensus/src/validation.rs:96-115 | a block whose header passes the standalone rules comes back from its payload with the same header and transactions, and without ommers and withdrawals |
| Chain.ChainTreasuryIncome | crates/consensus/src/validation.rs:125-143 | over an accepted chain the base fees credited to the chain's treasury after the first block are 2000 GWei times the gas used, and times the headers' gas while no block overflows the counter |
| Chain.ChainTreasuryBalance | crates/evm/src/handler.rs:174-188 | the balance of the chain's treasury account has grown since the first block by 2000 GWei for every gas used and by what it earned in its other roles, while the supply grew by the callers' shortfalls |
| Chain.TreasuryOnlyGrows | crates/evm/src/handler.rs:174-188 | a treasury that sends nothing and that execution does not take from holds at least 2000 GWei for every gas used since the first block |
| Chain.ListedBlockGasBound | crates/primitives/src/payload/builder.rs:69-86 | a block built from a returned list whose gas limits add up below 2^64 uses at most the estimated gas and so at most the budget, although the executor has no remaining-gas check |

## Left out

- The EVM interpreter, journal internals, state and receipt tries, RLP, signatures and hash functions: arbitrary functions under the assumptions above.
- EIP-4844 blob fees: Kasplex passes a blob price of zero.
- `kasplex_accept_tx_hash`, `is_kasplex_block`, `kasplex_allow_reorg`, the deleted set, `len` and `is_empty`: single-branch facts.
- RPC registration, JSON and hex parameters, CLI, network and node wiring; the `locals` parameter of `txPoolContent`, which the source computes and does not use.
- `payload_id_kasplex`: depends on a hash function alone.
- `sendRawTransactions`: a sequence of single submissions that ignores failures, so a run of submission steps.
- Locks and concurrent payload jobs: each operation and event is atomic, and two jobs do not overlap between setting and clearing the override cells.
- Movement of transactions between the pending and the queued sub-pool after a removal: the pool's own business; the model removes from each sub-pool and keeps the order.
- Receipt contents other than the transaction hash and cumulative gas; the bloom and the receipts root are arbitrary functions of the receipts.
- V2 and later payloads: the validator refuses them, and the model has them as one constructor.
- Execution settings that switch off base fee or balance checks for simulated calls.
- Numbers inserted by bulk replacement (`set_mapping`) or `clear`: no engine event uses them.
