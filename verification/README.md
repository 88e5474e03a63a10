# Clementine: verified models

Clementine is a Bitcoin bridge. A depositor's coin is moved under an N-of-N key of verifiers;
operators who pay withdrawals are reimbursed from it, and a zero-knowledge circuit proves
that they paid. This project models the parts of Clementine whose correctness spans many
calls, and proves what they promise.

`dafny verify dfyconfig.toml` checks everything. There is one module per file.

| Files | What they model |
|---|---|
| `Verifier`, `VerifierDatabase`, `VerifierRetry`, `VerifierOutcomes` | the four calls of a verifier, its tables, and when exactly each call succeeds |
| `Signing`, `Safety`, `AggregatedNonces`, `DepositHistory` | N verifiers under calls in any order: what must be signed before the move transaction, which message and which aggregated nonce a nonce slot serves, which call a deposit's nonces came from |
| `Aggregator`, `HonestSchedule`, `HonestRun` | the aggregator's transposing loops, the schedule in which every step succeeds, and that schedule as a run of the N verifiers |
| `Transactions` | the transaction builders, their satoshi accounting and the signed messages |
| `Operator`, `OperatorDatabase`, `KickoffAllocation`, `FundingChain` | the operator's kickoff allocator and the walk along its funding chain |
| `SymbolicBytes`, `Tape`, `MerkleSpec`, `IncrementalMerkle`, `MerkleProof`, `FullMerkle` | bytes and digests, the circuit's input tape, the Merkle trees and proofs |
| `TxFormat`, `TxReader`, `TxWriter`, `TxParser` | Bitcoin's non-witness serialization, the streaming reader and its writer, and parsers of the bytes |
| `ProofOfWork`, `Headers`, `Inclusion`, `BitcoinTree`, `Bridge`, `TapLeaf` | compact targets and work, header batches, inclusion of transactions, Bitcoin's transaction tree, one whole run of the circuit, the tap leaf it hashes |
| `BridgeTape`, `AcceptedRun` | which tapes the circuit accepts, exactly, and one that it does |
| `ClaimIndices`, `TaprootDepths` | the dyadic cover of unclaimed leaves, the leaf depths of a taproot script tree |
| `Bits`, `Wrappers` | powers of two and shifts, `Option`, `Result` and the errors |

## How it is modelled

- **Objects and loops** of the original are classes and methods with loops. Each method is
  proved equal to a function of its inputs or of the old state; the theorems are about those
  functions and about runs of them.
- **Panics and errors.** In the circuit and the builders `None` (or `Panic`) is a Rust panic.
  Elsewhere a call returns `Result`, with `Panicked` among the errors. An integer that
  overflows is a panic, as in a build with overflow checks; where the code asks for wrapping
  (`wrapping_add`) it wraps. `Headers.BuildsAgree` says what the header batch does otherwise.
- **Hashes.** A byte is a literal or a byte of the digest of a message, and a digest is a free
  constructor: no two messages share a digest and no digest contains a literal byte, so no
  header hash equals `EMPTYDATA`. For the proof of work each digest byte also has a numeric
  value, which is an arbitrary parameter (`Interpretation`) with no assumed properties. The four
  `PERIOD_CLAIM_MT_ROOTS` are hashes of leaves that the repository does not hold, so they are a
  parameter too.
- **Transactions, txids, scripts and sighashes** of the bridge are free datatypes; a `Txid`
  holds the transaction it identifies.
- **Signatures.** A partial signature fixes signer, secret nonce, aggregated nonce, message
  and tweak. In a run of N verifiers a valid signature by the N-of-N key can be an argument
  of a call only if every verifier has released a partial signature on its message. All
  verifiers share one configuration, in which `num_operators` is the number of operator keys.
- **Interleaving.** In `Signing` any call may come next at any verifier. `burn_txs_signed` and
  `operator_take_txs_signed` are not database transactions, so they may check and sign over
  rows they read before other calls were served.
- **Tables.** A query is an atomic update of a map or sequence, a failed call inside a
  database transaction leaves the rows as they were, and a serial id is a position. Batches
  number their rows from 0, so a deposit's rows form a sequence. An empty batch is an error,
  because the statement built for it has no values.
- **The node, Citrea and randomness** are parameters: the set of known transactions, the
  answer about a deposit or a withdrawal, the generated secret nonces.
- `core/src/merkle.rs` and `core/src/env_writer.rs` are commented out in the repository. They
  are modelled as the simple counterparts of the circuit's tree and reader.

Where the code and its comments disagree the code is followed. The comment above the
`nonces` table speaks of 2 + num_operators nonces for a deposit; the code generates and uses
2 * num_operators + 1. The comment of `read_blocks_and_add_to_merkle_tree` names block
heights; the code returns the chain hash after the first n - max_block_handle_ops headers.

## What is false, and when exactly it holds

- Writing a transaction to the tape and reading it back gives the transaction if and only if
  no output script is empty: length 0 is the reader's taproot flag (`TxRoundTripIff`). One
  empty output script fails it (`EmptyScriptIsMisread`).
- Dividing 2^256 - 1 instead of 2^256 gives the exact work, for exponents 4 to 32, if and only
  if the mantissa is not zero (`WorkExactIff`). The bits 0x20000000 fail it (`ZeroMantissaWork`).
- The decoded target is the compact form's integer, for exponents up to 32, if and only if the
  exponent is at least 4 or that integer is zero (`DecodedIsCompactIff`). Exponent 3 with
  mantissa 256 decodes to 256^31 (`ShortTargetIsHuge`).
- The operator's input waits for all the configured blocks if and only if they are fewer than
  65536, and meets the script's lock if and only if bit 22 of the number is clear or bit 31
  is set (`TakesLock`): the builder keeps the lower 16 bits.
- The kickoff transaction's fee is its virtual size if and only if it has at most 65533
  kickoffs (`KickoffFeeIsVirtualSize`, `FeeFallsShortAt65534`).
- The operator's walk finds a parent if and only if a known ancestor lies within 24 links
  (`WalkFindsIff`). A parent that is 25 links away is not found (`TwentyFiveLinksAreTooMany`).
- The claim proof is for the number of withdrawals, whatever the claim tree, if and only if
  there are fewer than 16: the tree has four levels, so the index counts modulo 16
  (`ClaimNamesCountIff`). Sixteen withdrawals pass with the proof for none, which is for
  another leaf (`SixteenWithdrawalsPassAsNone`).
- One paying output can stand behind two leaves of the withdrawal tree if and only if they
  name one address (`OutputIsSharedIff`): the same withdrawal proof is accepted any number of
  times (`SomeRunIsAccepted`).
- The two Merkle trees report one root if and only if the first and the last window of
  2^depth leaves hold the same leaves, which within the capacity they do (`CrossCheck`). Two
  leaves at depth 0 fail it (`RootsDifferPastCapacity`).
- No two stored generator transactions spend one output if and only if every call that
  generates one found the latest funding outpoint unspent by those stored
  (`StepKeepsDistinctIff` for a call, `RunKeepsDistinctIff` for a run). It is enough that
  hand-set funding UTXOs are genuine, that is, carry the output their outpoint really has at
  the operator's own address (`GeneratorsSpendDistinctOutputs`). `SameOutpointTwice` sets one
  outpoint twice with two values, and both transactions are stored.
- A generator in the broadcast list spends its predecessor's change and accounts for all of it
  if and only if the funding UTXO it was made of names that change and its value
  (`ChainSpendsChangeIff`); genuine funding UTXOs do (`ChainSpendsChange`).
- After a second list of aggregated nonces a slot that signed before signs the same again if
  and only if the list agrees at the slot or does not reach it (`SameAgainIff` with
  `KickoffsSignedAgain`, `BurnSignsAgain` and `TakesSignAgain` for the three kinds of slots);
  when all lists agree, everything out of the slot carries one aggregated nonce
  (`SlotHasOneAggregate`). `SecondListExample` is an input that fails.
- With a move signed over every kickoff its verifier stores, all configured operators can be
  reimbursed if and only if these kickoffs are as many as the operators (`AllReimbursableIff`).
  In `SecondOperatorLeftOut` a move is fully signed over the first operator's kickoff only.

## Model

| member | source | states |
|---|---|---|
| `Safety.MoveIsSignedLast` | core/src/verifier.rs:319-530 | over every run of N verifiers and at every signing of a move transaction, each stored kickoff the verifier went by has both slash_or_take and operator_takes fully signed, and all verifiers store the same UTXO at that operator |
| `Safety.FullySignedMoveIsCovered` | core/src/verifier.rs:319-530 | once the move transaction is fully signed, every verifier has signed it, each time over agreed kickoffs, and stores the depositor's data it commits to |
| `Safety.BridgeFundIsCovered` | core/src/verifier.rs:319-530 | over every run and at every signing of a move, each kickoff gone by has a fully signed, tweaked message that spends output 0 of that move by the N-of-N key, together with the time-locked output of a slash_or_take that spends this kickoff, to this operator's wallet |
| `Safety.OperatorReimbursableIff` | core/src/verifier.rs:319-530 | for a move signed over all stored kickoffs an operator can be reimbursed exactly when it has one of them |
| `Safety.AllReimbursableIff` | core/src/verifier.rs:164-166 | so all configured operators can exactly when the kickoffs are as many as the operators |
| `HonestRun.MoveLeavesOperatorsOut` | core/src/verifier.rs:164-223 | with kickoffs of the first operators only, the move is still fully signed in the end, and exactly these operators can be reimbursed |
| `HonestRun.SecondOperatorLeftOut` | core/src/verifier.rs:164-223 | an instance with two operators and one kickoff |
| `Safety.SlotServesOneMessage` | scripts/schema.sql:30-54 | over every run each released partial signature is over the message bound to its slot, with the slot's nonce; one slot never serves two messages; every slot is among the 2n+1 |
| `Safety.SlotTellsKind` | core/src/verifier.rs:239-516 | the slots 0, 1..n and n+1..2n serve exactly the move, operator_takes and slash_or_take messages |
| `Safety.MessageUsesOneSlot` | core/src/verifier.rs:239-516 | no verifier signs one message out of two slots or for two deposits |
| `AggregatedNonces.SlotHasOneAggregate` | core/src/database/common.rs:414-446 | over every run, when the lists given to a verifier for a deposit agree at a slot, every partial signature out of the slot carries that aggregated nonce |
| `AggregatedNonces.KickoffsSignedAgain` | core/src/verifier.rs:229-270 | after any further list operator_kickoffs_generated signs the same slash_or_take messages again, by the same nonces, with the list's sums where it reaches |
| `AggregatedNonces.BurnSignsAgain` | core/src/verifier.rs:319-411 | so does burn_txs_signed, after any list, for operator_takes |
| `AggregatedNonces.TakesSignAgain` | core/src/verifier.rs:416-530 | so does operator_take_txs_signed for the move |
| `AggregatedNonces.BoundSignsAgain` | core/src/database/common.rs:368-446 | the same for any slots and any list |
| `AggregatedNonces.SameAgainIff` | core/src/database/common.rs:414-446 | the two signatures out of a slot are the same exactly when the list agrees there or does not reach it |
| `AggregatedNonces.SecondListExample` | core/src/verifier.rs:229-270 | an input for that: one operator, three nonces, two lists |
| `AggregatedNonces.PerformAggs` | core/src/verifier.rs:77-530 | every call signs with the aggregated nonces of the rows it leaves, and only operator_kickoffs_generated sets them |
| `Safety.TakesSignerStores` | core/src/verifier.rs:319-411 | whoever signed operator_takes stores that kickoff at that operator, and slash_or_take was fully signed before |
| `Safety.NextKeeps` | core/src/verifier.rs:77-530 | every call with any arguments keeps the protocol invariant |
| `Safety.RunKeeps` | core/src/verifier.rs:77-530 | so does every run |
| `Safety.NextIsLater` | core/src/database/common.rs:262-263 | no call takes back a signature or rewrites deposit data, a nonce, a bound sighash or a stored kickoff (first write wins) |
| `Signing.BindAndSignFacts` | core/src/database/common.rs:368-410 | what is signed sits in the slots it was bound to and uses their nonces; bound slots never change |
| `Signing.PerformFacts` | core/src/verifier.rs:77-530 | what each call signs, in terms of the rows it leaves |
| `DepositHistory.NoncesComeFromValidDeposit` | core/src/verifier.rs:83-136 | over every run: if a verifier holds nonces for a deposit, the run contains a new_deposit call there, for it, that found the deposit valid, and the stored data and secrets are that call's |
| `DepositHistory.SignedDepositWasValid` | core/src/verifier.rs:83-92 | so nothing is ever signed for a deposit that no call found valid |
| `DepositHistory.NewDepositFailsIff` | core/src/verifier.rs:83-136 | over every run new_deposit fails exactly for an invalid deposit, and then with that error |
| `DepositHistory.FirstNonces` | core/src/verifier.rs:77-136 | only new_deposit of a valid deposit makes nonces where there were none |
| `DepositHistory.RunKeepsInfo` | core/src/verifier.rs:113-136 | over every run depositor data and nonces are there together |
| `VerifierOutcomes.NewDepositFailsWhen` | core/src/verifier.rs:83-136 | on any rows: each failure of new_deposit with its condition, and success otherwise |
| `VerifierOutcomes.BindAndSignSucceedsIff` | core/src/database/common.rs:368-410 | signing succeeds exactly when there are messages and every stored slot they reach is free or holds its message, and has an aggregated nonce |
| `VerifierOutcomes.KickoffsGeneratedSucceedsIff` | core/src/verifier.rs:149-274 | succeeds exactly when lists match, each kickoff carries its value, its own operator's signature and script, and each slot n+1+i is free or holds that kickoff's message |
| `VerifierOutcomes.KickoffsGeneratedFailsWith` | core/src/verifier.rs:149-274 | the error otherwise: lists of different lengths, the first kickoff out of order with its own error, then an empty batch or a slot that is not ready |
| `VerifierOutcomes.KickoffsGeneratedLeaves` | core/src/verifier.rs:229-270 | a failed call leaves the rows as they were; a successful one has the new sums and the missing kickoffs and keeps the stored ones |
| `VerifierOutcomes.CheckKickoffIff` | core/src/verifier.rs:177-223 | one kickoff passes exactly with 100000 satoshis, the signature of the operator at its index and that operator's script |
| `VerifierOutcomes.BurnSucceedsIff` | core/src/verifier.rs:319-411 | succeeds exactly when each stored kickoff's transactions can be built, its slash_or_take is fully signed at its index and slot 1+i is free or holds its operator_takes |
| `VerifierOutcomes.BurnFailsWith` | core/src/verifier.rs:277-411 | the error otherwise |
| `VerifierOutcomes.BurnLeaves` | core/src/verifier.rs:382-411 | before its checks pass the call leaves the rows alone; from there on every row keeps the signature of its index, and bound messages stay bound, whatever fails later |
| `VerifierOutcomes.CheckSlashSigsIff` | core/src/verifier.rs:330-380 | the check of all signatures passes exactly when each index passes |
| `VerifierOutcomes.TakesSucceedIff` | core/src/verifier.rs:416-530 | succeeds exactly when each operator_takes is fully signed with the tweak and slot 0 is free or holds the move |
| `VerifierOutcomes.TakesFailWith` | core/src/verifier.rs:277-530 | the error otherwise |
| `VerifierOutcomes.TakesMessageIff` | core/src/verifier.rs:375-380 | an operator_takes message exists exactly for an operator with a wallet, its script, the value and amount bounds |
| `VerifierOutcomes.BurnStoresSignatures` | core/src/database/common.rs:449-478 | after burn_txs_signed each row holds the full signature on its own slash_or_take |
| `VerifierOutcomes.TakesStoreSignatures` | core/src/database/common.rs:506-538 | after operator_take_txs_signed each row holds the full signature on its own operator_takes, for distinct kickoffs |
| `VerifierOutcomes.KickoffsAreDistinct` | core/src/verifier.rs:416-530 | which they are when the operators' keys are |
| `Verifier.Verifier.NewDeposit` | core/src/verifier.rs:77-136 | the error of the deposit check before any table is touched, then new rows and nonces or the stored ones, with each error and the rollback; other deposits untouched |
| `Verifier.Verifier.OperatorKickoffsGenerated` | core/src/verifier.rs:149-274 | checks every kickoff in order, then saves nonces, kickoffs and sighashes and signs, or leaves the rows alone |
| `Verifier.Verifier.StoreAndSign` | core/src/verifier.rs:229-270 | the database transaction of the call, with its rollback |
| `Verifier.CheckKickoffs` | core/src/verifier.rs:177-223 | succeeds only when every kickoff carries at least 100000 satoshis, its operator's signature and the script slash_or_take asserts |
| `Verifier.FirstErrorStays` | core/src/verifier.rs:177-223 | the first failing kickoff decides the error |
| `Verifier.Verifier.CreateDepositDetails` | core/src/verifier.rs:277-313 | the stored kickoffs and the move message, or the three failures |
| `Verifier.Verifier.BurnTxsSigned` | core/src/verifier.rs:319-411 | demands a full signature on every slash_or_take, then binds and signs operator_takes; signatures saved before a failing statement stay |
| `Verifier.CheckSlashSigs` | core/src/verifier.rs:330-380 | gives the operator_takes messages only when each stored kickoff's slash_or_take has a full signature at its index |
| `Verifier.Verifier.OperatorTakeTxsSigned` | core/src/verifier.rs:416-530 | demands a full, tweaked signature on every operator_takes, then binds and signs the move |
| `VerifierDatabase.Database.SaveSighashesAndGetNonces` | core/src/database/common.rs:368-410 | binds the sighashes unless one differs from a bound one, and returns the affected rows in order |
| `VerifierDatabase.Database.SaveKickoffUtxos` | core/src/database/common.rs:236-273 | stored kickoffs stay, missing ones are appended |
| `VerifierDatabase.WithKickoffs` | core/src/database/common.rs:262-263 | every stored row is kept |
| `VerifierDatabase.Database.SaveAggNonces` | core/src/database/common.rs:414-446 | sets the aggregated nonces by index |
| `VerifierDatabase.Database.SaveNonces` | core/src/database/common.rs:300-328 | inserts the generated nonces in order, unless the deposit has rows already |
| `VerifierDatabase.Database.SaveDepositInfo` | core/src/database/common.rs:332-351 | the deposit is the primary key |
| `VerifierDatabase.Database.SaveSlashOrTakeSigs` | core/src/database/common.rs:449-478 | sets signatures by operator index |
| `VerifierDatabase.Database.SaveOperatorTakeSigs` | core/src/database/common.rs:506-538 | sets signatures by kickoff UTXO |
| `VerifierRetry.NewDepositRetry` | core/src/verifier.rs:99-111 | repeated, with whatever new randomness, the call answers the same and changes nothing |
| `VerifierRetry.KickoffsGeneratedRetry` | core/src/verifier.rs:149-274 | repeated, the call answers the same and changes nothing, also when it failed |
| `VerifierRetry.BurnTxsSignedRetry` | core/src/verifier.rs:319-411 | the same |
| `VerifierRetry.OperatorTakeTxsSignedRetry` | core/src/verifier.rs:416-530 | the same |
| `Aggregator.AggregatePubNonces` | core/src/aggregator.rs:204-220 | slot j gets the sum of every verifier's j-th nonce; panics on no lists, fails exactly when a list is shorter than the first |
| `Aggregator.AggregateSigs` | core/src/aggregator.rs:223-282 | the signatures of all indices in order, or the failure of the first index that fails; panics on no lists |
| `Aggregator.AggregateAtSigns` | core/src/aggregator.rs:235-255 | an index succeeds exactly with a message, a nonce and one matching partial signature of each verifier, and gives the full signature |
| `Aggregator.Column` | core/src/aggregator.rs:210-214 | the i-th element of every list, exactly when all have one |
| `HonestSchedule.RunSchedule` | core/tests/deposit.rs:41-264 | asked in the test's order, every call and every aggregation succeeds and the result is the move transaction's full signature |
| `HonestRun.MoveCanBeSigned` | core/tests/deposit.rs:41-264 | from empty tables there is a valid run of the N verifiers after which the move transaction is fully signed |
| `HonestRun.ExampleIsHonest` | core/tests/deposit.rs:41-264 | a setup of two verifiers and two operators, with one kickoff or with both, in which the schedule runs |
| `HonestRun.RoundIsEnabled` | core/tests/deposit.rs:141-222 | the signatures a round presents were signed by everyone in the round before |
| `HonestSchedule.SlotAggregates` | core/src/aggregator.rs:223-282 | partial signatures of one message out of the same slot of every verifier aggregate |
| `HonestSchedule.SumsAreSlotSums` | core/src/aggregator.rs:204-220 | what the aggregator makes of the first answers are the sums slot by slot |
| `HonestSchedule.GeneratedSucceeds` | core/src/verifier.rs:149-274 | the second call signs slash_or_take out of slots n+1..2n and leaves the lower slots free |
| `HonestSchedule.BurnedSucceeds` | core/src/verifier.rs:319-411 | the third signs operator_takes out of slots 1..n and leaves slot 0 free |
| `HonestSchedule.MovedSucceeds` | core/src/verifier.rs:416-530 | the fourth signs the move out of slot 0 |
| `Transactions.ReimbursementConserves` | core/src/builder/transaction.rs:153-289 | for an accepted kickoff all three transactions are built, operator_takes spends exactly the outputs built upstream with the values it assumes, and deposit plus kickoff is the operator's payout plus three named fees and three fee bumping outputs |
| `Transactions.ReimbursementBuiltIff` | core/src/builder/transaction.rs:153-289 | all three are built exactly for the asserted script, a bridge amount of 520, a kickoff of 570 and a sum of 1650 up to the u64 limit |
| `Transactions.MoveMessageSpends` | core/src/builder/transaction.rs:54-91 | a move message signs the deposit's N-of-N leaf, over the deposit outpoint and output, into an output of the N-of-N key |
| `Transactions.SlashMessageSpends` | core/src/builder/transaction.rs:153-226 | a slash_or_take message signs the only leaf of the kickoff output it spends, into an output with the operator's time lock, and names move transaction and operator |
| `Transactions.TakesMessageSpends` | core/src/verifier.rs:375-380 | an operator_takes message signs input 0, which is output 0 of the move transaction with that value and script; input 1 is output 0 of slash_or_take with the lock, and the payout goes to the operator's wallet |
| `Transactions.TakesLock` | core/src/builder/transaction.rs:228-289 | the input's relative lock against the script's: met exactly when bit 22 is clear or bit 31 set, and equal exactly below 65536 |
| `Transactions.MoveTxConserves` | core/src/builder/transaction.rs:34-51 | built exactly from 520 satoshis on; inputs minus outputs is the named fee |
| `Transactions.SlashOrTakeTxConserves` | core/src/builder/transaction.rs:153-226 | built exactly for the asserted script, a kickoff of 570 and a bridge amount of 520; inputs minus outputs is the named fee |
| `Transactions.KickoffTxConserves` | core/src/builder/transaction.rs:94-151 | inputs minus outputs is the computed fee |
| `Transactions.CreateKickoffUtxoTx` | core/src/builder/transaction.rs:94-151 | built exactly when the operator's funding guard holds: kickoffs, then change, then the fee bumping output |
| `Transactions.KickoffFeeIsVirtualSize` | core/src/builder/transaction.rs:101-111 | the fee equals the BIP 141 virtual size of the signed transaction exactly up to 65533 kickoffs |
| `Transactions.FeeFallsShortAt65534` | core/src/builder/transaction.rs:101-111 | one kickoff more and the fee is too small |
| `Transactions.KickoffOutputsAreAccepted` | core/src/verifier.rs:178-206 | each kickoff output has the value and script the verifiers demand |
| `Transactions.SlashSighashInjective` | core/src/builder/transaction.rs:153-226 | a slash_or_take message fixes deposit, kickoff and operator |
| `Transactions.TakesSighashInjective` | core/src/builder/transaction.rs:228-289 | so does an operator_takes message |
| `Transactions.MoveSighashInjective` | core/src/builder/transaction.rs:54-91 | a move message fixes deposit and depositor data |
| `Transactions.CreateTxIns` | core/src/builder/transaction.rs:300-313 | one input per outpoint, in order |
| `Transactions.CreateTxInsWithSequence` | core/src/builder/transaction.rs:315-328 | the same with a relative lock |
| `Transactions.CreateTxOuts` | core/src/builder/transaction.rs:330-341 | one output per pair, in order |
| `KickoffAllocation.NoKickoffUtxoAssignedTwice` | core/src/operator.rs:149-332 | over every run no kickoff UTXO goes to two deposits |
| `KickoffAllocation.AssignmentsMatchRows` | core/src/database/common.rs:58-108 | over every run each assigned UTXO is a kickoff output (never the change) of a stored generator transaction with the demanded value and script, all rows but the newest are used up, and assignments are as many as the rows count |
| `KickoffAllocation.AssignmentsNeverChange` | core/src/operator.rs:153-178 | over every run an assignment stays as it is |
| `KickoffAllocation.RunKeeps` | core/src/operator.rs:124-337 | every run keeps the one-to-one correspondence of deposits and handed out outputs |
| `KickoffAllocation.AssignOneMore` | core/src/database/common.rs:58-108 | handing out one more output to one more deposit keeps the correspondence |
| `KickoffAllocation.NewDepositIsIdempotent` | core/src/operator.rs:149-178 | a failed call changes nothing; a repeated one returns the same UTXO |
| `KickoffAllocation.NewDepositFailsWhen` | core/src/operator.rs:180-332 | on reachable tables the call fails exactly for an invalid deposit, or when no output is left and the funding is missing, short, for zero kickoffs or already used |
| `Operator.Operator.NewDeposit` | core/src/operator.rs:124-332 | the stored UTXO, the next unused one, or the first of a new generator transaction; every failure rolls back |
| `Operator.Operator.GenerateKickoffs` | core/src/operator.rs:209-332 | saves kickoff, row and change together or nothing |
| `Operator.Operator.SetFundingUtxo` | core/src/operator.rs:335-337 | appends the funding UTXO |
| `Operator.Operator.constructor` | core/src/operator.rs:74-88 | on first start an output of 200000000 satoshis at the operator's address becomes the funding UTXO |
| `Operator.Operator.WithdrawalProvedOnCitrea` | core/src/operator.rs:546-658 | the loop equals the recursive walk; then slash_or_take and operator_takes, with each error |
| `FundingChain.WalkFindsIff` | core/src/operator.rs:554-582 | the walk succeeds exactly when a known ancestor lies within its iterations |
| `FundingChain.TwentyFiveLinksAreTooMany` | core/src/operator.rs:554-582 | a known parent 25 links away is not found |
| `FundingChain.WalkFailsBecause` | core/src/operator.rs:554-582 | which of the two errors it ends in otherwise |
| `FundingChain.WalkReturnsChain` | core/src/operator.rs:546-574 | the list is broadcastable in order, nothing in it was known, its first parent is known, each link follows |
| `FundingChain.ResultIsBroadcastable` | core/src/operator.rs:576-658 | with the move transaction known the whole list is broadcastable: the chain, then slash_or_take spending the kickoff, then operator_takes spending both |
| `FundingChain.WithdrawalSucceedsIff` | core/src/operator.rs:546-658 | on reachable tables the call succeeds exactly when the withdrawal is proved, the deposit has a kickoff with a known ancestor within 24 links, both signatures are stored, the operator has a wallet and the amounts are in bounds |
| `FundingChain.WithdrawalFailsWith` | core/src/operator.rs:546-658 | which error it ends in otherwise |
| `FundingChain.ResultIsWhatWasSigned` | core/src/operator.rs:576-658 | the last two transactions of the list are those of the slash_or_take and operator_takes messages the verifiers sign for this kickoff |
| `FundingChain.KickoffIsPayable` | core/src/operator.rs:576-658 | an assigned kickoff can be reimbursed exactly within these amount bounds |
| `FundingChain.ChainSpendsChange` | core/src/builder/transaction.rs:94-126 | over every run whose funding UTXOs are real outputs at the operator's address, each generator in the list spends its predecessor's change, and the change is what it pays out plus its fee |
| `FundingChain.ChainSpendsChangeIff` | core/src/operator.rs:268-315 | over every run a link of the list pays from the predecessor's change exactly when the funding UTXO it was made of names that change and its value |
| `FundingChain.GeneratorsSpendDistinctOutputs` | core/src/operator.rs:211-315 | over every run with genuine funding UTXOs no two stored generator transactions spend one output |
| `FundingChain.StepKeepsDistinctIff` | core/src/operator.rs:180-315 | a call keeps the spent outputs distinct exactly unless it generates and the latest funding outpoint is spent by a stored transaction |
| `FundingChain.RunKeepsDistinctIff` | core/src/operator.rs:124-337 | over every run they are distinct exactly when no call did that |
| `FundingChain.SameOutpointTwice` | core/src/operator.rs:335-337 | a set_funding_utxo that names an outpoint again with another value fails it |
| `FundingChain.FundingLinksAreAcyclic` | core/src/database/common.rs:185-206 | no transaction is its own ancestor |
| `FundingChain.RunKeepsLinked` | core/src/operator.rs:124-337 | every run keeps the funding UTXOs genuine and the generators made of them |
| `OperatorDatabase.Database.GetUnusedKickoffUtxoAndIncreaseIdx` | core/src/database/common.rs:58-108 | takes the next output of the newest row that has one |
| `OperatorDatabase.NewestOpen` | core/src/database/common.rs:64-75 | the newest row below its count; every later row is used up |
| `OperatorDatabase.Database.AddDepositKickoffGeneratorTx` | core/src/database/common.rs:185-206 | appends a row with index 1 unless the txid exists or the index check fails |
| `OperatorDatabase.Database.SaveKickoffUtxo` | core/src/database/common.rs:158-180 | inserts unless the deposit is present |
| `Bridge.BridgeProofSound` | circuits/src/bridge.rs:208-336 | whenever bridge_proof returns: one hash-linked chain of headers each meeting its target, every withdrawal paid exactly the bridge amount in a block read by then, the reveal spends the commit output and lies in a read block, the committed preimages are those of the period's claim tree at the number of withdrawals modulo 16, the two light-client words are the chain hash before the last three headers of the last round and the root of the tree of the withdrawals' addresses, and period and final hash are the verifier's or the work is greater |
| `BridgeTape.AcceptedTapeHolds` | circuits/src/bridge.rs:208-336 | every accepted tape describes a transcript that meets all the conditions of a run |
| `BridgeTape.TranscriptIsAccepted` | circuits/src/bridge.rs:208-336 | every transcript that meets them has a tape, with each output printed by its own flag, that is accepted and read back as that transcript |
| `BridgeTape.AcceptedIffHolds` | circuits/src/bridge.rs:208-336 | a transcript is the reading of some tape exactly when it meets the conditions |
| `AcceptedRun.SomeRunIsAccepted` | circuits/src/bridge.rs:208-336 | for every address and number there is an accepted tape with three blocks and that many times one withdrawal |
| `AcceptedRun.MoreWorkIsAccepted` | circuits/src/bridge.rs:246-276 | a run with a wrong period or a wrong final hash is accepted when its work is greater than the challenge's |
| `AcceptedRun.OutputIsSharedIff` | circuits/src/bridge.rs:148-170 | an accepted run can let one paying output stand behind two leaves exactly when they name one address |
| `Bridge.OneOutputOneAddress` | circuits/src/bridge.rs:152-155 | withdrawals to different addresses are paid by different outputs |
| `Bridge.ClaimLeafIsAt` | circuits/src/bridge.rs:323-329 | under the root of known leaves the preimages are the leaf at total modulo 16 |
| `Bridge.ClaimNamesCountIff` | circuits/src/bridge.rs:323-329 | whatever the claim tree, an accepted proof is for the leaf at total, exactly below 16 |
| `Bridge.FullClaimTree` | circuits/src/bridge.rs:323-329 | from 16 on a full claim tree accepts another leaf |
| `Bridge.ClaimProofRepeats` | circuits/src/bridge.rs:323-329 | the same proof is accepted for sixteen withdrawals more |
| `Bridge.SixteenWithdrawalsPassAsNone` | circuits/src/bridge.rs:323-329 | sixteen withdrawals pass with the proof for none, which is for another leaf |
| `Bridge.TotalPowIsExact` | circuits/src/bridge.rs:229-259 | for targets of at least 5 * 2^32 the work an accepted run compares is the exact sum |
| `Bridge.BridgeProof` | circuits/src/bridge.rs:208-336 | returns exactly when the tape describes an accepted run, and returns that run's challenge; the light-client words must repeat what was computed |
| `Bridge.ReadAllRounds` | circuits/src/bridge.rs:219-244 | the rounds, with early end, work, trees and counters |
| `Bridge.ReadOneRound` | circuits/src/bridge.rs:220-242 | one round |
| `Bridge.FaceChallenge` | circuits/src/bridge.rs:246-276 | passes exactly when period and hash match or the work is greater |
| `Bridge.CheckClaim` | circuits/src/bridge.rs:287-329 | commit, reveal, placement and the claim proof against the period's root |
| `Bridge.ReadPreimagesAndCalculateCommitTaproot` | circuits/src/bitcoin.rs:122-149 | the hashed tap leaf and claim leaf of the preimages read |
| `TapLeaf.LeafScriptParses` | circuits/src/bitcoin.rs:122-149 | the message hashed for the commit address parses as a BIP 341 tap leaf of version 0xc0 whose script is the key, OP_CHECKSIG, OP_FALSE, OP_IF, the preimages in order and OP_ENDIF |
| `TapLeaf.ClaimLeafDigests` | circuits/src/bitcoin.rs:136-147 | the claim leaf hashes the digests of the preimages, in order |
| `TapLeaf.TaprootScriptInstructions` | circuits/src/bitcoin.rs:290-303 | the output script looked for is witness version 1 with the address |
| `Bridge.WithdrawalsArePaid` | circuits/src/bridge.rs:148-170 | every withdrawal of a run is paid by a transaction under a root of a block read by then |
| `Bridge.LeafIsWithdrawal` | circuits/src/bridge.rs:152-169 | every leaf of the withdrawal tree is the address of a withdrawal |
| `Bridge.RoundsHold` | circuits/src/bridge.rs:219-244 | the rounds keep the run's invariant |
| `Inclusion.PlacedInReadBlock` | circuits/src/bridge.rs:157-168 | a checked placement names a header that was read, at its place in the chain, with the folded Merkle root |
| `Inclusion.ReadWithdrawalProof` | circuits/src/bridge.rs:148-170 | accepts exactly a described withdrawal that holds, and appends its address to the tree |
| `Inclusion.ReadWithdrawalProofs` | circuits/src/bridge.rs:231-236 | the loop over a round's withdrawals |
| `Inclusion.ReadMerkleTreeProof` | circuits/src/bridge.rs:127-145 | the loop is the fold over the words read |
| `Inclusion.ReadAndVerifyBitcoinMerklePath` | circuits/src/bitcoin.rs:330-344 | the loop is the double-SHA fold over the words read |
| `BitcoinTree.PathAcceptedIff` | circuits/src/bitcoin.rs:330-344 | in Bitcoin's tree over any list of transactions a path of as many nodes as the tree has levels folds to the root exactly for the transaction the index selects and that transaction's siblings |
| `BitcoinTree.PathOfIsAccepted` | circuits/src/bitcoin.rs:330-344 | the siblings of every position fold to the root |
| `BitcoinTree.PlacedIsInBlock` | circuits/src/bridge.rs:152-168 | a withdrawal placed by such a path in a block of given transactions is paid by one of them |
| `BitcoinTree.StepIsParent` | circuits/src/bitcoin.rs:335-341 | one step with a node's sibling is its parent, the node on the side its index says |
| `BitcoinTree.StepDetermines` | circuits/src/bitcoin.rs:335-341 | and nothing else is |
| `BitcoinTree.TwoTransactions` | circuits/src/bitcoin.rs:335-341 | of two transactions the left one is hashed first |
| `Headers.ReadBlocksAndAddToMerkleTree` | circuits/src/bridge.rs:24-55 | work mod 2^256, light-client hash and final hash of the batch, and every block hash appended to the tree; panics exactly when the tape describes no such batch |
| `Headers.ReadBlocksAndCalculateWork` | circuits/src/bridge.rs:61-83 | the work of the k-deep batch |
| `Headers.BatchesCompose` | circuits/src/bridge.rs:24-55 | two batches accept and give what one batch of all headers does |
| `Headers.LcBlockHashMeaning` | circuits/src/bridge.rs:34-41 | the light-client hash is the chain hash after the first n - max_block_handle_ops headers |
| `Headers.BuildsAgree` | circuits/src/bridge.rs:34-38 | without overflow checks the batch reads the same, except that one of fewer than max_block_handle_ops headers is accepted with zero bytes as its light-client hash |
| `Headers.WrappedIndexIsMet` | circuits/src/bridge.rs:36 | the wrapped difference is an index of the loop exactly when the plain one is |
| `Headers.BlockHashCommits` | circuits/src/bridge.rs:110-122 | a block hash fixes its header and predecessor |
| `TxParser.ParseHashedHeader` | circuits/src/bridge.rs:110-122 | a block hash is the double hash of 80 bytes that parse, at Bitcoin's offsets, as the predecessor and the header's fields |
| `Headers.WorkOfIs` | circuits/src/bitcoin.rs:91-95 | for exponents 4 to 32 and a nonzero mantissa a header's work is floor(2^256 / (target + 1)) |
| `Headers.WorkDoesNotWrap` | circuits/src/bridge.rs:257-259 | targets of at least 5 * 2^32 make the accumulated sum exact |
| `Headers.ReadHeaders` | circuits/src/bridge.rs:34-47 | every accepted header meets its own target |
| `Headers.MeetsTargetIff` | circuits/src/bitcoin.rs:18-33 | a header passes, for exponents 4 to 32, exactly when its hash is at most the target; what it compares with below 4; above 32 none passes |
| `Headers.NextBlock` | circuits/src/bridge.rs:39-46 | hash, threshold test and work of one header |
| `ProofOfWork.DecodeCompactTarget` | circuits/src/bitcoin.rs:52-74 | the 32 bytes, or the panic of an index out of range |
| `ProofOfWork.DecodedTargetValue` | circuits/src/bitcoin.rs:66-71 | for exponents 4 to 32 the bytes are mantissa * 256^(exponent - 3) |
| `ProofOfWork.DecodedIsCompactIff` | circuits/src/bitcoin.rs:52-74 | for exponents up to 32 the decoded bytes are the compact form's integer exactly from exponent 4 on or where it is zero |
| `ProofOfWork.ShortDecodedValue` | circuits/src/bitcoin.rs:60-65 | for exponents up to 3, what the bytes are instead |
| `ProofOfWork.ShortTargetIsHuge` | circuits/src/bitcoin.rs:60-65 | exponent 3 with mantissa 256 decodes to 256^31 |
| `ProofOfWork.DecodesToTarget` | circuits/src/bitcoin.rs:52-74 | the decoded bytes are the target read out of quotient and remainder of the bits by 2^24 |
| `ProofOfWork.CheckHashValid` | circuits/src/bitcoin.rs:76-89 | the scan from byte 31 decides the integer order |
| `ProofOfWork.ThresholdIff` | circuits/src/bitcoin.rs:18-33 | succeeds exactly when the hash is at most the target, and then adds the exact work |
| `ProofOfWork.ValidateThresholdAndAddWork` | circuits/src/bitcoin.rs:18-33 | decode, test and add, with the panics |
| `ProofOfWork.WorkExactIff` | circuits/src/bitcoin.rs:91-95 | dividing 2^256 - 1 gives floor(2^256 / (target + 1)) exactly for a nonzero mantissa |
| `ProofOfWork.ZeroMantissaWork` | circuits/src/bitcoin.rs:91-95 | a zero mantissa at exponent 32 gives one less |
| `ProofOfWork.OddDivisorOfPow2` | circuits/src/bitcoin.rs:91-95 | an odd divisor of a power of two is 1, why the quotients agree |
| `TxReader.ReadTxAndCalculateTxid` | circuits/src/bitcoin.rs:247-328 | the double SHA-256 of exactly the serialization of the transaction described; panics exactly without one or without the required input or output |
| `TxReader.HashedBytesDetermineTransaction` | circuits/src/bitcoin.rs:247-328 | two accepted tapes that hash the same bytes describe the same transaction |
| `TxReader.UpdateHasherWithVarint` | circuits/src/bitcoin.rs:222-232 | absorbs the variable length integer |
| `TxReader.ReadChunksAndUpdateHasher` | circuits/src/bitcoin.rs:234-245 | absorbs exactly byte_len bytes of the chunks |
| `TxReader.ReadInputsAndUpdateHasher` | circuits/src/bitcoin.rs:263-284 | absorbs the inputs' serialization and finds the required one |
| `TxReader.ReadOutputsAndUpdateHasher` | circuits/src/bitcoin.rs:288-317 | absorbs the outputs' serialization and finds the required one |
| `TxFormat.SerializeInjective` | circuits/src/bitcoin.rs:259-324 | the serialization is uniquely decodable |
| `TxFormat.TxidCommits` | circuits/src/bitcoin.rs:324-327 | a txid fixes the whole transaction |
| `TxParser.TxidOfParsedBytes` | circuits/src/bitcoin.rs:247-328 | an accepted tape's txid is the double hash of bytes that a parser of Bitcoin's format reads as the transaction described |
| `TxParser.ParseSerialized` | circuits/src/bitcoin.rs:259-324 | every transaction is parsed back from its serialization |
| `TxParser.ParseVarInt` | circuits/src/bitcoin.rs:222-232 | so is every variable length integer: its marker tells how many bytes follow, least significant first |
| `TxFormat.VarIntPrefix` | circuits/src/bitcoin.rs:222-232 | no variable length integer is a prefix of another |
| `TxWriter.WriteTxToEnv` | core/src/env_writer.rs:42-99 | the disabled writer appends exactly the items of the transaction |
| `TxWriter.TxRoundTripIff` | core/src/env_writer.rs:42-99 | reading what was written gives the transaction back exactly when no output script is empty |
| `TxWriter.EmptyScriptIsMisread` | core/src/env_writer.rs:81 | one output with an empty script is not read back |
| `TxWriter.WrittenTxAcceptedIff` | circuits/src/bitcoin.rs:277-323 | the required input and output are accepted exactly when such an input or taproot output exists |
| `TxWriter.TxEntryRoundTrip` | circuits/src/bitcoin.rs:247-328 | whatever some tape describes, flags included, is read back from its own items |
| `TxWriter.EntryAcceptedIff` | circuits/src/bitcoin.rs:277-323 | what a tape describes is accepted exactly when it has the required outpoint among its inputs and, among the outputs flagged as taproot, the required script and amount |
| `TxWriter.FlagDecides` | circuits/src/bitcoin.rs:299-316 | one transaction, with one txid, is accepted with its output flagged and refused without |
| `IncrementalMerkle.IncrementalMerkleTree.Add` | circuits/src/incremental_merkle.rs:39-55 | appends the leaf, keeps the cached left siblings, and the root is that of the padded tree |
| `IncrementalMerkle.IncrementalMerkleTree.constructor` | circuits/src/incremental_merkle.rs:31-37 | the empty tree |
| `IncrementalMerkle.AddAll` | circuits/src/incremental_merkle.rs:39-55 | after any sequence of adds within capacity the root is the padded root over all leaves |
| `IncrementalMerkle.BuildZeroes` | circuits/src/constants.rs:55-61 | the table holds the roots of the empty subtrees |
| `IncrementalMerkle.CacheStep` | circuits/src/incremental_merkle.rs:44-49 | the entry kept or overwritten is the complete left sibling wherever the counter's bit is one |
| `IncrementalMerkle.PathStep` | circuits/src/incremental_merkle.rs:44-51 | the hashed children are the padded tree's |
| `MerkleSpec.RootCommits` | circuits/src/incremental_merkle.rs:50-53 | leaf lists of one length with one root are equal |
| `MerkleSpec.SameRootsIff` | circuits/src/incremental_merkle.rs:50-53 | two subtrees have one root exactly when they hold the same leaves |
| `MerkleProof.ProofAcceptedIff` | circuits/src/bridge.rs:127-145 | a proof folds to the padded root exactly for the padded leaf at index mod 2^D and its own siblings |
| `MerkleProof.FoldComplete` | circuits/src/bridge.rs:134-142 | the siblings of a position fold to its ancestor |
| `MerkleProof.FoldSound` | circuits/src/bridge.rs:134-142 | what folds to a node is the leaf the index bits select |
| `MerkleProof.StepSound` | circuits/src/bridge.rs:134-142 | what hashes to a node are its two children, on the sides the index says |
| `FullMerkle.MerkleTree.Add` | core/src/merkle.rs:26-49 | the disabled tree keeps every row the padded tree's, pushing or overwriting by trailing zeros, also past its capacity; panics only at the counter |
| `FullMerkle.RowAdvances` | core/src/merkle.rs:31-46 | at every level and index the accesses are in range and the sibling is right |
| `FullMerkle.MerkleTree.Path` | core/src/merkle.rs:51-68 | the path array is the position's sibling list |
| `FullMerkle.MerkleTree.TreeRoot` | core/src/merkle.rs:70-76 | the padded root of the first 2^depth leaves |
| `FullMerkle.CrossCheck` | core/src/merkle.rs:26-76 | for every list of leaves both trees report one root within the capacity; past it they agree exactly when the first and the last window hold the same leaves |
| `FullMerkle.RootsDifferPastCapacity` | core/src/merkle.rs:70-76 | two different leaves at depth 0 give two roots |
| `FullMerkle.WidthGrows` | core/src/merkle.rs:29-42 | a level gains a node exactly up to the trailing zeros of the index |
| `ClaimIndices.GetClaimRevealIndices` | core/src/utils.rs:122-142 | returns a least cover, deepest node first: the nodes partition the leaves from count on, are as many as the one bits of 2^depth - count, and no set of nodes does with fewer; panics exactly outside the asserted bound or from depth 32 |
| `ClaimIndices.IndicesPartitionSuffix` | core/src/utils.rs:122-142 | every leaf from count on lies below exactly one node, no earlier leaf below any |
| `ClaimIndices.IndicesLength` | core/src/utils.rs:122-142 | the nodes are as many as the one bits of 2^depth - count |
| `ClaimIndices.IndicesAreMinimal` | core/src/utils.rs:122-142 | no smaller set of tree nodes has the same leaves |
| `ClaimIndices.IndicesInTree` | core/src/utils.rs:122-142 | every node lies in the tree |
| `ClaimIndices.IndicesGoUp` | core/src/utils.rs:122-142 | each node is nearer to the root than the ones before it |
| `TaprootDepths.ScriptDepthsFormTree` | core/src/builder/address.rs:40-48 | the depths are the depth-first leaf depths of a full binary tree, differ by at most one and never increase |
| `TaprootDepths.TaprootBuilderCompletes` | core/src/builder/address.rs:40-48 | fed in order the depths complete the tree |
| `TaprootDepths.EveryLeafIsAdded` | core/src/builder/address.rs:43-46 | no leaf on the way is refused: every prefix of the depths can be extended |
| `TaprootDepths.SubtreeCloses` | core/src/builder/address.rs:40-48 | a subtree's leaves act like one leaf at its depth |
| `TaprootDepths.TreeIsFull` | core/src/builder/address.rs:40-48 | the sum of 2^-depth over any tree is 1 |
| `TaprootDepths.DepthsDetermineTree` | core/src/builder/address.rs:40-48 | a depth list builds one tree only |

## Left out

- Elliptic curves, Schnorr and MuSig2 (`core/src/musig2.rs`, `core/src/actor.rs`): symbolic; the taproot tweak of the circuit is a parameter.
- SHA-256 itself: a digest is a free constructor; the values of the four claim roots are not used.
- JSON-RPC, Bitcoin RPC, Citrea calls, configuration, logging and the SQL text: parameters or atomic table updates.
- `new_withdrawal_sig` and `is_profitable` of the operator: they touch none of the modelled tables.
- `verify_challenge_proof`, the check of the light-client proof and `win`: stubs in the repository, so they accept here as they do there.
- The length of a transaction's Merkle path is read from the tape and nothing compares it with the number of transactions in the block: `BitcoinTree.PathAcceptedIff` and `PlacedIsInBlock` are about paths of full length.
- The sign bit of a compact target (bit 23 of the mantissa), which the decoder does not look at.
- `get_merkle_path_from_merkle_block`, `write_merkle_tree_proof` and `to_incremental_tree` of the disabled files: the first needs rust-bitcoin's partial tree layout, which is not part of this model; the others repeat what the sibling lists already say.
- `validate_threshold_and_subtract_work`: differs from its counterpart by one sign.
- Overflow in builds without overflow checks: `BuildsAgree` covers the header batch; counters that pass 2^32 leaves or withdrawals are not followed further.
- Tape items are typed: reading an item at another type is a panic, where the real tape is raw words.
- Broadcastability is about spent transactions being known in order; mempool policy and witnesses are not modelled.
- The number of kickoffs per transaction is below 2^31, which the i32 column holds.
- ReadTxAndCalculateTxid: counts and script lengths are u32 as on the tape, so transactions beyond that are not described.
- rust-bitcoin's taproot builder is not part of this model; `TaprootDepths.Close` states its rule, that two neighbouring subtrees of one depth join.
- The operator's calls are served one after another, which its table lock does for `new_deposit`; a `set_funding_utxo` in the middle of a `new_deposit` is not modelled.
- A recovery address is represented by its x-only key; extracting it from the script is not modelled.
- SaveOperatorTakeSigs: if one batch named a UTXO twice the database might pick either signature, the model picks the first; the scripts of different operators differ, so the verifier never sends such a batch.
