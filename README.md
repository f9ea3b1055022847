# Sequencer worker of the Avail settlement consensus, in Dafny

This project models the block-production core of the `consensus/avail` engine.
A sequencer node takes the blocks of a data-availability (DA) chain as its clock.
On each DA block it does the following:

- it writes the settlement blocks extracted from that DA block to its local chain;
- it runs the fraud checks;
- it checks that it is still staked;
- when it is at the head of the active sequencer set, it produces a block.

Producing a block has four parts, in this order. The node first fills in the header's number, parent hash, gas limit, timestamp and validator set, and begins the state transition. It then selects transactions from the pool, stopping when the state transition reports the gas limit reached. Next it commits the transition, sets the state root and the gas used, and seals the header. Finally it submits the block to DA and waits for inclusion, and only then writes the block locally and resets the pool.

The model also covers the mechanism-type table: the four node roles, their string forms, and the parsers over them.

Files:

- `results.dfy`: the `Option` and `Result` types.
- `seq_lemmas.dfy`: two facts about sequence concatenation.
- `mechanism.dfy`: `MechanismType` and its functions (`consensus/avail/mechanism.go`). The two Go loops, `MechanismExists` and `ParseMechanismConfigTypes`, are methods with loops.
- `sequencer_spec.dfy`: the value-level model of `consensus/avail/sequencer.go`. It holds:
  - the entities: transactions, headers, blocks and the collaborator calls;
  - the reference functions: `Select` (one selection round); `Produce` (one production attempt), with `Complete` for its part from the transaction selection on and `Publish` for the DA submission, local write and reset; `Decide` and `TickCalls` (one DA tick), with `TurnCalls` for the stake check and the turn; and `RunExit`, `Ticks` and `RunCalls` (the worker loop's exit, clock values, and calls and final pool).
- `sequencer.dfy`: the class `SequencerWorker`. Its fields are:
  - `pool`: the transaction pool's queue;
  - `clock`: the atomic clock `t`, which each `Run` creates afresh at 0 (line 51);
  - `trace`: every call made to a collaborator, in order.

  Each method updates these fields the way the Go code does. Each is proved to leave exactly the state the matching reference function describes. Long Go functions are split along the same seams as their reference functions: `SelectNext` is one pass of the selection loop, `CompleteBlock` and `PublishBlock` are the tail of `writeBlock`, `TakeTurn` is the tail of a tick, and `RunTick` is one DA block of the loop.
- `sequencer_properties.dfy`: what the reference functions guarantee. It covers the selection policy, block production's ordering and failure behaviour, the tick's decision, and how the loop ends.

Every collaborator is an oracle: its result is an input of the model. This covers the transaction pool's internals, `transition.Write`, the chain, the executor, the seal, the DA sender, the fraud resolver and the staking registry. `time.Now()` is a parameter. Each collaborator call is recorded in the trace, in order, so ordering rules can be stated over the trace. The calls to `Peek`, `Write`, `SendAndWaitForStatus`, `blockchain.WriteBlock`, `CheckAndSlash` and `UnStake` carry their result. The results of `CalculateGasLimit`, `AssignExtraValidators`, `BeginTxn`, `Commit` (the state root, with `TotalGas`), `WriteSeal`, `blockchain.Header`, `Contains` and `Get` are fields of the tick's inputs (`TickInputs`) or of the production environment (`ProductionEnv`), and their calls in the trace carry only their arguments.

In four places the code does something a reader may not expect; the model follows the code:

- The oversize check compares a transaction's gas with the whole block gas limit (`tx.ExceedsBlockGasLimit(gasLimit)`), not with the gas still left in the block.
- A gas-limit-reached report from `transition.Write` ends selection. Later transactions that would still fit are not tried. With gas `[50, 60, 5]` and limit 100, only the first is included (`SequencerProperties.GasLimitReachedEndsSelection`).
- The producer for a tick is `sequencers[0]`. With the active set `[A, B, C]`, node `B` does not produce (`SequencerProperties.HeadOfActiveSetProduces`).
- The clock stores each DA block's number as it arrives, so it holds the latest number, which is not always the largest. It is the largest only when the stream's numbers increase (`SequencerProperties.ClockHoldsLatestNumber`, `SequencerProperties.ClockIsMaxOnIncreasingStream`).

## Model

| member | source | states |
|---|---|---|
| Mechanism.String | consensus/avail/mechanism.go:28-31 | the string of a mechanism type converts back to the same type |
| Mechanism.ReplaceAll | consensus/avail/mechanism.go:35 | replaces all occurrences, not only the first: when `from` differs from `to`, no `from` is left; every other character is kept in place, and a character other than `from` and `to` occurs in the result iff it occurs in the input |
| Mechanism.ReplaceAllInverse | consensus/avail/mechanism.go:35 | when `to` does not occur in the input, replacing `to` back by `from` gives the input again |
| Mechanism.LogString | consensus/avail/mechanism.go:33-36 | same length as the type's string, no `-` left, and each `-` replaced by `_` with every other character kept |
| Mechanism.ParseType | consensus/avail/mechanism.go:48-57 | succeeds iff the string is one of "bootstrap-sequencer", "sequencer", "validator", "watchtower", giving a known type whose string is the input; otherwise the error names the input |
| Mechanism.MechanismExists | consensus/avail/mechanism.go:38-46 | scanning the table's values returns true iff the type is one of the four constants |
| Mechanism.ParseMechanismConfigTypes | consensus/avail/mechanism.go:59-72 | all or nothing: Ok iff every string parses, then one known type per string in order; otherwise the error of the first invalid string, every earlier one being valid |
| Mechanism.ParseStringRoundTrip | consensus/avail/mechanism.go:10-31 | each of the four constants parses back from its string with no error |
| Mechanism.ParseTypeInverse | consensus/avail/mechanism.go:21-26 | `ParseType(s) == Ok(t)` iff `t` is known and its string is `s` |
| Mechanism.LogStringBootstrapSequencer | consensus/avail/mechanism.go:34-36 | "bootstrap-sequencer" is logged as "bootstrap_sequencer" |
| Mechanism.LogStringIdempotent | consensus/avail/mechanism.go:34-36 | applying LogString to a logged name changes nothing |
| SequencerSpec.NextNumber | consensus/avail/sequencer.go:169 | the header number is the parent's plus one in uint64 arithmetic: plus one below the maximum, 0 after it |
| SequencerSpec.BlockTimestamp | consensus/avail/sequencer.go:184-192 | the timestamp is at least parent time + block time and at least now, and equals one of them (their maximum) |
| SequencerSpec.Decide | consensus/avail/sequencer.go:90-152 | skip iff the tick is not active (extraction aborted, slash failed, not staked or a stake error, active-set error); extraction aborts iff no blocks and an error other than no-extrinsic-found; panic iff active with an empty set; produce iff the set's head is the node; otherwise not its turn |
| SequencerSpec.StoreBlocks | consensus/avail/sequencer.go:101-103 | the writes built one block after another, as the loop appends them, are exactly one local write per extracted block, at the block's position, with the node's role and the write's result |
| Sequencer.SequencerWorker.constructor | consensus/avail/sequencer.go:31-48 | a worker with the given address, role, block time and pool, clock 0 and no calls yet |
| Sequencer.SequencerWorker.WriteTransactions | consensus/avail/sequencer.go:266-306 | the loop returns `Select`'s included transactions, leaves `Select`'s rest as the pool and appends Prepare and `Select`'s calls to the trace |
| Sequencer.SequencerWorker.SelectNext | consensus/avail/sequencer.go:272-302 | one pass of the loop: an empty Peek stops with nothing changed; a transaction that fits but is reported gas-limit-reached stops after its Peek and Write, leaving it in the pool; any other transaction is removed from the pool, its calls are `Segment`'s, and the list grows as `After` says |
| Sequencer.SequencerWorker.WriteBlock | consensus/avail/sequencer.go:166-264 | the step-by-step header updates and calls give exactly `Produce`'s error, calls and remaining pool; the clock is unchanged |
| Sequencer.SequencerWorker.CompleteBlock | consensus/avail/sequencer.go:205-263 | from the transaction selection on, the commit, the header updates, the seal and the publication give exactly `Complete`'s error, calls and remaining pool; the clock is unchanged |
| Sequencer.SequencerWorker.PublishBlock | consensus/avail/sequencer.go:243-263 | the DA submission, then the local write, then the pool reset, each only after the previous one succeeded, give exactly `Publish`'s error and calls; pool and clock unchanged |
| Sequencer.SequencerWorker.StoreExtracted | consensus/avail/sequencer.go:101-103 | appends one local write per extracted block, in order; pool and clock unchanged |
| Sequencer.SequencerWorker.Tick | consensus/avail/sequencer.go:83-152 | stores the DA number into the clock, returns `Decide`'s decision, and makes exactly `TickCalls`' calls, pool change and production error |
| Sequencer.SequencerWorker.TakeTurn | consensus/avail/sequencer.go:116-152 | after the fraud checks pass, the stake check, the active-set query and, on the node's turn, the block production give `Decide`'s decision and exactly `TurnCalls`' calls, pool change and error |
| Sequencer.SequencerWorker.RunTick | consensus/avail/sequencer.go:80-152 | one DA block of the loop: its decision is `Decide`'s, the clock holds its number, and its calls and pool change are `TickCalls`' |
| Sequencer.SequencerWorker.Run | consensus/avail/sequencer.go:50-161 | exits as `RunExit` says; the clock starts at 0 and holds the last number `Ticks` lists; the calls and the final pool are `RunCalls`', one tick's calls after another; on shutdown the last call is the unstake, and the exit carries its error |
| SequencerProperties.SelectConsumesPrefix | consensus/avail/sequencer.go:271-303 | selection starts with a Peek and leaves a suffix of the pool |
| SequencerProperties.SelectStopsOnlyWhenEmptyOrFull | consensus/avail/sequencer.go:271-303 | an empty rest ends with an empty Peek; a non-empty rest starts with a transaction that fits the block but was reported gas-limit-reached, and the last calls are its Peek and that Write |
| SequencerProperties.SelectReturnsWhatWasWritten | consensus/avail/sequencer.go:267-305 | the returned list is exactly the transactions whose Write succeeded, in order, and the popped ones are exactly those |
| SequencerProperties.SelectActsOncePerConsumedTx | consensus/avail/sequencer.go:279-300 | with distinct transactions, each consumed transaction gets exactly one Pop, Drop or Demote, and every other one (including the one selection stopped on) gets none |
| SequencerProperties.SelectFollowsPolicy | consensus/avail/sequencer.go:279-300 | an oversize Peek is followed by its Drop and is never written; any other Peek is followed by its Write; a gas-limit-reached Write is last; any other Write is followed by Pop (ok), Demote (recoverable) or Drop; each Pop, Demote and Drop follows its cause; an empty Peek is last |
| SequencerProperties.SelectCallsArePoolCalls | consensus/avail/sequencer.go:270-302 | selection makes only Peek, Write, Pop, Drop and Demote calls |
| SequencerProperties.SelectStaysWithinGasLimit | consensus/avail/sequencer.go:289-302 | when the transition admits a transaction only while the gas pool has room, the selected transactions' gas fits the block gas limit |
| SequencerProperties.GasLimitReachedEndsSelection | consensus/avail/sequencer.go:284-287 | gas [50, 60, 5] with limit 100: only the first is included, and the second and third stay in the pool |
| SequencerProperties.ProducedBlockFields | consensus/avail/sequencer.go:167-217 | the produced header has the next number, the parent's hash, the calculated gas limit (not the parent's), the total gas used, the committed root, the node as miner and only validator, the seal, the timestamp max(parent + block time, now), and its hash; the block holds the selected transactions |
| SequencerProperties.ProduceCalls | consensus/avail/sequencer.go:177-263 | once the transition began, the calls up to the seal publish and persist nothing, and the submission, local write and reset follow in that order, as far as each succeeds |
| SequencerProperties.ProduceOutcome | consensus/avail/sequencer.go:177-263 | the first call is the gas-limit calculation for the next number; success iff the last call is the pool reset; a failure ends with the failing step's call; any failure leaves no reset; a failure before the DA send succeeds leaves no local write, and before the seal no DA send; a failure before the transition began leaves the pool untouched |
| SequencerProperties.ProduceOrdering | consensus/avail/sequencer.go:238-261 | a local write comes right after the successful DA submission of the same block, the reset right after the successful local write of the block with that header, and the block submitted is the produced block |
| SequencerProperties.TickStoresExtractedBlocksFirst | consensus/avail/sequencer.go:90-112 | an aborted extraction makes no call; otherwise the tick's i-th call is the local write of the i-th extracted block, with the role and the write's result, and the fraud check and the slash check follow the writes |
| SequencerProperties.TickProducesOnlyOnTurn | consensus/avail/sequencer.go:112-152 | a tick that is not the node's turn leaves the pool, returns no error, makes no Prepare, DA submission or reset, and writes only the extracted blocks locally; a tick that prepares or submits is the node's turn at the head of a non-empty active set |
| SequencerProperties.TickProducesOnTurn | consensus/avail/sequencer.go:101-148 | on the node's turn, after the extracted-block writes, the fraud checks, the stake check and the active-set query, the tick reads the chain head and makes exactly one production attempt on it, whose calls, remaining pool and error are the tick's; when DA does not confirm inclusion the attempt fails with no local write and no pool reset |
| SequencerProperties.AtMostOneProducer | consensus/avail/sequencer.go:142-143 | two nodes that both produce on a tick are the same node, and on an active tick the head of the set produces |
| SequencerProperties.HeadOfActiveSetProduces | consensus/avail/sequencer.go:142-152 | with active set [1, 2, 3], node 1 produces and node 2 does not |
| SequencerProperties.RunExitIsFirstStop | consensus/avail/sequencer.go:78-161 | after only non-panicking DA blocks, a close signal ends the loop with its unstake result, a tick with an empty active set ends it in a panic, and any other tick lets the loop go on with the remaining events |
| SequencerProperties.RunEndsOnlyWhenQuiet | consensus/avail/sequencer.go:78-161 | the events run out iff none of them is a close signal or a tick with an empty active set |
| SequencerProperties.TicksArePrefixOfDANumbers | consensus/avail/sequencer.go:80-83 | the clock takes the DA numbers in arrival order, up to where the loop stops |
| SequencerProperties.ClockHoldsLatestNumber | consensus/avail/sequencer.go:83 | after DA blocks 5 and then 3, the clock's values are [5, 3], so it ends at 3 |
| SequencerProperties.ClockIsMaxOnIncreasingStream | consensus/avail/sequencer.go:83 | on a stream of strictly increasing DA numbers, the clock's last value is the largest it held |

## Left out

- The start-up of `Run` before the loop (`GetBalance`, `FindCallIndex`, `waitForStakedSequencer`, `NewBlockStream` and the deferred `Close`, lines 52-76): the model starts at the loop. The errors these calls return before the loop end `Run` in Go and are not modelled (`Exit` has no case for them). The call index they find is used only by `block.FromAvail`, whose results are inputs of each tick, and the block stream is the sequence of events.
- The `select` between the block stream and `closeCh`, and the atomic clock: concurrency. The loop takes a sequence of events in arrival order, and the clock is a plain field.
- `block.FromAvail` decoding, the fraud resolver's internals, the randomised active-set shuffle and `Contains`/`Get`: foreign code. Their results are inputs of a tick.
- `block.WriteSeal`, `ComputeHash`, `consensus.BuildBlock`, receipts, the state root computation and the encoding of `AssignExtraValidators`: cryptography and library code. They are oracle results, and each error aborts the attempt.
- The transaction pool's internals: Pop, Drop and Demote each remove the head of the pool's queue. This is a modelling assumption. A demoted transaction is not re-promoted in the model, and `Prepare` and `ResetWithHeaders` are recorded calls only. The pool the next tick sees is what the previous tick's production attempt left; transactions that arrive between ticks are not modelled.
- `transition.Write` is an oracle over the transactions written successfully so far and the next transaction. This assumes that a failed `Write` leaves the transition as it was; `SequencerProperties.SelectStaysWithinGasLimit`'s gas-pool assumption depends on it.
- `tx.ExceedsBlockGasLimit` (polygon-edge): its source is not shown; it is modelled as the transaction's gas being above the block gas limit.
- Logging, `NewSequencer` (its wiring of collaborators), and the commented-out fraud-injection lines.
- The `interface{}` type assertions of `ParseMechanismConfigTypes`, which panic on wrong types: the input is a sequence of strings.
- `time.Now()` is called three times in `writeBlock` (lines 173, 188 and 189). The model uses one `now` for all three, and the block time is in whole seconds.
- Timestamps, gas and hashes are unbounded naturals. Only the header number is uint64 with wrap-around.
- Sequencer.SequencerWorker.RunTick: does not return the tick's production error, because the Go loop only logs it (lines 146-148); the calls, pool and clock it leaves are stated in full.
- The `StreamEnded` exit exists only in the model: the Go loop waits for more events forever.
- A panic (an empty active set) is modelled as the decision `NoStakedSequencers` and the exit `Panicked`. The panic's unwinding is not modelled.
