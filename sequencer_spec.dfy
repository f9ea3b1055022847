/**
 * The value-level model of the sequencer worker (consensus/avail/sequencer.go):
 * the entities it handles, the calls it makes to its collaborators, and pure
 * reference functions saying which calls one selection round, one production
 * attempt and one DA tick make, and how the worker loop ends.
 *
 * Collaborators whose code is not part of this model (the transaction pool's
 * internals, the state transition, the local chain, the DA client, the fraud
 * resolver, the staking registry) appear only through the results they return.
 */
module SequencerSpec {
  import opened Results
  import opened SeqLemmas

  type Address = nat
  type Hash = nat
  type Seal = nat

  /** Go's uint64. */
  const U64_MODULUS: nat := 0x1_0000_0000_0000_0000
  type U64 = n: nat | n < U64_MODULUS

  /** `parent.Number + 1` in uint64 arithmetic: it wraps to 0 after the largest number. */
  function NextNumber(n: U64): (r: U64)
    ensures n + 1 < U64_MODULUS ==> r == n + 1
    ensures n + 1 == U64_MODULUS ==> r == 0
  {
    (n + 1) % U64_MODULUS
  }

  // ---------------------------------------------------------------------------
  // Entities
  // ---------------------------------------------------------------------------

  /** A pool transaction: its identity and the gas it asks for. */
  datatype Tx = Tx(hash: Hash, gas: nat)

  /** A transaction that alone asks for more gas than the whole block allows. */
  predicate ExceedsBlockGasLimit(tx: Tx, gasLimit: nat) {
    tx.gas > gasLimit
  }

  /** What the state transition's `Write` reports for one transaction. */
  datatype WriteOutcome =
    | WriteOk
    | GasLimitReached                        // the block is full
    | ApplicationError(isRecoverable: bool)  // the transaction failed to apply
    | UnknownError                           // any other error

  /** A settlement block header (Nonce, ExtraData encoding and roots besides the state root are omitted). */
  datatype Header = Header(
    parentHash: Hash,
    number: U64,
    miner: Address,
    gasLimit: nat,
    gasUsed: nat,
    timestamp: nat,
    stateRoot: Hash,
    validators: seq<Address>,  // the validator set written into the extra data
    seal: Option<Seal>,        // the miner's seal written into the extra data
    hash: Hash)

  datatype Block = Block(header: Header, txs: seq<Tx>)

  /**
   * Every call the worker makes to a collaborator. Peek, Write, the DA send, the
   * local write, the slash check and the unstake carry their result. The results
   * of the gas-limit calculation, the extra-data encoding, BeginTxn, the commit
   * (state root and total gas), the seal, the chain head, the stake check and
   * the active-set query are fields of `ProductionEnv` and `TickInputs`; their
   * calls carry only their arguments and mark their place.
   */
  datatype Call =
    | Prepare                                        // txpool.Prepare
    | Peek(next: Option<Tx>)                         // txpool.Peek
    | Pop(tx: Tx)                                    // txpool.Pop
    | Drop(tx: Tx)                                   // txpool.Drop
    | Demote(tx: Tx)                                 // txpool.Demote
    | Write(tx: Tx, outcome: WriteOutcome)           // transition.Write
    | CalculateGasLimit(number: U64)                 // blockchain.CalculateGasLimit
    | AssignExtraValidators(validators: seq<Address>) // block.AssignExtraValidators
    | BeginTxn(parentRoot: Hash, coinbase: Address)  // executor.BeginTxn
    | Commit                                         // transition.Commit
    | WriteSeal                                      // block.WriteSeal
    | SendAndWaitForStatus(block: Block, included: bool) // availSender.SendAndWaitForStatus
    | WriteBlock(block: Block, role: string, stored: bool) // blockchain.WriteBlock
    | ResetWithHeaders(header: Header)               // txpool.ResetWithHeaders
    | CheckAndSetFraudBlock(blocks: seq<Block>)      // fraudResolver.CheckAndSetFraudBlock
    | CheckAndSlash(ok: bool)                        // fraudResolver.CheckAndSlash (true: no error)
    | Contains(address: Address)                     // activeSequencersQuerier.Contains
    | GetActiveSet                                   // activeSequencersQuerier.Get
    | ChainHeader                                    // blockchain.Header
    | UnStake(ok: bool)                              // stakingNode.UnStake (true: no error)

  // ---------------------------------------------------------------------------
  // Transaction selection (writeTransactions)
  // ---------------------------------------------------------------------------

  /** The pool action that follows a `Write` that did not report a full block. */
  function Reaction(tx: Tx, outcome: WriteOutcome): (c: Call)
    requires outcome != GasLimitReached
  {
    match outcome
    case WriteOk => Pop(tx)
    case ApplicationError(recoverable) => if recoverable then Demote(tx) else Drop(tx)
    case UnknownError => Drop(tx)
  }

  /** The included transactions, what is left in the pool, and the calls made. */
  datatype Selection = Selection(included: seq<Tx>, rest: seq<Tx>, calls: seq<Call>)

  /**
   * The reference behaviour of the selection loop from the peek of `pending[0]`
   * on, when `included` have been written successfully so far. `write(w, tx)` is
   * what the transition reports for `tx` after the transactions `w` (a failed
   * `Write` leaves the transition as it was).
   */
  function Select(pending: seq<Tx>, gasLimit: nat, write: (seq<Tx>, Tx) -> WriteOutcome, included: seq<Tx>): (s: Selection)
    decreases |pending|
  {
    if pending == [] then Selection(included, [], [Peek(None)])
    else
      var tx := pending[0];
      if ExceedsBlockGasLimit(tx, gasLimit) then
        var s := Select(pending[1..], gasLimit, write, included);
        s.(calls := [Peek(Some(tx)), Drop(tx)] + s.calls)
      else
        var outcome := write(included, tx);
        if outcome == GasLimitReached then
          Selection(included, pending, [Peek(Some(tx)), Write(tx, outcome)])
        else
          var s := Select(pending[1..], gasLimit, write, if outcome == WriteOk then included + [tx] else included);
          s.(calls := [Peek(Some(tx)), Write(tx, outcome), Reaction(tx, outcome)] + s.calls)
  }

  /** The calls selection makes for a transaction it consumes. */
  function Segment(tx: Tx, gasLimit: nat, outcome: WriteOutcome): seq<Call>
    requires ExceedsBlockGasLimit(tx, gasLimit) || outcome != GasLimitReached
  {
    if ExceedsBlockGasLimit(tx, gasLimit) then [Peek(Some(tx)), Drop(tx)]
    else [Peek(Some(tx)), Write(tx, outcome), Reaction(tx, outcome)]
  }

  /** The successful writes after a transaction selection consumed. */
  function After(tx: Tx, gasLimit: nat, outcome: WriteOutcome, included: seq<Tx>): seq<Tx> {
    if !ExceedsBlockGasLimit(tx, gasLimit) && outcome == WriteOk then included + [tx] else included
  }

  /** Selection consumes the head of `pending` and goes on. */
  predicate Continues(pending: seq<Tx>, gasLimit: nat, write: (seq<Tx>, Tx) -> WriteOutcome, included: seq<Tx>) {
    pending != [] && (ExceedsBlockGasLimit(pending[0], gasLimit) || write(included, pending[0]) != GasLimitReached)
  }

  /** One step of selection: the segment for the head, then selection on the tail. */
  lemma SelectStep(pending: seq<Tx>, gasLimit: nat, write: (seq<Tx>, Tx) -> WriteOutcome, included: seq<Tx>)
    requires Continues(pending, gasLimit, write, included)
    ensures var tx, outcome := pending[0], write(included, pending[0]);
      var s := Select(pending, gasLimit, write, included);
      var sub := Select(pending[1..], gasLimit, write, After(tx, gasLimit, outcome, included));
      s.calls == Segment(tx, gasLimit, outcome) + sub.calls && s.included == sub.included && s.rest == sub.rest
  {
  }

  /** Selection stops on the head of `pending`: the transition reported the gas limit reached. */
  lemma SelectHalt(pending: seq<Tx>, gasLimit: nat, write: (seq<Tx>, Tx) -> WriteOutcome, included: seq<Tx>)
    requires pending != [] && !Continues(pending, gasLimit, write, included)
    ensures var s := Select(pending, gasLimit, write, included);
      s == Selection(included, pending, [Peek(Some(pending[0])), Write(pending[0], GasLimitReached)])
  {
  }

  // ---------------------------------------------------------------------------
  // Block production (writeBlock)
  // ---------------------------------------------------------------------------

  /** `max(parent time + block time, now)` in whole seconds, as the header timestamp. */
  function BlockTimestamp(parentTime: nat, blockTime: nat, now: nat): (ts: nat)
    ensures ts >= parentTime + blockTime && ts >= now
    ensures ts == parentTime + blockTime || ts == now
  {
    var headerTime := parentTime + blockTime;
    if headerTime < now then now else headerTime
  }

  /** The results the collaborators of one production attempt return. */
  datatype ProductionEnv = ProductionEnv(
    now: nat,                              // time.Now(), whole seconds
    gasLimit: Option<nat>,                 // blockchain.CalculateGasLimit (None: error)
    extraOk: bool,                         // block.AssignExtraValidators succeeded
    beginTxnOk: bool,                      // executor.BeginTxn succeeded
    write: (seq<Tx>, Tx) -> WriteOutcome,  // transition.Write
    stateRoot: Hash,                       // transition.Commit
    totalGas: nat,                         // transition.TotalGas
    seal: Option<Seal>,                    // block.WriteSeal (None: error)
    hashOf: Header -> Hash,                // Header.ComputeHash
    daIncluded: bool,                      // availSender.SendAndWaitForStatus succeeded
    stored: Block -> bool)                 // blockchain.WriteBlock succeeded

  /** The step of writeBlock that failed. */
  datatype ProduceError =
    | GasLimitError | ExtraValidatorsError | BeginTxnError | SealError | SubmitError | WriteBlockError

  datatype Production = Production(err: Option<ProduceError>, calls: seq<Call>, rest: seq<Tx>)

  /** The header every step of writeBlock has filled in, before its hash is computed. */
  function SealedHeader(parent: Header, account: Address, blockTime: nat, env: ProductionEnv): Header
    requires env.gasLimit.Some? && env.seal.Some?
  {
    Header(parent.hash, NextNumber(parent.number), account, env.gasLimit.value, env.totalGas,
           BlockTimestamp(parent.timestamp, blockTime, env.now), env.stateRoot, [account], env.seal, 0)
  }

  /** The block writeBlock sends to DA and writes locally: the sealed header with its hash, and the selected transactions. */
  function ProducedBlock(pool: seq<Tx>, parent: Header, account: Address, blockTime: nat, env: ProductionEnv): Block
    requires env.gasLimit.Some? && env.seal.Some?
  {
    var header := SealedHeader(parent, account, blockTime, env);
    Block(header.(hash := env.hashOf(header)), Select(pool, env.gasLimit.value, env.write, []).included)
  }

  /** The reference behaviour of one production attempt on `parent` with the pool queue `pool`. */
  function Produce(pool: seq<Tx>, parent: Header, account: Address, role: string, blockTime: nat, env: ProductionEnv): (p: Production)
  {
    var asked := [CalculateGasLimit(NextNumber(parent.number))];
    if env.gasLimit.None? then Production(Some(GasLimitError), asked, pool)
    else
      var extra := asked + [AssignExtraValidators([account])];
      if !env.extraOk then Production(Some(ExtraValidatorsError), extra, pool)
      else
        var begun := extra + [BeginTxn(parent.stateRoot, account)];
        if !env.beginTxnOk then Production(Some(BeginTxnError), begun, pool)
        else
          var rest := Complete(pool, parent, account, role, blockTime, env);
          Production(rest.err, begun + rest.calls, rest.rest)
  }

  /** The reference behaviour of writeBlock once the transition began: selection, commit, seal and publication. */
  function Complete(pool: seq<Tx>, parent: Header, account: Address, role: string, blockTime: nat, env: ProductionEnv): Production
    requires env.gasLimit.Some?
  {
    var sel := Select(pool, env.gasLimit.value, env.write, []);
    var sealing := [Prepare] + sel.calls + [Commit, WriteSeal];
    if env.seal.None? then Production(Some(SealError), sealing, sel.rest)
    else
      var pub := Publish(ProducedBlock(pool, parent, account, blockTime, env), role, env);
      Production(pub.err, sealing + pub.calls, sel.rest)
  }

  datatype Publication = Publication(err: Option<ProduceError>, calls: seq<Call>)

  /** The reference behaviour of the last steps of writeBlock: DA submission, local write and pool reset. */
  function Publish(blk: Block, role: string, env: ProductionEnv): Publication {
    var sent := [SendAndWaitForStatus(blk, env.daIncluded)];
    if !env.daIncluded then Publication(Some(SubmitError), sent)
    else
      var written := sent + [WriteBlock(blk, role, env.stored(blk))];
      if !env.stored(blk) then Publication(Some(WriteBlockError), written)
      else Publication(None, written + [ResetWithHeaders(blk.header)])
  }

  // ---------------------------------------------------------------------------
  // One DA tick (the body of Run's loop)
  // ---------------------------------------------------------------------------

  /** The errors block.FromAvail reports. */
  datatype ExtractError = ErrNoExtrinsicFound | DecodeError

  /** The results the collaborators of one tick return. */
  datatype TickInputs = TickInputs(
    daNumber: nat,                   // the DA block's number
    blocks: seq<Block>,              // block.FromAvail's blocks
    extractErr: Option<ExtractError>, // block.FromAvail's error
    slashOk: bool,                   // fraudResolver.CheckAndSlash returned no error
    staked: Option<bool>,            // activeSequencersQuerier.Contains (None: error)
    sequencers: Option<seq<Address>>, // activeSequencersQuerier.Get (None: error)
    head: Header)                    // blockchain.Header(), the parent of a produced block

  /** Extraction gave no block and an error other than "no extrinsic found". */
  predicate ExtractionAborts(inputs: TickInputs) {
    |inputs.blocks| == 0 && inputs.extractErr.Some? && inputs.extractErr.value != ErrNoExtrinsicFound
  }

  datatype SkipReason = ExtractionFailed | SlashFailed | StakeCheckFailed | NotStaked | ActiveSetQueryFailed

  /** What a tick decides: skip it, wait (another node's turn), produce, or panic on an empty active set. */
  datatype Decision = Skip(reason: SkipReason) | NotMyTurn | MyTurn | NoStakedSequencers

  /** The node may act as a sequencer on this tick: nothing before the leader check failed. */
  predicate ActiveThisTick(inputs: TickInputs) {
    !ExtractionAborts(inputs) && inputs.slashOk && inputs.staked == Some(true) && inputs.sequencers.Some?
  }

  function Decide(inputs: TickInputs, nodeAddr: Address): (d: Decision)
    ensures d.Skip? <==> !ActiveThisTick(inputs)
    ensures d == Skip(ExtractionFailed) <==> ExtractionAborts(inputs)
    ensures d == Skip(SlashFailed) <==> !ExtractionAborts(inputs) && !inputs.slashOk
    ensures d == NoStakedSequencers <==> ActiveThisTick(inputs) && inputs.sequencers.value == []
    ensures d == MyTurn <==>
      ActiveThisTick(inputs) && |inputs.sequencers.value| > 0 && inputs.sequencers.value[0] == nodeAddr
    ensures d == NotMyTurn <==>
      ActiveThisTick(inputs) && |inputs.sequencers.value| > 0 && inputs.sequencers.value[0] != nodeAddr
  {
    if ExtractionAborts(inputs) then Skip(ExtractionFailed)
    else if !inputs.slashOk then Skip(SlashFailed)
    else if inputs.staked.None? then Skip(StakeCheckFailed)
    else if !inputs.staked.value then Skip(NotStaked)
    else if inputs.sequencers.None? then Skip(ActiveSetQueryFailed)
    else if |inputs.sequencers.value| == 0 then NoStakedSequencers
    else if inputs.sequencers.value[0] == nodeAddr then MyTurn
    else NotMyTurn
  }

  /**
   * The local writes of the extracted blocks, built as the loop builds them:
   * the writes of all blocks but the last, then the last block's write. The
   * result holds one write per block, in the blocks' order.
   */
  function StoreBlocks(blocks: seq<Block>, role: string, stored: Block -> bool): (calls: seq<Call>)
    ensures |calls| == |blocks|
    ensures forall i :: 0 <= i < |blocks| ==> calls[i] == WriteBlock(blocks[i], role, stored(blocks[i]))
    decreases |blocks|
  {
    if blocks == [] then []
    else
      var last := blocks[|blocks| - 1];
      StoreBlocks(blocks[..|blocks| - 1], role, stored) + [WriteBlock(last, role, stored(last))]
  }

  datatype TickEffect = TickEffect(calls: seq<Call>, rest: seq<Tx>, err: Option<ProduceError>)

  /** The calls one tick makes: extraction, fraud checks, then the stake and turn checks. */
  function TickCalls(inputs: TickInputs, nodeAddr: Address, account: Address, role: string, blockTime: nat,
                     pool: seq<Tx>, env: ProductionEnv): (e: TickEffect)
  {
    if ExtractionAborts(inputs) then TickEffect([], pool, None)
    else
      var fraud := StoreBlocks(inputs.blocks, role, env.stored) +
                   [CheckAndSetFraudBlock(inputs.blocks), CheckAndSlash(inputs.slashOk)];
      if !inputs.slashOk then TickEffect(fraud, pool, None)
      else
        var turn := TurnCalls(inputs, nodeAddr, account, role, blockTime, pool, env);
        TickEffect(fraud + turn.calls, turn.rest, turn.err)
  }

  /** The calls of the stake check, the active-set query and, on the node's turn, the production attempt. */
  function TurnCalls(inputs: TickInputs, nodeAddr: Address, account: Address, role: string, blockTime: nat,
                     pool: seq<Tx>, env: ProductionEnv): (e: TickEffect)
  {
    var asked := [Contains(nodeAddr)];
    if inputs.staked != Some(true) then TickEffect(asked, pool, None)
    else
      var queried := asked + [GetActiveSet];
      if inputs.sequencers.None? || |inputs.sequencers.value| == 0 || inputs.sequencers.value[0] != nodeAddr then
        TickEffect(queried, pool, None)
      else
        var p := Produce(pool, inputs.head, account, role, blockTime, env);
        TickEffect(queried + [ChainHeader] + p.calls, p.rest, p.err)
  }

  // ---------------------------------------------------------------------------
  // The worker loop (Run)
  // ---------------------------------------------------------------------------

  /** What the loop receives: a DA block (with its tick's results) or the close signal. */
  datatype Event =
    | DABlock(inputs: TickInputs, env: ProductionEnv)
    | CloseSignal(unstakeOk: bool)  // with stakingNode.UnStake's result

  /** How Run ends: after unstaking (with or without error), by panic, or (only in the model) when the events run out. */
  datatype Exit = ShutDown(unstakeFailed: bool) | Panicked | StreamEnded

  /** How the loop over `events` ends. */
  function RunExit(events: seq<Event>, nodeAddr: Address): Exit
    decreases |events|
  {
    if events == [] then StreamEnded
    else match events[0]
      case CloseSignal(ok) => ShutDown(!ok)
      case DABlock(inputs, _) =>
        if Decide(inputs, nodeAddr) == NoStakedSequencers then Panicked else RunExit(events[1..], nodeAddr)
  }

  /** The DA block numbers the loop stores into its clock, in order, until it exits. */
  function Ticks(events: seq<Event>, nodeAddr: Address): seq<nat>
    decreases |events|
  {
    if events == [] then []
    else match events[0]
      case CloseSignal(_) => []
      case DABlock(inputs, _) =>
        [inputs.daNumber] + if Decide(inputs, nodeAddr) == NoStakedSequencers then [] else Ticks(events[1..], nodeAddr)
  }

  /** The calls the loop makes and the pool it leaves. */
  datatype LoopEffect = LoopEffect(calls: seq<Call>, rest: seq<Tx>)

  /**
   * The calls the loop makes over `events`, starting from `pool`, until it
   * exits: each DA block's tick in turn, and the unstake on the close signal.
   */
  function RunCalls(events: seq<Event>, nodeAddr: Address, account: Address, role: string, blockTime: nat,
                    pool: seq<Tx>): LoopEffect
    decreases |events|
  {
    if events == [] then LoopEffect([], pool)
    else match events[0]
      case CloseSignal(ok) => LoopEffect([UnStake(ok)], pool)
      case DABlock(inputs, env) =>
        var e := TickCalls(inputs, nodeAddr, account, role, blockTime, pool, env);
        if Decide(inputs, nodeAddr) == NoStakedSequencers then LoopEffect(e.calls, e.rest)
        else
          var r := RunCalls(events[1..], nodeAddr, account, role, blockTime, e.rest);
          LoopEffect(e.calls + r.calls, r.rest)
  }

  /** How the first event contributes to the loop's calls and pool. */
  lemma LoopStep(events: seq<Event>, nodeAddr: Address, account: Address, role: string, blockTime: nat,
                 pool: seq<Tx>)
    requires events != []
    ensures events[0].CloseSignal? ==>
      RunCalls(events, nodeAddr, account, role, blockTime, pool) == LoopEffect([UnStake(events[0].unstakeOk)], pool)
    ensures events[0].DABlock? ==>
      var e := TickCalls(events[0].inputs, nodeAddr, account, role, blockTime, pool, events[0].env);
      var r := RunCalls(events[1..], nodeAddr, account, role, blockTime, e.rest);
      RunCalls(events, nodeAddr, account, role, blockTime, pool) ==
        if Decide(events[0].inputs, nodeAddr) == NoStakedSequencers then LoopEffect(e.calls, e.rest)
        else LoopEffect(e.calls + r.calls, r.rest)
  {
  }

  /**
   * What the loop has established after consuming `events` up to `stream`:
   * the exit still to come, the clock values stored so far (`seen`) and the
   * calls made so far (`done`), starting from the pool `pool0`.
   */
  ghost predicate LoopInvariant(events: seq<Event>, stream: seq<Event>, nodeAddr: Address, account: Address,
                                role: string, blockTime: nat, pool0: seq<Tx>,
                                seen: seq<nat>, done: seq<Call>, clock: int, pool: seq<Tx>)
  {
    var full, r := RunCalls(events, nodeAddr, account, role, blockTime, pool0),
                   RunCalls(stream, nodeAddr, account, role, blockTime, pool);
    RunExit(stream, nodeAddr) == RunExit(events, nodeAddr) &&
    Ticks(events, nodeAddr) == seen + Ticks(stream, nodeAddr) &&
    clock == (if seen == [] then 0 else seen[|seen| - 1]) &&
    full.calls == done + r.calls && full.rest == r.rest
  }

  /** A DA block that does not panic keeps the invariant, one event further on. */
  lemma LoopInvariantTick(events: seq<Event>, stream: seq<Event>, nodeAddr: Address, account: Address,
                          role: string, blockTime: nat, pool0: seq<Tx>,
                          seen: seq<nat>, done: seq<Call>, clock: int, pool: seq<Tx>)
    requires stream != [] && stream[0].DABlock?
    requires Decide(stream[0].inputs, nodeAddr) != NoStakedSequencers
    requires LoopInvariant(events, stream, nodeAddr, account, role, blockTime, pool0, seen, done, clock, pool)
    ensures var e := TickCalls(stream[0].inputs, nodeAddr, account, role, blockTime, pool, stream[0].env);
      LoopInvariant(events, stream[1..], nodeAddr, account, role, blockTime, pool0,
                    seen + [stream[0].inputs.daNumber], done + e.calls, stream[0].inputs.daNumber, e.rest)
  {
    var e := TickCalls(stream[0].inputs, nodeAddr, account, role, blockTime, pool, stream[0].env);
    EventStep(stream, nodeAddr);
    LoopStep(stream, nodeAddr, account, role, blockTime, pool);
    AppendAssoc(seen, [stream[0].inputs.daNumber], Ticks(stream[1..], nodeAddr));
    AppendAssoc(done, e.calls, RunCalls(stream[1..], nodeAddr, account, role, blockTime, e.rest).calls);
  }

  /** How the loop ends: on a panicking DA block, on the close signal, or when the events run out. */
  lemma LoopInvariantExit(events: seq<Event>, stream: seq<Event>, nodeAddr: Address, account: Address,
                          role: string, blockTime: nat, pool0: seq<Tx>,
                          seen: seq<nat>, done: seq<Call>, clock: int, pool: seq<Tx>)
    requires LoopInvariant(events, stream, nodeAddr, account, role, blockTime, pool0, seen, done, clock, pool)
    ensures var full := RunCalls(events, nodeAddr, account, role, blockTime, pool0);
      stream == [] ==>
        RunExit(events, nodeAddr) == StreamEnded && Ticks(events, nodeAddr) == seen &&
        full.calls == done && full.rest == pool
    ensures var full := RunCalls(events, nodeAddr, account, role, blockTime, pool0);
      stream != [] && stream[0].CloseSignal? ==>
        RunExit(events, nodeAddr) == ShutDown(!stream[0].unstakeOk) && Ticks(events, nodeAddr) == seen &&
        full.calls == done + [UnStake(stream[0].unstakeOk)] && full.rest == pool
    ensures var full := RunCalls(events, nodeAddr, account, role, blockTime, pool0);
      stream != [] && stream[0].DABlock? && Decide(stream[0].inputs, nodeAddr) == NoStakedSequencers ==>
        var e := TickCalls(stream[0].inputs, nodeAddr, account, role, blockTime, pool, stream[0].env);
        RunExit(events, nodeAddr) == Panicked && Ticks(events, nodeAddr) == seen + [stream[0].inputs.daNumber] &&
        full.calls == done + e.calls && full.rest == e.rest
  {
    if stream != [] {
      EventStep(stream, nodeAddr);
      LoopStep(stream, nodeAddr, account, role, blockTime, pool);
    } else {
      assert seen + [] == seen && done + [] == done;
    }
  }

  /** How the first event decides the loop's exit and the numbers it stores. */
  lemma EventStep(events: seq<Event>, nodeAddr: Address)
    requires events != []
    ensures events[0].CloseSignal? ==>
      Ticks(events, nodeAddr) == [] && RunExit(events, nodeAddr) == ShutDown(!events[0].unstakeOk)
    ensures events[0].DABlock? ==>
      var inputs := events[0].inputs;
      var stops := Decide(inputs, nodeAddr) == NoStakedSequencers;
      Ticks(events, nodeAddr) == [inputs.daNumber] + (if stops then [] else Ticks(events[1..], nodeAddr)) &&
      RunExit(events, nodeAddr) == if stops then Panicked else RunExit(events[1..], nodeAddr)
  {
  }

  /** The numbers of all DA blocks among `events`, in order. */
  function DANumbers(events: seq<Event>): seq<nat>
    decreases |events|
  {
    if events == [] then []
    else match events[0]
      case CloseSignal(_) => DANumbers(events[1..])
      case DABlock(inputs, _) => [inputs.daNumber] + DANumbers(events[1..])
  }
}
