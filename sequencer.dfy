/**
 * The sequencer worker (consensus/avail/sequencer.go) as a stateful object: the
 * transaction pool's queue it consumes, the DA clock it stores into, and the
 * trace of every call it makes to a collaborator. Each method is proved
 * against the reference functions of SequencerSpec.
 */
module Sequencer {
  import opened Results
  import Mechanism
  import opened SequencerSpec
  import opened SeqLemmas

  class SequencerWorker {
    const nodeAddr: Address
    const nodeType: Mechanism.MechanismType
    const blockTime: nat          // minimum block interval, whole seconds

    /** The transaction pool's queue of pending transactions, in peek order. */
    var pool: seq<Tx>
    /** The clock `t`: the number of the last DA block received. */
    var clock: int
    /** Every collaborator call made so far, in order. */
    var trace: seq<Call>

    constructor (nodeAddr: Address, nodeType: Mechanism.MechanismType, blockTime: nat, pool: seq<Tx>)
      ensures this.nodeAddr == nodeAddr && this.nodeType == nodeType && this.blockTime == blockTime
      ensures this.pool == pool && clock == 0 && trace == []
    {
      this.nodeAddr := nodeAddr;
      this.nodeType := nodeType;
      this.blockTime := blockTime;
      this.pool := pool;
      clock := 0;
      trace := [];
    }

    /**
     * Fills a block from the pool: peeks until the pool is empty or the
     * transition reports the block full; drops transactions that exceed the
     * block gas limit or fail for good, demotes those that fail recoverably,
     * and pops and returns those written successfully.
     */
    method WriteTransactions(gasLimit: nat, write: (seq<Tx>, Tx) -> WriteOutcome) returns (successful: seq<Tx>)
      modifies this
      ensures var s := Select(old(pool), gasLimit, write, []);
        successful == s.included && pool == s.rest && trace == old(trace) + [Prepare] + s.calls
      ensures clock == old(clock)
    {
      ghost var goal := Select(pool, gasLimit, write, []);
      successful := [];
      trace := trace + [Prepare];
      ghost var prefix := trace;
      ghost var done: seq<Call> := [];
      var stop := false;
      while !stop
        invariant trace == prefix + done
        invariant !stop ==> var s := Select(pool, gasLimit, write, successful);
          s.included == goal.included && s.rest == goal.rest && goal.calls == done + s.calls
        invariant stop ==> successful == goal.included && pool == goal.rest && goal.calls == done
        invariant clock == old(clock)
        decreases |pool|, !stop
      {
        ghost var pool0, successful0 := pool, successful;
        ghost var s := Select(pool, gasLimit, write, successful);
        ghost var seg;
        successful, stop, seg := SelectNext(gasLimit, write, successful);
        if pool0 == [] {
          assert s.calls == seg;
        } else if !Continues(pool0, gasLimit, write, successful0) {
          SelectHalt(pool0, gasLimit, write, successful0);
        } else {
          SelectStep(pool0, gasLimit, write, successful0);
          AppendAssoc(done, seg, Select(pool, gasLimit, write, successful).calls);
        }
        AppendAssoc(prefix, done, seg);
        done := done + seg;
      }
    }

    /**
     * One pass of writeTransactions' loop: peeks the pool's head and, unless
     * the pool is empty or the transition reports the gas limit reached, drops,
     * demotes or pops it. `seg` is the calls this pass makes.
     */
    method SelectNext(gasLimit: nat, write: (seq<Tx>, Tx) -> WriteOutcome, successful: seq<Tx>)
      returns (successful': seq<Tx>, stop: bool, ghost seg: seq<Call>)
      modifies this
      ensures trace == old(trace) + seg && clock == old(clock)
      ensures old(pool) == [] ==> stop && seg == [Peek(None)] && pool == old(pool) && successful' == successful
      ensures old(pool) != [] && !Continues(old(pool), gasLimit, write, successful) ==>
        stop && seg == [Peek(Some(old(pool)[0])), Write(old(pool)[0], GasLimitReached)] &&
        pool == old(pool) && successful' == successful
      ensures Continues(old(pool), gasLimit, write, successful) ==>
        var tx, outcome := old(pool)[0], write(successful, old(pool)[0]);
        !stop && seg == Segment(tx, gasLimit, outcome) && pool == old(pool)[1..] &&
        successful' == After(tx, gasLimit, outcome, successful)
    {
      successful' := successful;
      var next := if pool == [] then None else Some(pool[0]);
      trace := trace + [Peek(next)];
      if next.None? {
        return successful', true, [Peek(next)];
      }
      var tx := next.value;
      if ExceedsBlockGasLimit(tx, gasLimit) {
        pool := pool[1..];
        trace := trace + [Drop(tx)];
        return successful', false, [Peek(next), Drop(tx)];
      }
      var outcome := write(successful, tx);
      trace := trace + [Write(tx, outcome)];
      if outcome == GasLimitReached {
        return successful', true, [Peek(next), Write(tx, outcome)];
      }
      var reaction := Reaction(tx, outcome);
      pool := pool[1..];
      trace := trace + [reaction];
      if outcome == WriteOk {
        successful' := successful + [tx];
      }
      return successful', false, [Peek(next), Write(tx, outcome), reaction];
    }

    /**
     * One production attempt on `parent`: builds the header, selects and
     * executes transactions, seals, publishes to DA and waits for inclusion,
     * and only then writes locally and resets the pool. Any failing step ends
     * the attempt with its error.
     */
    method WriteBlock(account: Address, parent: Header, env: ProductionEnv) returns (err: Option<ProduceError>)
      modifies this
      ensures var p := Produce(old(pool), parent, account, Mechanism.String(nodeType), blockTime, env);
        err == p.err && trace == old(trace) + p.calls && pool == p.rest
      ensures clock == old(clock)
    {
      ghost var trace0, pool0 := trace, pool;
      ghost var p := Produce(pool0, parent, account, Mechanism.String(nodeType), blockTime, env);
      var header := Header(parent.hash, NextNumber(parent.number), account, parent.gasLimit, 0, env.now, 0, [], None, 0);

      ghost var done := [CalculateGasLimit(header.number)];
      trace := trace + [CalculateGasLimit(header.number)];
      if env.gasLimit.None? {
        assert p == Production(Some(GasLimitError), done, pool0);
        return Some(GasLimitError);
      }
      var gasLimit := env.gasLimit.value;
      header := header.(gasLimit := gasLimit);

      var headerTime := parent.timestamp + blockTime;
      if headerTime < env.now {
        headerTime := env.now;
      }
      header := header.(timestamp := headerTime);

      done := done + [AssignExtraValidators([account])];
      Extend(trace0, trace, done, AssignExtraValidators([account]));
      trace := trace + [AssignExtraValidators([account])];
      if !env.extraOk {
        assert p == Production(Some(ExtraValidatorsError), done, pool0);
        return Some(ExtraValidatorsError);
      }
      header := header.(validators := [account]);

      done := done + [BeginTxn(parent.stateRoot, account)];
      Extend(trace0, trace, done, BeginTxn(parent.stateRoot, account));
      trace := trace + [BeginTxn(parent.stateRoot, account)];
      if !env.beginTxnOk {
        assert p == Production(Some(BeginTxnError), done, pool0);
        return Some(BeginTxnError);
      }

      AppendAssoc(trace0, done, Complete(pool0, parent, account, Mechanism.String(nodeType), blockTime, env).calls);
      err := CompleteBlock(account, parent, env, header);
    }

    /**
     * The rest of writeBlock once the transition began: fills the block from
     * the pool, commits, seals, and publishes.
     */
    method CompleteBlock(account: Address, parent: Header, env: ProductionEnv, header: Header) returns (err: Option<ProduceError>)
      requires env.gasLimit.Some?
      requires header == Header(parent.hash, NextNumber(parent.number), account, env.gasLimit.value, 0,
                                BlockTimestamp(parent.timestamp, blockTime, env.now), 0, [account], None, 0)
      modifies this
      ensures var c := Complete(old(pool), parent, account, Mechanism.String(nodeType), blockTime, env);
        err == c.err && trace == old(trace) + c.calls && pool == c.rest
      ensures clock == old(clock)
    {
      ghost var trace0, pool0 := trace, pool;
      var gasLimit := env.gasLimit.value;
      ghost var sel := Select(pool0, gasLimit, env.write, []);
      var txns := WriteTransactions(gasLimit, env.write);
      ghost var sealing := [Prepare] + sel.calls + [Commit, WriteSeal];
      AppendAssoc(trace0, [Prepare], sel.calls);
      AppendAssoc(trace0, [Prepare] + sel.calls, [Commit, WriteSeal]);
      assert trace + [Commit, WriteSeal] == trace0 + sealing;

      trace := trace + [Commit];
      var blk := Block(header.(stateRoot := env.stateRoot), txns);
      blk := blk.(header := blk.header.(gasUsed := env.totalGas));

      trace := trace + [WriteSeal];
      if env.seal.None? {
        return Some(SealError);
      }
      blk := blk.(header := blk.header.(seal := env.seal));
      blk := blk.(header := blk.header.(hash := env.hashOf(blk.header)));
      assert blk == ProducedBlock(pool0, parent, account, blockTime, env);

      AppendAssoc(trace0, sealing, Publish(blk, Mechanism.String(nodeType), env).calls);
      err := PublishBlock(blk, env);
    }

    /**
     * The last steps of writeBlock: submits the block to DA and waits for its
     * inclusion, and only then writes it locally and resets the pool.
     */
    method PublishBlock(blk: Block, env: ProductionEnv) returns (err: Option<ProduceError>)
      modifies this
      ensures var pub := Publish(blk, Mechanism.String(nodeType), env);
        err == pub.err && trace == old(trace) + pub.calls
      ensures pool == old(pool) && clock == old(clock)
    {
      trace := trace + [SendAndWaitForStatus(blk, env.daIncluded)];
      if !env.daIncluded {
        return Some(SubmitError);
      }

      var stored := env.stored(blk);
      trace := trace + [Call.WriteBlock(blk, Mechanism.String(nodeType), stored)];
      if !stored {
        return Some(WriteBlockError);
      }

      trace := trace + [ResetWithHeaders(blk.header)];
      return None;
    }

    /**
     * One iteration of Run's loop on a DA block: stores its number into the
     * clock, writes the extracted blocks locally, runs the fraud checks, checks
     * the node's stake and, when the node leads the active set, produces a block.
     * A production error is returned to be logged; it does not end the loop.
     */
    method Tick(inputs: TickInputs, account: Address, env: ProductionEnv) returns (d: Decision, err: Option<ProduceError>)
      modifies this
      ensures clock == inputs.daNumber
      ensures d == Decide(inputs, nodeAddr)
      ensures var e := TickCalls(inputs, nodeAddr, account, Mechanism.String(nodeType), blockTime, old(pool), env);
        trace == old(trace) + e.calls && pool == e.rest && err == e.err
    {
      clock := inputs.daNumber;
      err := None;
      ghost var trace0, pool0 := trace, pool;
      var role := Mechanism.String(nodeType);

      var blocks := inputs.blocks;
      if |blocks| == 0 && inputs.extractErr.Some? {
        if inputs.extractErr.value != ErrNoExtrinsicFound {
          return Skip(ExtractionFailed), None;
        }
      }

      StoreExtracted(blocks, env.stored);

      ghost var fraud := StoreBlocks(blocks, role, env.stored) +
                         [CheckAndSetFraudBlock(blocks), CheckAndSlash(inputs.slashOk)];
      trace := trace + [CheckAndSetFraudBlock(blocks)];
      trace := trace + [CheckAndSlash(inputs.slashOk)];
      assert trace == trace0 + fraud;
      if !inputs.slashOk {
        return Skip(SlashFailed), None;
      }

      AppendAssoc(trace0, fraud, TurnCalls(inputs, nodeAddr, account, role, blockTime, pool0, env).calls);
      d, err := TakeTurn(inputs, account, env);
    }

    /**
     * The rest of a tick once the fraud checks passed: checks the node's stake,
     * queries the active set, and produces a block when the node is at its head.
     */
    method TakeTurn(inputs: TickInputs, account: Address, env: ProductionEnv) returns (d: Decision, err: Option<ProduceError>)
      requires !ExtractionAborts(inputs) && inputs.slashOk
      modifies this
      ensures d == Decide(inputs, nodeAddr)
      ensures var t := TurnCalls(inputs, nodeAddr, account, Mechanism.String(nodeType), blockTime, old(pool), env);
        trace == old(trace) + t.calls && pool == t.rest && err == t.err
      ensures clock == old(clock)
    {
      ghost var trace0, pool0 := trace, pool;
      trace := trace + [Contains(nodeAddr)];
      if inputs.staked.None? {
        return Skip(StakeCheckFailed), None;
      }
      if !inputs.staked.value {
        return Skip(NotStaked), None;
      }

      trace := trace + [GetActiveSet];
      if inputs.sequencers.None? {
        return Skip(ActiveSetQueryFailed), None;
      }
      var sequencers := inputs.sequencers.value;
      if |sequencers| == 0 {
        return NoStakedSequencers, None;
      }

      if sequencers[0] == nodeAddr {
        trace := trace + [ChainHeader];
        var header := inputs.head;
        ghost var p := Produce(pool0, header, account, Mechanism.String(nodeType), blockTime, env);
        AppendAssoc(trace0, [Contains(nodeAddr), GetActiveSet, ChainHeader], p.calls);
        err := WriteBlock(account, header, env);
        return MyTurn, err;
      }
      return NotMyTurn, None;
    }

    /** Writes each block extracted from a DA block to the local chain, in order. */
    method StoreExtracted(blocks: seq<Block>, stored: Block -> bool)
      modifies this
      ensures trace == old(trace) + StoreBlocks(blocks, Mechanism.String(nodeType), stored)
      ensures pool == old(pool) && clock == old(clock)
    {
      var role := Mechanism.String(nodeType);
      for i := 0 to |blocks|
        invariant trace == old(trace) + StoreBlocks(blocks[..i], role, stored)
        invariant pool == old(pool) && clock == old(clock)
      {
        trace := trace + [Call.WriteBlock(blocks[i], role, stored(blocks[i]))];
        assert blocks[..i + 1][..i] == blocks[..i];
      }
      assert blocks[..|blocks|] == blocks;
    }

    /** One DA block of the Run loop: a tick, whose production error the loop only logs. */
    method RunTick(inputs: TickInputs, account: Address, env: ProductionEnv) returns (d: Decision)
      modifies this
      ensures d == Decide(inputs, nodeAddr)
      ensures clock == inputs.daNumber
      ensures var e := TickCalls(inputs, nodeAddr, account, Mechanism.String(nodeType), blockTime, old(pool), env);
        trace == old(trace) + e.calls && pool == e.rest
    {
      var err;
      d, err := Tick(inputs, account, env);
    }

    /**
     * The worker loop over the DA blocks and the close signal, in the order
     * they arrive: ticks on each DA block until the active set comes back
     * empty (a panic), and unstakes and returns on the close signal. The clock
     * `t` is created afresh, at 0, by each run.
     */
    method Run(account: Address, events: seq<Event>) returns (exit: Exit)
      modifies this
      ensures exit == RunExit(events, nodeAddr)
      ensures var ticks := Ticks(events, nodeAddr);
        clock == if ticks == [] then 0 else ticks[|ticks| - 1]
      ensures var r := RunCalls(events, nodeAddr, account, Mechanism.String(nodeType), blockTime, old(pool));
        trace == old(trace) + r.calls && pool == r.rest
      ensures exit.ShutDown? ==> |trace| > 0 && trace[|trace| - 1] == UnStake(!exit.unstakeFailed)
    {
      clock := 0;
      ghost var seen: seq<nat> := [];
      ghost var done: seq<Call> := [];
      ghost var role := Mechanism.String(nodeType);
      ghost var pool0 := pool;
      var stream := events;
      while stream != []
        invariant LoopInvariant(events, stream, nodeAddr, account, role, blockTime, pool0, seen, done, clock, pool)
        invariant trace == old(trace) + done
        decreases |stream|
      {
        LoopInvariantExit(events, stream, nodeAddr, account, role, blockTime, pool0, seen, done, clock, pool);
        if stream[0].CloseSignal? {
          var unstakeOk := stream[0].unstakeOk;
          trace := trace + [UnStake(unstakeOk)];
          AppendAssoc(old(trace), done, [UnStake(unstakeOk)]);
          return ShutDown(!unstakeOk);
        }
        var inputs, env := stream[0].inputs, stream[0].env;
        ghost var e := TickCalls(inputs, nodeAddr, account, role, blockTime, pool, env);
        ghost var d0 := Decide(inputs, nodeAddr);
        if d0 != NoStakedSequencers {
          LoopInvariantTick(events, stream, nodeAddr, account, role, blockTime, pool0, seen, done, clock, pool);
        }
        var d := RunTick(inputs, account, env);
        AppendAssoc(old(trace), done, e.calls);
        if d == NoStakedSequencers {
          return Panicked;
        }
        seen := seen + [inputs.daNumber];
        done := done + e.calls;
        stream := stream[1..];
      }
      LoopInvariantExit(events, stream, nodeAddr, account, role, blockTime, pool0, seen, done, clock, pool);
      return StreamEnded;
    }
  }
}
