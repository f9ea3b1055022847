/**
 * What the sequencer's reference functions guarantee: the selection policy,
 * the order of the production steps, the tick's decision and the clock.
 */
module SequencerProperties {
  import opened Results
  import opened SequencerSpec
  import opened SeqLemmas

  // ---------------------------------------------------------------------------
  // Reading a trace
  // ---------------------------------------------------------------------------

  /** The transaction a call pops, if it is a Pop. */
  function PopOf(c: Call): seq<Tx> {
    if c.Pop? then [c.tx] else []
  }

  /** The transaction a call writes successfully, if it is a successful Write. */
  function SuccessOf(c: Call): seq<Tx> {
    if c.Write? && c.outcome == WriteOk then [c.tx] else []
  }

  /** The transactions popped, in the order of the Pop calls. */
  function Popped(calls: seq<Call>): seq<Tx>
    decreases |calls|
  {
    if calls == [] then [] else PopOf(calls[0]) + Popped(calls[1..])
  }

  /** The transactions whose Write succeeded, in the order of the Write calls. */
  function Succeeded(calls: seq<Call>): seq<Tx>
    decreases |calls|
  {
    if calls == [] then [] else SuccessOf(calls[0]) + Succeeded(calls[1..])
  }

  /** Whether `c` is a Pop, Drop or Demote of `tx`. */
  predicate IsPoolAction(c: Call, tx: Tx) {
    c == Pop(tx) || c == Drop(tx) || c == Demote(tx)
  }

  /** How many pool actions the calls apply to `tx`. */
  function Actions(calls: seq<Call>, tx: Tx): nat
    decreases |calls|
  {
    if calls == [] then 0 else (if IsPoolAction(calls[0], tx) then 1 else 0) + Actions(calls[1..], tx)
  }

  predicate Distinct(txs: seq<Tx>) {
    forall i, j :: 0 <= i < j < |txs| ==> txs[i] != txs[j]
  }

  function SumGas(txs: seq<Tx>): nat
    decreases |txs|
  {
    if txs == [] then 0 else SumGas(txs[..|txs| - 1]) + txs[|txs| - 1].gas
  }

  lemma {:induction false} PoppedAppend(a: seq<Call>, b: seq<Call>)
    ensures Popped(a + b) == Popped(a) + Popped(b)
    decreases |a|
  {
    if a == [] {
      assert a + b == b;
    } else {
      var c, a' := a[0], a[1..];
      assert (a + b)[0] == c && (a + b)[1..] == a' + b;
      PoppedAppend(a', b);
      assert Popped(a + b) == PopOf(c) + (Popped(a') + Popped(b));
    }
  }

  lemma {:induction false} SucceededAppend(a: seq<Call>, b: seq<Call>)
    ensures Succeeded(a + b) == Succeeded(a) + Succeeded(b)
    decreases |a|
  {
    if a == [] {
      assert a + b == b;
    } else {
      var c, a' := a[0], a[1..];
      assert (a + b)[0] == c && (a + b)[1..] == a' + b;
      SucceededAppend(a', b);
      assert Succeeded(a + b) == SuccessOf(c) + (Succeeded(a') + Succeeded(b));
    }
  }

  lemma {:induction false} ActionsAppend(a: seq<Call>, b: seq<Call>, tx: Tx)
    ensures Actions(a + b, tx) == Actions(a, tx) + Actions(b, tx)
    decreases |a|
  {
    if a == [] {
      assert a + b == b;
    } else {
      assert (a + b)[1..] == a[1..] + b;
      ActionsAppend(a[1..], b, tx);
    }
  }

  // ---------------------------------------------------------------------------
  // Transaction selection
  // ---------------------------------------------------------------------------

  /** Selection starts with a Peek and consumes a prefix of the pool. */
  lemma {:induction false} SelectConsumesPrefix(pending: seq<Tx>, gasLimit: nat, write: (seq<Tx>, Tx) -> WriteOutcome, included: seq<Tx>)
    ensures var s := Select(pending, gasLimit, write, included);
      |s.calls| > 0 && s.calls[0].Peek? &&
      |s.rest| <= |pending| && s.rest == pending[|pending| - |s.rest|..]
    decreases |pending|
  {
    if pending == [] {
    } else if !Continues(pending, gasLimit, write, included) {
      SelectHalt(pending, gasLimit, write, included);
    } else {
      var tx, outcome := pending[0], write(included, pending[0]);
      var next := After(tx, gasLimit, outcome, included);
      var s := Select(pending, gasLimit, write, included);
      var sub := Select(pending[1..], gasLimit, write, next);
      SelectStep(pending, gasLimit, write, included);
      SelectConsumesPrefix(pending[1..], gasLimit, write, next);
      assert s.calls[0] == Segment(tx, gasLimit, outcome)[0];
      assert pending[1..][|pending| - 1 - |sub.rest|..] == pending[|pending| - |s.rest|..];
    }
  }

  /**
   * Selection stops either on an empty pool or on a transaction that fits the
   * block but that the transition reported as reaching the gas limit; that
   * transaction stays at the head of the pool.
   */
  lemma {:induction false} SelectStopsOnlyWhenEmptyOrFull(pending: seq<Tx>, gasLimit: nat, write: (seq<Tx>, Tx) -> WriteOutcome, included: seq<Tx>)
    ensures var s := Select(pending, gasLimit, write, included);
      |s.calls| > 0 &&
      (s.rest == [] ==> s.calls[|s.calls| - 1] == Peek(None)) &&
      (s.rest != [] ==>
        !ExceedsBlockGasLimit(s.rest[0], gasLimit) && write(s.included, s.rest[0]) == GasLimitReached &&
        |s.calls| >= 2 && s.calls[|s.calls| - 2] == Peek(Some(s.rest[0])) &&
        s.calls[|s.calls| - 1] == Write(s.rest[0], GasLimitReached))
    decreases |pending|
  {
    if pending == [] {
    } else if !Continues(pending, gasLimit, write, included) {
      SelectHalt(pending, gasLimit, write, included);
    } else {
      var tx, outcome := pending[0], write(included, pending[0]);
      var next := After(tx, gasLimit, outcome, included);
      var s := Select(pending, gasLimit, write, included);
      var sub := Select(pending[1..], gasLimit, write, next);
      SelectStep(pending, gasLimit, write, included);
      SelectStopsOnlyWhenEmptyOrFull(pending[1..], gasLimit, write, next);
      assert s.calls[|s.calls| - 1] == sub.calls[|sub.calls| - 1];
      if sub.rest != [] {
        assert s.calls[|s.calls| - 2] == sub.calls[|sub.calls| - 2];
      }
    }
  }

  /** Popped, Succeeded and Actions of a single call. */
  lemma SingleEffect(c: Call)
    ensures Popped([c]) == PopOf(c) && Succeeded([c]) == SuccessOf(c)
    ensures forall t :: Actions([c], t) == if IsPoolAction(c, t) then 1 else 0
  {
    assert [c][1..] == [];
  }

  /** The pool actions and successful writes of one segment. */
  lemma SegmentEffect(tx: Tx, gasLimit: nat, outcome: WriteOutcome)
    requires ExceedsBlockGasLimit(tx, gasLimit) || outcome != GasLimitReached
    ensures var seg, mine := Segment(tx, gasLimit, outcome), After(tx, gasLimit, outcome, []);
      Popped(seg) == mine && Succeeded(seg) == mine &&
      (forall t :: Actions(seg, t) == if t == tx then 1 else 0)
  {
    var peek := Peek(Some(tx));
    SingleEffect(peek);
    if ExceedsBlockGasLimit(tx, gasLimit) {
      SingleEffect(Drop(tx));
      assert Segment(tx, gasLimit, outcome) == [peek] + [Drop(tx)];
      PoppedAppend([peek], [Drop(tx)]);
      SucceededAppend([peek], [Drop(tx)]);
      forall t ensures Actions([peek] + [Drop(tx)], t) == if t == tx then 1 else 0 {
        ActionsAppend([peek], [Drop(tx)], t);
      }
    } else {
      var w, r := Write(tx, outcome), Reaction(tx, outcome);
      SingleEffect(w);
      SingleEffect(r);
      assert Segment(tx, gasLimit, outcome) == [peek] + ([w] + [r]);
      PoppedAppend([w], [r]);
      PoppedAppend([peek], [w] + [r]);
      SucceededAppend([w], [r]);
      SucceededAppend([peek], [w] + [r]);
      forall t ensures Actions([peek] + ([w] + [r]), t) == if t == tx then 1 else 0 {
        ActionsAppend([w], [r], t);
        ActionsAppend([peek], [w] + [r], t);
      }
    }
  }

  /** The two calls of a stop make no pool action and no successful write. */
  lemma HaltEffect(tx: Tx)
    ensures var halt := [Peek(Some(tx)), Write(tx, GasLimitReached)];
      Popped(halt) == [] && Succeeded(halt) == [] && (forall t :: Actions(halt, t) == 0)
  {
    var peek, w := Peek(Some(tx)), Write(tx, GasLimitReached);
    SingleEffect(peek);
    SingleEffect(w);
    assert [peek, w] == [peek] + [w];
    PoppedAppend([peek], [w]);
    SucceededAppend([peek], [w]);
    forall t ensures Actions([peek] + [w], t) == 0 {
      ActionsAppend([peek], [w], t);
    }
  }

  /** The returned transactions are exactly those whose Write succeeded, in order, and each was popped. */
  lemma {:induction false} SelectReturnsWhatWasWritten(pending: seq<Tx>, gasLimit: nat, write: (seq<Tx>, Tx) -> WriteOutcome, included: seq<Tx>)
    ensures var s := Select(pending, gasLimit, write, included);
      s.included == included + Succeeded(s.calls) && Popped(s.calls) == Succeeded(s.calls)
    decreases |pending|
  {
    if pending == [] {
      var s := Select(pending, gasLimit, write, included);
      assert s.calls == [Peek(None)] && s.calls[1..] == [];
    } else if !Continues(pending, gasLimit, write, included) {
      SelectHalt(pending, gasLimit, write, included);
      HaltEffect(pending[0]);
    } else {
      var tx, outcome := pending[0], write(included, pending[0]);
      var next := After(tx, gasLimit, outcome, included);
      var seg := Segment(tx, gasLimit, outcome);
      var sub := Select(pending[1..], gasLimit, write, next);
      SelectStep(pending, gasLimit, write, included);
      SelectReturnsWhatWasWritten(pending[1..], gasLimit, write, next);
      PoppedAppend(seg, sub.calls);
      SucceededAppend(seg, sub.calls);
      SegmentEffect(tx, gasLimit, outcome);
      var mine := After(tx, gasLimit, outcome, []);
      assert next == included + mine;
      AppendAssoc(included, mine, Succeeded(sub.calls));
    }
  }

  /** The first `k` transactions of a pool without repeats: its head, then the next `k - 1`. */
  lemma DistinctHead(pending: seq<Tx>, k: nat)
    requires Distinct(pending) && 1 <= k <= |pending|
    ensures Distinct(pending[1..])
    ensures pending[..k] == [pending[0]] + pending[1..][..k - 1]
    ensures pending[0] !in pending[1..][..k - 1]
  {
    var rest := pending[1..][..k - 1];
    forall j | 0 <= j < |rest| ensures rest[j] != pending[0] {
      assert rest[j] == pending[j + 1];
    }
  }

  /**
   * Every transaction selection consumed gets exactly one pool action; the one
   * it stopped on (and every other) gets none.
   */
  lemma {:induction false} SelectActsOncePerConsumedTx(pending: seq<Tx>, gasLimit: nat, write: (seq<Tx>, Tx) -> WriteOutcome, included: seq<Tx>)
    requires Distinct(pending)
    ensures var s := Select(pending, gasLimit, write, included);
      |s.rest| <= |pending| &&
      (forall tx :: tx in pending[..|pending| - |s.rest|] ==> Actions(s.calls, tx) == 1) &&
      (forall tx :: tx !in pending[..|pending| - |s.rest|] ==> Actions(s.calls, tx) == 0)
    decreases |pending|
  {
    if pending == [] {
      var s := Select(pending, gasLimit, write, included);
      assert s.calls == [Peek(None)] && s.calls[1..] == [];
    } else if !Continues(pending, gasLimit, write, included) {
      SelectHalt(pending, gasLimit, write, included);
      HaltEffect(pending[0]);
    } else {
      var tx, outcome := pending[0], write(included, pending[0]);
      var next := After(tx, gasLimit, outcome, included);
      var seg := Segment(tx, gasLimit, outcome);
      var s := Select(pending, gasLimit, write, included);
      var sub := Select(pending[1..], gasLimit, write, next);
      SelectStep(pending, gasLimit, write, included);
      DistinctHead(pending, 1);
      SelectActsOncePerConsumedTx(pending[1..], gasLimit, write, next);
      SegmentEffect(tx, gasLimit, outcome);
      var done' := pending[1..][..|pending| - 1 - |s.rest|];
      DistinctHead(pending, |pending| - |s.rest|);
      ActionsOfStep(seg, sub.calls, tx, done');
    }
  }

  /** A segment acting once on `tx`, followed by calls acting once on each of `done'`. */
  lemma ActionsOfStep(seg: seq<Call>, subCalls: seq<Call>, tx: Tx, done': seq<Tx>)
    requires forall t :: Actions(seg, t) == if t == tx then 1 else 0
    requires forall t :: t in done' ==> Actions(subCalls, t) == 1
    requires forall t :: t !in done' ==> Actions(subCalls, t) == 0
    requires tx !in done'
    ensures forall t :: t in [tx] + done' ==> Actions(seg + subCalls, t) == 1
    ensures forall t :: t !in [tx] + done' ==> Actions(seg + subCalls, t) == 0
  {
    forall t ensures Actions(seg + subCalls, t) == if t in [tx] + done' then 1 else 0 {
      ActionsAppend(seg, subCalls, t);
    }
  }

  /**
   * The rule of selection at position `i` of its calls: what must come just
   * before and just after each kind of call.
   */
  predicate PolicyAt(c: seq<Call>, i: nat, gasLimit: nat)
    requires i < |c|
  {
    match c[i]
    case Peek(next) =>
      if next.None? then i == |c| - 1
      else if ExceedsBlockGasLimit(next.value, gasLimit) then i + 1 < |c| && c[i + 1] == Drop(next.value)
      else i + 1 < |c| && c[i + 1].Write? && c[i + 1].tx == next.value
    case Write(tx, outcome) =>
      0 < i && c[i - 1] == Peek(Some(tx)) && !ExceedsBlockGasLimit(tx, gasLimit) &&
      if outcome == GasLimitReached then i == |c| - 1
      else i + 1 < |c| && c[i + 1] == Reaction(tx, outcome)
    case Pop(tx) => 0 < i && c[i - 1] == Write(tx, WriteOk)
    case Demote(tx) => 0 < i && c[i - 1] == Write(tx, ApplicationError(true))
    case Drop(tx) =>
      0 < i &&
      ((c[i - 1] == Peek(Some(tx)) && ExceedsBlockGasLimit(tx, gasLimit)) ||
       c[i - 1] == Write(tx, ApplicationError(false)) || c[i - 1] == Write(tx, UnknownError))
    case _ => false
  }

  predicate FollowsPolicy(c: seq<Call>, gasLimit: nat) {
    forall i: nat :: i < |c| ==> PolicyAt(c, i, gasLimit)
  }

  /** A segment in front of calls that follow the policy and start with a Peek still follows it. */
  lemma PrependSegment(tx: Tx, gasLimit: nat, outcome: WriteOutcome, rest: seq<Call>)
    requires ExceedsBlockGasLimit(tx, gasLimit) || outcome != GasLimitReached
    requires FollowsPolicy(rest, gasLimit) && |rest| > 0 && rest[0].Peek?
    ensures FollowsPolicy(Segment(tx, gasLimit, outcome) + rest, gasLimit)
  {
    var seg := Segment(tx, gasLimit, outcome);
    var c := seg + rest;
    forall i: nat | i < |c| ensures PolicyAt(c, i, gasLimit) {
      if i < |seg| {
        assert c[i] == seg[i];
        if i + 1 < |seg| {
          assert c[i + 1] == seg[i + 1];
        }
        if 0 < i {
          assert c[i - 1] == seg[i - 1];
        }
      } else {
        var j: nat := i - |seg|;
        assert PolicyAt(rest, j, gasLimit);
        assert c[i] == rest[j];
        if j + 1 < |rest| {
          assert c[i + 1] == rest[j + 1];
        }
        if 0 < j {
          assert c[i - 1] == rest[j - 1];
        }
      }
    }
  }

  /**
   * Selection follows the policy: a Peek of an oversize transaction is followed
   * by its Drop and no Write; any other peeked transaction is written next; a
   * gas-limit-reached Write is the last call; any other Write is followed by its
   * reaction (Pop on success, Demote on a recoverable error, Drop otherwise);
   * and an empty Peek is the last call.
   */
  lemma {:induction false} SelectFollowsPolicy(pending: seq<Tx>, gasLimit: nat, write: (seq<Tx>, Tx) -> WriteOutcome, included: seq<Tx>)
    ensures FollowsPolicy(Select(pending, gasLimit, write, included).calls, gasLimit)
    decreases |pending|
  {
    if pending == [] {
      var c := Select(pending, gasLimit, write, included).calls;
      assert c == [Peek(None)];
      assert PolicyAt(c, 0, gasLimit);
    } else if !Continues(pending, gasLimit, write, included) {
      SelectHalt(pending, gasLimit, write, included);
      var c := Select(pending, gasLimit, write, included).calls;
      assert PolicyAt(c, 0, gasLimit) && PolicyAt(c, 1, gasLimit);
    } else {
      var tx, outcome := pending[0], write(included, pending[0]);
      var next := After(tx, gasLimit, outcome, included);
      SelectStep(pending, gasLimit, write, included);
      SelectFollowsPolicy(pending[1..], gasLimit, write, next);
      SelectConsumesPrefix(pending[1..], gasLimit, write, next);
      PrependSegment(tx, gasLimit, outcome, Select(pending[1..], gasLimit, write, next).calls);
    }
  }

  /** The transition admits a transaction only while the block's gas pool has room for it. */
  ghost predicate RespectsGasPool(write: (seq<Tx>, Tx) -> WriteOutcome, gasLimit: nat) {
    forall w, tx :: write(w, tx) == WriteOk ==> SumGas(w) + tx.gas <= gasLimit
  }

  /** With such a transition, the selected transactions fit into the block gas limit. */
  lemma {:induction false} SelectStaysWithinGasLimit(pending: seq<Tx>, gasLimit: nat, write: (seq<Tx>, Tx) -> WriteOutcome, included: seq<Tx>)
    requires RespectsGasPool(write, gasLimit) && SumGas(included) <= gasLimit
    ensures SumGas(Select(pending, gasLimit, write, included).included) <= gasLimit
    decreases |pending|
  {
    if pending == [] {
    } else if !Continues(pending, gasLimit, write, included) {
      SelectHalt(pending, gasLimit, write, included);
    } else {
      var tx, outcome := pending[0], write(included, pending[0]);
      var next := After(tx, gasLimit, outcome, included);
      SelectStep(pending, gasLimit, write, included);
      if next != included {
        assert next[..|next| - 1] == included;
      }
      SelectStaysWithinGasLimit(pending[1..], gasLimit, write, next);
    }
  }

  /** A transition backed by a gas pool of `limit`: admits a transaction while it fits, else reports the limit reached. */
  function GasPoolWrite(limit: nat): (seq<Tx>, Tx) -> WriteOutcome {
    (w: seq<Tx>, tx: Tx) => if SumGas(w) + tx.gas <= limit then WriteOk else GasLimitReached
  }

  lemma GasPoolWriteRespectsGasPool(limit: nat)
    ensures RespectsGasPool(GasPoolWrite(limit), limit)
  {
  }

  /**
   * Pool [50, 60, 5] (gas) against a block gas limit of 100: the first fits, the
   * second reports the limit reached and ends selection, so the third is never
   * peeked even though it would fit, and both stay in the pool.
   */
  lemma GasLimitReachedEndsSelection()
    ensures var pool := [Tx(1, 50), Tx(2, 60), Tx(3, 5)];
      var s := Select(pool, 100, GasPoolWrite(100), []);
      s.included == [Tx(1, 50)] && s.rest == [Tx(2, 60), Tx(3, 5)]
  {
    var pool := [Tx(1, 50), Tx(2, 60), Tx(3, 5)];
    var write := GasPoolWrite(100);
    assert SumGas([Tx(1, 50)]) == 50 by {
      assert [Tx(1, 50)][..0] == [];
    }
    assert write([], pool[0]) == WriteOk;
    assert pool[1..][0] == Tx(2, 60);
    assert write([Tx(1, 50)], Tx(2, 60)) == GasLimitReached;
    SelectStep(pool, 100, write, []);
    SelectHalt(pool[1..], 100, write, [Tx(1, 50)]);
  }

  /** Selection makes only txpool and transition calls. */
  lemma SelectCallsArePoolCalls(pending: seq<Tx>, gasLimit: nat, write: (seq<Tx>, Tx) -> WriteOutcome)
    ensures forall c :: c in Select(pending, gasLimit, write, []).calls ==>
      c.Peek? || c.Write? || c.Pop? || c.Drop? || c.Demote?
  {
    var calls := Select(pending, gasLimit, write, []).calls;
    SelectFollowsPolicy(pending, gasLimit, write, []);
    forall c | c in calls ensures c.Peek? || c.Write? || c.Pop? || c.Drop? || c.Demote? {
      var i :| 0 <= i < |calls| && calls[i] == c;
      assert PolicyAt(calls, i, gasLimit);
    }
  }

  // ---------------------------------------------------------------------------
  // Block production
  // ---------------------------------------------------------------------------

  /**
   * The produced header takes the next number, the parent's hash, the
   * calculated gas limit (not the parent's), the transition's total gas, the
   * committed state root, the node as miner and only validator, the seal, and
   * the later of parent time + block time and now; its hash is computed over
   * all of these. The block carries the selected transactions.
   */
  lemma ProducedBlockFields(pool: seq<Tx>, parent: Header, account: Address, blockTime: nat, env: ProductionEnv)
    requires env.gasLimit.Some? && env.seal.Some?
    ensures var b := ProducedBlock(pool, parent, account, blockTime, env);
      var h := b.header;
      h.number == NextNumber(parent.number) && h.parentHash == parent.hash &&
      h.gasLimit == env.gasLimit.value && h.gasUsed == env.totalGas && h.stateRoot == env.stateRoot &&
      h.miner == account && h.validators == [account] && h.seal == env.seal &&
      h.timestamp >= parent.timestamp + blockTime && h.timestamp >= env.now &&
      (h.timestamp == parent.timestamp + blockTime || h.timestamp == env.now) &&
      h.hash == env.hashOf(h.(hash := 0)) &&
      b.txs == Select(pool, env.gasLimit.value, env.write, []).included
  {
  }

  /** The call through which a production step reports its failure. */
  predicate FailedAt(err: ProduceError, c: Call) {
    match err
    case GasLimitError => c.CalculateGasLimit?
    case ExtraValidatorsError => c.AssignExtraValidators?
    case BeginTxnError => c.BeginTxn?
    case SealError => c == WriteSeal
    case SubmitError => c.SendAndWaitForStatus? && !c.included
    case WriteBlockError => c.WriteBlock? && !c.stored
  }

  /** A call that publishes or persists a block, or resets the pool. */
  predicate ChainEffect(c: Call) {
    c.SendAndWaitForStatus? || c.WriteBlock? || c.ResetWithHeaders?
  }

  /** The calls up to the seal of a production attempt whose transition began publish and persist nothing. */
  lemma SealingCalls(pool: seq<Tx>, parent: Header, account: Address, env: ProductionEnv)
    requires env.gasLimit.Some?
    ensures var sel := Select(pool, env.gasLimit.value, env.write, []);
      var sealing := [CalculateGasLimit(NextNumber(parent.number)), AssignExtraValidators([account]),
                      BeginTxn(parent.stateRoot, account), Prepare] + sel.calls + [Commit, WriteSeal];
      forall c :: c in sealing ==> !ChainEffect(c)
  {
    SelectCallsArePoolCalls(pool, env.gasLimit.value, env.write);
  }

  /** A production attempt whose transition began: the calls up to the seal, then submission, local write and reset. */
  lemma ProduceCalls(pool: seq<Tx>, parent: Header, account: Address, role: string, blockTime: nat, env: ProductionEnv)
    requires env.gasLimit.Some? && env.extraOk && env.beginTxnOk
    ensures var sel := Select(pool, env.gasLimit.value, env.write, []);
      var sealing := [CalculateGasLimit(NextNumber(parent.number)), AssignExtraValidators([account]),
                      BeginTxn(parent.stateRoot, account), Prepare] + sel.calls + [Commit, WriteSeal];
      var p := Produce(pool, parent, account, role, blockTime, env);
      (forall c :: c in sealing ==> !ChainEffect(c)) &&
      (env.seal.None? ==> p.calls == sealing) &&
      (env.seal.Some? ==>
        p.calls == sealing + Publish(ProducedBlock(pool, parent, account, blockTime, env), role, env).calls)
  {
    SealingCalls(pool, parent, account, env);
    var sel := Select(pool, env.gasLimit.value, env.write, []);
    var begun := [CalculateGasLimit(NextNumber(parent.number))] + [AssignExtraValidators([account])] +
                 [BeginTxn(parent.stateRoot, account)];
    var sealing := [CalculateGasLimit(NextNumber(parent.number)), AssignExtraValidators([account]),
                    BeginTxn(parent.stateRoot, account), Prepare] + sel.calls + [Commit, WriteSeal];
    var tail := [Prepare] + sel.calls + [Commit, WriteSeal];
    assert begun + tail == sealing;
    if env.seal.Some? {
      AppendAssoc(begun, tail, Publish(ProducedBlock(pool, parent, account, blockTime, env), role, env).calls);
    }
  }

  /**
   * A production attempt ends with the call of the step that failed, or with the
   * pool reset when nothing failed. A failure before the DA submission succeeded
   * leaves no local write and no reset; a failure before the seal leaves no
   * submission; a failure before the transition began leaves the pool untouched.
   */
  lemma ProduceOutcome(pool: seq<Tx>, parent: Header, account: Address, role: string, blockTime: nat, env: ProductionEnv)
    ensures var p := Produce(pool, parent, account, role, blockTime, env);
      |p.calls| > 0 && p.calls[0] == CalculateGasLimit(NextNumber(parent.number)) &&
      (p.err.None? <==> p.calls[|p.calls| - 1].ResetWithHeaders?) &&
      (p.err.Some? ==> FailedAt(p.err.value, p.calls[|p.calls| - 1])) &&
      (p.err.Some? ==> forall c :: c in p.calls ==> !c.ResetWithHeaders?) &&
      (p.err.Some? && p.err != Some(WriteBlockError) ==> forall c :: c in p.calls ==> !c.WriteBlock?) &&
      (p.err.Some? && p.err != Some(WriteBlockError) && p.err != Some(SubmitError) ==>
        forall c :: c in p.calls ==> !ChainEffect(c)) &&
      (p.err == Some(GasLimitError) || p.err == Some(ExtraValidatorsError) || p.err == Some(BeginTxnError) ==>
        p.rest == pool && Prepare !in p.calls)
  {
    if env.gasLimit.Some? && env.extraOk && env.beginTxnOk {
      ProduceCalls(pool, parent, account, role, blockTime, env);
      if env.seal.Some? {
        var sel := Select(pool, env.gasLimit.value, env.write, []);
        var sealing := [CalculateGasLimit(NextNumber(parent.number)), AssignExtraValidators([account]),
                        BeginTxn(parent.stateRoot, account), Prepare] + sel.calls + [Commit, WriteSeal];
        var pub := Publish(ProducedBlock(pool, parent, account, blockTime, env), role, env).calls;
        var p := Produce(pool, parent, account, role, blockTime, env);
        forall c | c in p.calls && !ChainEffect(c) ensures c in sealing {
          assert c in sealing || c in pub;
        }
      }
    }
  }

  /**
   * A local write comes right after the successful DA submission of the same
   * block, and a pool reset right after the successful local write of the block
   * with that header.
   */
  predicate ChainOrdered(calls: seq<Call>) {
    (forall i :: 0 <= i < |calls| && calls[i].WriteBlock? ==>
      0 < i && calls[i - 1] == SendAndWaitForStatus(calls[i].block, true)) &&
    (forall i :: 0 <= i < |calls| && calls[i].ResetWithHeaders? ==>
      0 < i && calls[i - 1].WriteBlock? && calls[i - 1].stored && calls[i - 1].block.header == calls[i].header)
  }

  /** Calls that publish and persist nothing keep the ordering of whatever follows them. */
  lemma ChainOrderedAfter(pre: seq<Call>, post: seq<Call>)
    requires forall c :: c in pre ==> !ChainEffect(c)
    requires ChainOrdered(post)
    ensures ChainOrdered(pre + post)
  {
    var calls := pre + post;
    forall i | 0 <= i < |pre| ensures !ChainEffect(calls[i]) {
      assert calls[i] == pre[i] && pre[i] in pre;
    }
    forall i | |pre| <= i < |calls| ensures calls[i] == post[i - |pre|] {
    }
  }

  /** Publication writes locally only after a successful submission, and resets only after a successful local write. */
  lemma PublishOrdered(blk: Block, role: string, env: ProductionEnv)
    ensures ChainOrdered(Publish(blk, role, env).calls)
  {
  }

  /**
   * Block production's ordering: the local write of a block comes right after
   * the successful DA submission of that same block, and the pool reset right
   * after the successful local write of the block with that header. The block
   * submitted is the produced block.
   */
  lemma ProduceOrdering(pool: seq<Tx>, parent: Header, account: Address, role: string, blockTime: nat, env: ProductionEnv)
    ensures var p := Produce(pool, parent, account, role, blockTime, env);
      ChainOrdered(p.calls) &&
      (forall c :: c in p.calls && c.SendAndWaitForStatus? ==>
        env.gasLimit.Some? && env.seal.Some? && c.block == ProducedBlock(pool, parent, account, blockTime, env))
  {
    var p := Produce(pool, parent, account, role, blockTime, env);
    if env.gasLimit.Some? && env.extraOk && env.beginTxnOk && env.seal.Some? {
      ProduceCalls(pool, parent, account, role, blockTime, env);
      var sel := Select(pool, env.gasLimit.value, env.write, []);
      var sealing := [CalculateGasLimit(NextNumber(parent.number)), AssignExtraValidators([account]),
                      BeginTxn(parent.stateRoot, account), Prepare] + sel.calls + [Commit, WriteSeal];
      var pub := Publish(ProducedBlock(pool, parent, account, blockTime, env), role, env).calls;
      PublishOrdered(ProducedBlock(pool, parent, account, blockTime, env), role, env);
      ChainOrderedAfter(sealing, pub);
      forall c | c in p.calls && c.SendAndWaitForStatus? ensures c in pub {
        assert c in sealing || c in pub;
      }
    } else {
      ProduceOutcome(pool, parent, account, role, blockTime, env);
      ChainOrderedAfter(p.calls, []);
      assert p.calls + [] == p.calls;
    }
  }

  // ---------------------------------------------------------------------------
  // One DA tick
  // ---------------------------------------------------------------------------

  /**
   * A tick whose extraction did not abort first writes every extracted block
   * locally, in order, then runs the fraud check and the slash check; a tick
   * whose extraction aborted calls nothing.
   */
  lemma TickStoresExtractedBlocksFirst(inputs: TickInputs, nodeAddr: Address, account: Address, role: string,
                                       blockTime: nat, pool: seq<Tx>, env: ProductionEnv)
    ensures var e := TickCalls(inputs, nodeAddr, account, role, blockTime, pool, env);
      var n := |inputs.blocks|;
      (ExtractionAborts(inputs) <==> e.calls == []) &&
      (!ExtractionAborts(inputs) ==>
        |e.calls| >= n + 2 && e.calls[..n] == StoreBlocks(inputs.blocks, role, env.stored) &&
        e.calls[n] == CheckAndSetFraudBlock(inputs.blocks) && e.calls[n + 1] == CheckAndSlash(inputs.slashOk))
    ensures var e := TickCalls(inputs, nodeAddr, account, role, blockTime, pool, env);
      !ExtractionAborts(inputs) ==>
        forall i :: 0 <= i < |inputs.blocks| ==>
          e.calls[i] == WriteBlock(inputs.blocks[i], role, env.stored(inputs.blocks[i]))
  {
    var e := TickCalls(inputs, nodeAddr, account, role, blockTime, pool, env);
    var fraud := StoreBlocks(inputs.blocks, role, env.stored) +
                 [CheckAndSetFraudBlock(inputs.blocks), CheckAndSlash(inputs.slashOk)];
    if !ExtractionAborts(inputs) {
      assert e.calls[..|fraud|] == fraud;
      assert fraud[..|inputs.blocks|] == StoreBlocks(inputs.blocks, role, env.stored);
    }
  }

  /**
   * Only the leader's tick produces: a tick that is not the node's turn leaves
   * the pool and returns no error, and its only local writes are of the
   * extracted blocks; a tick that prepares the pool or submits to DA is the
   * node's turn at the head of a non-empty active set.
   */
  lemma TickProducesOnlyOnTurn(inputs: TickInputs, nodeAddr: Address, account: Address, role: string,
                               blockTime: nat, pool: seq<Tx>, env: ProductionEnv)
    ensures var e := TickCalls(inputs, nodeAddr, account, role, blockTime, pool, env);
      (Decide(inputs, nodeAddr) != MyTurn ==>
        e.rest == pool && e.err.None? &&
        forall c :: c in e.calls ==>
          !c.Prepare? && !c.SendAndWaitForStatus? && !c.ResetWithHeaders? && (c.WriteBlock? ==> c.block in inputs.blocks)) &&
      ((exists c :: c in e.calls && (c.Prepare? || c.SendAndWaitForStatus?)) ==>
        ActiveThisTick(inputs) && |inputs.sequencers.value| > 0 && inputs.sequencers.value[0] == nodeAddr)
  {
    var e := TickCalls(inputs, nodeAddr, account, role, blockTime, pool, env);
    var stores := StoreBlocks(inputs.blocks, role, env.stored);
    if Decide(inputs, nodeAddr) != MyTurn {
      forall c | c in e.calls
        ensures !c.Prepare? && !c.SendAndWaitForStatus? && !c.ResetWithHeaders? && (c.WriteBlock? ==> c.block in inputs.blocks)
      {
        if c in stores {
          var i :| 0 <= i < |stores| && stores[i] == c;
          assert c.block == inputs.blocks[i];
        }
      }
    }
  }

  /**
   * On the node's turn the tick does produce: after the extracted-block writes,
   * the fraud checks, the stake check and the active-set query, it reads the
   * chain head and makes one production attempt on it, whose calls, remaining
   * pool and error are the tick's. When DA never confirms inclusion, the
   * attempt fails and neither writes the block locally nor resets the pool.
   */
  lemma TickProducesOnTurn(inputs: TickInputs, nodeAddr: Address, account: Address, role: string,
                           blockTime: nat, pool: seq<Tx>, env: ProductionEnv)
    requires Decide(inputs, nodeAddr) == MyTurn
    ensures var e := TickCalls(inputs, nodeAddr, account, role, blockTime, pool, env);
      var p := Produce(pool, inputs.head, account, role, blockTime, env);
      e.calls == StoreBlocks(inputs.blocks, role, env.stored) +
                 [CheckAndSetFraudBlock(inputs.blocks), CheckAndSlash(true), Contains(nodeAddr), GetActiveSet, ChainHeader] +
                 p.calls &&
      e.rest == p.rest && e.err == p.err
    ensures var p := Produce(pool, inputs.head, account, role, blockTime, env);
      !env.daIncluded ==> p.err.Some? && forall c :: c in p.calls ==> !c.WriteBlock? && !c.ResetWithHeaders?
  {
    ProduceOutcome(pool, inputs.head, account, role, blockTime, env);
  }

  /** At most one node produces on a tick: the one at the head of the active set. */
  lemma {:induction false} AtMostOneProducer(inputs: TickInputs, a: Address, b: Address)
    ensures Decide(inputs, a) == MyTurn && Decide(inputs, b) == MyTurn ==> a == b
    ensures ActiveThisTick(inputs) && |inputs.sequencers.value| > 0 ==>
      Decide(inputs, inputs.sequencers.value[0]) == MyTurn
  {
  }

  /** Active set [1, 2, 3]: node 1 produces and node 2 waits for its turn. */
  lemma HeadOfActiveSetProduces(inputs: TickInputs)
    requires !ExtractionAborts(inputs) && inputs.slashOk && inputs.staked == Some(true)
    requires inputs.sequencers == Some([1, 2, 3])
    ensures Decide(inputs, 1) == MyTurn && Decide(inputs, 2) == NotMyTurn
  {
  }

  // ---------------------------------------------------------------------------
  // The worker loop
  // ---------------------------------------------------------------------------

  /** The first `k` events are DA blocks whose ticks did not panic. */
  predicate Quiet(events: seq<Event>, k: nat, nodeAddr: Address)
    requires k <= |events|
  {
    forall j :: 0 <= j < k ==> events[j].DABlock? && Decide(events[j].inputs, nodeAddr) != NoStakedSequencers
  }

  /**
   * How the loop ends: on the first close signal, with its unstake result, or
   * on the first tick that finds the active set empty, whichever comes first.
   */
  lemma {:induction false} RunExitIsFirstStop(events: seq<Event>, nodeAddr: Address, k: nat)
    requires k < |events| && Quiet(events, k, nodeAddr)
    ensures events[k].CloseSignal? ==> RunExit(events, nodeAddr) == ShutDown(!events[k].unstakeOk)
    ensures events[k].DABlock? && Decide(events[k].inputs, nodeAddr) == NoStakedSequencers ==>
      RunExit(events, nodeAddr) == Panicked
    ensures events[k].DABlock? && Decide(events[k].inputs, nodeAddr) != NoStakedSequencers ==>
      RunExit(events, nodeAddr) == RunExit(events[k + 1..], nodeAddr)
    decreases k
  {
    if k > 0 {
      assert Quiet(events[1..], k - 1, nodeAddr) by {
        forall j | 0 <= j < k - 1 ensures events[1..][j] == events[j + 1] {
        }
      }
      RunExitIsFirstStop(events[1..], nodeAddr, k - 1);
      assert events[1..][k - 1] == events[k] && events[1..][k..] == events[k + 1..];
      assert events[0].DABlock? && Decide(events[0].inputs, nodeAddr) != NoStakedSequencers;
    }
  }

  /** The loop runs out of events only when none of them stops it. */
  lemma {:induction false} RunEndsOnlyWhenQuiet(events: seq<Event>, nodeAddr: Address)
    ensures RunExit(events, nodeAddr) == StreamEnded <==> Quiet(events, |events|, nodeAddr)
    decreases |events|
  {
    if events != [] {
      RunEndsOnlyWhenQuiet(events[1..], nodeAddr);
      if Quiet(events[1..], |events| - 1, nodeAddr) {
        assert Quiet(events, |events|, nodeAddr) <==>
               events[0].DABlock? && Decide(events[0].inputs, nodeAddr) != NoStakedSequencers by {
          forall j | 1 <= j < |events| ensures events[j] == events[1..][j - 1] {
          }
        }
      } else {
        var j :| 0 <= j < |events| - 1 &&
          !(events[1..][j].DABlock? && Decide(events[1..][j].inputs, nodeAddr) != NoStakedSequencers);
        assert events[j + 1] == events[1..][j];
      }
    }
  }

  /** The clock's values are the numbers of the DA blocks in arrival order, up to where the loop stops. */
  lemma {:induction false} TicksArePrefixOfDANumbers(events: seq<Event>, nodeAddr: Address)
    ensures Ticks(events, nodeAddr) <= DANumbers(events)
    decreases |events|
  {
    if events != [] {
      TicksArePrefixOfDANumbers(events[1..], nodeAddr);
    }
  }

  /**
   * The clock holds the latest DA number, not the largest: after DA blocks 5
   * and then 3, neither of which stops the loop, it holds 3.
   */
  lemma ClockHoldsLatestNumber(a: TickInputs, b: TickInputs, env: ProductionEnv, nodeAddr: Address)
    requires a.daNumber == 5 && b.daNumber == 3
    requires Decide(a, nodeAddr) != NoStakedSequencers && Decide(b, nodeAddr) != NoStakedSequencers
    ensures var ticks := Ticks([DABlock(a, env), DABlock(b, env)], nodeAddr);
      ticks == [5, 3] && ticks[|ticks| - 1] == 3
  {
    var events := [DABlock(a, env), DABlock(b, env)];
    var tail := [DABlock(b, env)];
    assert events[1..] == tail && tail[1..] == [];
    assert Ticks(tail, nodeAddr) == [3];
    assert Ticks(events, nodeAddr) == [5] + [3];
  }

  /** On a stream of strictly increasing DA numbers, the clock's last value is the largest it held. */
  lemma ClockIsMaxOnIncreasingStream(events: seq<Event>, nodeAddr: Address)
    requires var ns := DANumbers(events); forall i, j :: 0 <= i < j < |ns| ==> ns[i] < ns[j]
    ensures var ticks := Ticks(events, nodeAddr);
      forall i :: 0 <= i < |ticks| ==> ticks[i] <= ticks[|ticks| - 1]
  {
    TicksArePrefixOfDANumbers(events, nodeAddr);
    var ticks, ns := Ticks(events, nodeAddr), DANumbers(events);
    forall i | 0 <= i < |ticks| ensures ticks[i] <= ticks[|ticks| - 1] {
      assert ticks[i] == ns[i] && ticks[|ticks| - 1] == ns[|ticks| - 1];
    }
  }
}
