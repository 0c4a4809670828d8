/** A payload job: it executes the candidate transactions greedily, adds up the fees, stores the
    numbers of the included transactions back and assembles the block. */
module Builder {
  import opened Machine
  import opened Balances
  import opened Transactions
  import opened Handler
  import opened Executor
  import opened Inclusion
  import opened Numbers
  import opened Blocks
  import opened Config
  import Treasury

  datatype Attributes = Attributes(
    transactions: seq<Tx>,
    baseFeePerGas: U256,
    gasLimit: U64,
    beneficiary: Address,
    timestamp: U64,
    mixHash: Hash,
    extraData: Bytes)

  /** Everything the job meets outside: the parent's state if the provider has it, the state after
      the pre-execution system calls if they succeed, the poll from which the job counts as
      cancelled, whether finishing succeeds, and the roots of the results. */
  datatype Job = Job(
    attributes: Attributes,
    parent: Parent,
    chainId: U64,
    parentState: bool,
    preExecution: Option<World>,
    cancelledFrom: nat,
    finishes: bool,
    stateRoot: World -> Hash,
    receiptsRoot: seq<Receipt> -> Hash,
    logsBloom: seq<Receipt> -> nat)
  {
    function ExecutionEnv(): Env
      requires attributes.baseFeePerGas < TWO_64
    {
      ForChain(chainId, attributes.beneficiary, attributes.baseFeePerGas, attributes.gasLimit)
    }

    /** The environment and context the next block is meant to get. */
    function BlockEnvironment(): BlockEnv
      requires attributes.baseFeePerGas < TWO_64
    {
      BlockEnv(WrapU64(parent.number + 1), attributes.beneficiary, attributes.timestamp,
               attributes.gasLimit, attributes.baseFeePerGas, 0, Some(attributes.mixHash))
    }

    function Context(): ExecutionCtx {
      ExecutionCtx(parent.hash, None, attributes.extraData)
    }

    function NextBlock(): NextBlockAttributes {
      NextBlockAttributes(attributes.timestamp, attributes.beneficiary, attributes.mixHash, attributes.gasLimit)
    }
  }

  /** `Panicked`: the base fee attribute does not fit in 64 bits. */
  datatype BuildOutcome = Frozen(block: Block, totalFees: U256) | Cancelled | Failed | Panicked

  datatype LoopEnd = Completed | LoopCancelled | LoopFailed

  // ---------------------------------------------------------------- the specification

  ghost function LoopOutcome(env: Env, evm: Evm, w: World, txs: seq<Tx>, cancelledFrom: nat): LoopEnd {
    if Greedy(env, evm, w, txs[..Min(cancelledFrom, |txs|)]).None? then LoopFailed
    else if cancelledFrom < |txs| then LoopCancelled
    else Completed
  }

  ghost function BuiltBlock(c: Codec, job: Job, steps: seq<Step>): Block
    requires job.attributes.baseFeePerGas < TWO_64 && job.preExecution.Some?
  {
    AssembleBlock(
      c, job.BlockEnvironment(), job.Context(), Txs(steps),
      Output(job.stateRoot(End(job.preExecution.value, steps)), job.receiptsRoot(ReceiptsOf(steps)),
             job.logsBloom(ReceiptsOf(steps)), WrapU64(GasTotal(steps))))
  }

  ghost function JobOutcome(c: Codec, evm: Evm, job: Job): BuildOutcome {
    if !job.parentState then Failed
    else if job.attributes.baseFeePerGas >= TWO_64 then Panicked
    else if job.preExecution.None? then Failed
    else
      var env, w, txs := job.ExecutionEnv(), job.preExecution.value, job.attributes.transactions;
      match LoopOutcome(env, evm, w, txs, job.cancelledFrom)
      case LoopFailed => Failed
      case LoopCancelled => Cancelled
      case Completed =>
        assert txs[..Min(job.cancelledFrom, |txs|)] == txs;
        if !job.finishes then Failed
        else
          var steps := Greedy(env, evm, w, txs).value;
          Frozen(BuiltBlock(c, job, steps), WrapU256(BuilderFees(env.basefee, steps)))
  }

  // ---------------------------------------------------------------- how a job ends

  /** The job gets as far as its candidates, with this environment and state. */
  ghost predicate Starts(job: Job) {
    job.parentState && job.attributes.baseFeePerGas < TWO_64 && job.preExecution.Some?
  }

  /** The environment the candidates run in, from the job's own attributes. */
  function JobEnv(job: Job): (env: Env)
    requires job.attributes.baseFeePerGas < TWO_64
    ensures env == Env(Treasury.TreasuryAddress(job.chainId), job.attributes.beneficiary,
                       job.attributes.baseFeePerGas, job.attributes.gasLimit, false)
  {
    job.ExecutionEnv()
  }

  /** One of the first `n` candidates fails fatally when its turn comes. */
  ghost predicate FailsFatally(evm: Evm, job: Job, n: nat)
    requires Starts(job) && n <= |job.attributes.transactions|
  {
    FatalWithin(Attempt(JobEnv(job), evm), job.preExecution.value, job.attributes.transactions[..n])
  }

  /** The block is that of the job with the transactions of `steps`. */
  ghost predicate BlockOf(c: Codec, job: Job, steps: seq<Step>, b: Block)
    requires Starts(job)
  {
    var h, a := b.header, job.attributes;
    && b.transactions == Txs(steps) && b.ommers == [] && b.withdrawals == Some([])
    && h.parentHash == job.parent.hash && h.number == (job.parent.number + 1) % TWO_64
    && h.beneficiary == a.beneficiary && h.timestamp == a.timestamp && h.mixHash == a.mixHash
    && h.gasLimit == a.gasLimit && h.baseFeePerGas == Some(a.baseFeePerGas) && h.extraData == a.extraData
    && h.stateRoot == job.stateRoot(End(job.preExecution.value, steps))
    && h.transactionsRoot == c.transactionsRoot(EncodeAll(c, Txs(steps)))
    && h.receiptsRoot == job.receiptsRoot(ReceiptsOf(steps)) && h.logsBloom == job.logsBloom(ReceiptsOf(steps))
    && h.gasUsed == GasTotal(steps) % TWO_64
    && h.ommersHash == EMPTY_OMMER_ROOT_HASH && h.withdrawalsRoot == Some(EMPTY_WITHDRAWALS)
    && h.difficulty == 0 && h.nonce == 0
    && h.parentBeaconBlockRoot.None? && h.blobGasUsed.None? && h.excessBlobGas.None? && h.requestsHash.None?
  }

  /** The candidates had their turns, each included if and only if it was accepted, and the block and
      its fee total are those of the included ones. */
  ghost predicate BuiltFrom(c: Codec, evm: Evm, job: Job, b: Block, totalFees: U256, steps: seq<Step>)
    requires Starts(job)
  {
    && BestEffort(Attempt(JobEnv(job), evm), job.preExecution.value, job.attributes.transactions, steps)
    && BlockOf(c, job, steps, b)
    && totalFees == BuilderFees(job.attributes.baseFeePerGas, steps) % TWO_256
  }

  /** When a job ends how: it completes if and only if it starts, is not cancelled before its last
      candidate, finishes, and meets no fatal candidate; whether anything was included does not
      matter.  A completed job's block is built from a best effort at its candidates. */
  ghost predicate EndsAs(c: Codec, evm: Evm, job: Job, r: BuildOutcome) {
    var n := |job.attributes.transactions|;
    && (r.Panicked? <==> job.parentState && job.attributes.baseFeePerGas >= TWO_64)
    && (r.Cancelled? <==> Starts(job) && job.cancelledFrom < n && !FailsFatally(evm, job, job.cancelledFrom))
    && (r.Frozen? <==> Starts(job) && job.cancelledFrom >= n && job.finishes && !FailsFatally(evm, job, n))
    && (r.Frozen? ==> exists steps :: BuiltFrom(c, evm, job, r.block, r.totalFees, steps))
  }

  lemma JobEnds(c: Codec, evm: Evm, job: Job)
    ensures EndsAs(c, evm, job, JobOutcome(c, evm, job))
  {
    if Starts(job) {
      var txs, n := job.attributes.transactions, Min(job.cancelledFrom, |job.attributes.transactions|);
      GreedyExact(JobEnv(job), evm, job.preExecution.value, txs[..n]);
      assert txs[..|txs|] == txs;
      var r := JobOutcome(c, evm, job);
      if r.Frozen? {
        CompletedJob(c, evm, job);
        assert BuiltFrom(c, evm, job, r.block, r.totalFees, Included(evm, job));
      }
    }
  }

  /** If the engine never aborts, only the job's own conditions decide. */
  lemma JobEndsWithoutFatal(c: Codec, evm: Evm, job: Job, r: BuildOutcome)
    requires NeverAborts(evm) && EndsAs(c, evm, job, r)
    ensures r.Frozen? <==> Starts(job) && job.cancelledFrom >= |job.attributes.transactions| && job.finishes
    ensures r.Cancelled? <==> Starts(job) && job.cancelledFrom < |job.attributes.transactions|
  {
    if Starts(job) {
      var txs, n := job.attributes.transactions, Min(job.cancelledFrom, |job.attributes.transactions|);
      NeverFatal(JobEnv(job), evm, job.preExecution.value, txs[..n]);
    }
  }

  /** A job without candidates, as for a transaction list that does not decode, completes with an
      empty block, under every engine. */
  lemma EmptyJobFreezes(c: Codec, evm: Evm, job: Job, r: BuildOutcome)
    requires EndsAs(c, evm, job, r) && Starts(job) && job.finishes && job.attributes.transactions == []
    ensures r.Frozen? && r.block.transactions == [] && r.block.header.gasUsed == 0 && r.totalFees == 0
  {
    var steps :| BuiltFrom(c, evm, job, r.block, r.totalFees, steps);
    GreedyExact(JobEnv(job), evm, job.preExecution.value, []);
  }

  // ---------------------------------------------------------------- the job

  /** The loop's state after the first `i` candidates: the `k`-th number belongs to the `k`-th
      included transaction, and the fee total is the sum over the included ones. */
  ghost predicate Progress(
    env: Env, evm: Evm, w: World, txs: seq<Tx>, i: nat,
    steps: seq<Step>, m: NumberMap, numbers: seq<U64>, totalFees: U256)
    requires i <= |txs|
  {
    && Greedy(env, evm, w, txs[..i]) == Some(steps)
    && numbers == NumbersOf(m, Hashes(Txs(steps)))
    && totalFees == WrapU256(BuilderFees(env.basefee, steps))
  }

  lemma SkipProgress(
    env: Env, evm: Evm, w: World, txs: seq<Tx>, i: nat,
    steps: seq<Step>, m: NumberMap, numbers: seq<U64>, totalFees: U256)
    requires i < |txs| && Progress(env, evm, w, txs, i, steps, m, numbers, totalFees)
    requires Transact(env, evm, End(w, steps), txs[i]).Err?
    ensures Transact(env, evm, End(w, steps), txs[i]).error.InvalidTx? ==>
            Progress(env, evm, w, txs, i + 1, steps, m, numbers, totalFees)
    ensures Transact(env, evm, End(w, steps), txs[i]).error.Fatal? ==> Greedy(env, evm, w, txs[..i + 1]).None?
  {
    assert txs[..i + 1][..i] == txs[..i];
  }

  lemma IncludeProgress(
    env: Env, evm: Evm, w: World, txs: seq<Tx>, i: nat,
    steps: seq<Step>, m: NumberMap, numbers: seq<U64>, totalFees: U256, x: Executed)
    requires i < |txs| && Progress(env, evm, w, txs, i, steps, m, numbers, totalFees)
    requires Transact(env, evm, End(w, steps), txs[i]) == Ok(x)
    ensures EffectiveTipPerGas(txs[i].fee, env.basefee).Some?
    ensures Progress(
      env, evm, w, txs, i + 1,
      steps + [StepOf(env, End(w, steps), txs[i], x)], m,
      numbers + [View(m, txs[i].hash)],
      NextTotal(totalFees, EffectiveTipPerGas(txs[i].fee, env.basefee).value, x.gas.Used()))
  {
    AcceptedPriceCoversBaseFee(env, evm, End(w, steps), txs[i]);
    assert txs[..i + 1][..i] == txs[..i];
    var s := StepOf(env, End(w, steps), txs[i], x);
    SumsNext(env.basefee, steps, s, m);
  }

  /** `total_fees += tip * gas_used` in 256 bits. */
  function NextTotal(total: U256, tip: U128, gasUsed: U64): U256 {
    WrapU256(total + WrapU256(tip * gasUsed))
  }

  lemma SumsNext(basefee: U64, steps: seq<Step>, s: Step, m: NumberMap)
    ensures WrapU256(BuilderFees(basefee, steps + [s])) ==
            NextTotal(WrapU256(BuilderFees(basefee, steps)),
                      EffectiveTipPerGas(s.tx.fee, basefee).GetOr(0), s.x.gas.Used())
    ensures NumbersOf(m, Hashes(Txs(steps + [s]))) == NumbersOf(m, Hashes(Txs(steps))) + [View(m, s.tx.hash)]
  {
    assert (steps + [s])[..|steps|] == steps;
    var total, fee := BuilderFees(basefee, steps), EffectiveTipPerGas(s.tx.fee, basefee).GetOr(0) * s.x.gas.Used();
    WrapAddU256(total, WrapU256(fee));
    WrapAddU256(fee, total);
  }

  /** The loop's body: the number is pushed before the transaction runs and popped again when the
      transaction is skipped.  The tip of a transaction that executed always exists. */
  method ExecuteCandidate(
    executor: BlockExecutor, mapping: TxMapping, txs: seq<Tx>, i: nat, numbers: seq<U64>, totalFees: U256)
    returns (fatal: bool, numbers': seq<U64>, totalFees': U256)
    requires executor.Valid() && i < |txs|
    requires Progress(executor.env, executor.evm, executor.start, txs, i, executor.steps, mapping.mapping, numbers, totalFees)
    modifies executor
    ensures executor.Valid()
    ensures fatal ==> Greedy(executor.env, executor.evm, executor.start, txs[..i + 1]).None?
    ensures !fatal ==>
      Progress(executor.env, executor.evm, executor.start, txs, i + 1, executor.steps, mapping.mapping, numbers', totalFees')
  {
    var env, evm, tx := executor.env, executor.evm, txs[i];
    ghost var w, m, before := executor.start, mapping.mapping, executor.steps;
    totalFees' := totalFees;
    var txNumber := mapping.GetSubmissionBlock(tx.hash).GetOr(0);
    numbers' := numbers + [txNumber];
    var executed := executor.ExecuteTransaction(tx);
    if executed.Err? {
      SkipProgress(env, evm, w, txs, i, before, m, numbers, totalFees);
      numbers' := numbers'[..|numbers'| - 1];
      fatal := executed.error.Fatal?;
    } else {
      IncludeProgress(env, evm, w, txs, i, before, m, numbers, totalFees, Transact(env, evm, End(w, before), tx).value);
      var minerFee := EffectiveTipPerGas(tx.fee, env.basefee).value;
      totalFees' := NextTotal(totalFees, minerFee, executed.value);
      fatal := false;
    }
  }

  lemma LoopFails(env: Env, evm: Evm, w: World, txs: seq<Tx>, cancelledFrom: nat, i: nat)
    requires i < |txs| && i < cancelledFrom && Greedy(env, evm, w, txs[..i + 1]).None?
    ensures LoopOutcome(env, evm, w, txs, cancelledFrom) == LoopFailed
  {
    var polled := txs[..Min(cancelledFrom, |txs|)];
    assert polled[..i + 1] == txs[..i + 1];
    FatalPrefix(Attempt(env, evm), w, polled, i + 1);
  }

  /** The build loop: whatever was skipped, the `i`-th number belongs to the `i`-th included
      transaction, and the fee total is the sum over the included ones. */
  method ExecuteCandidates(executor: BlockExecutor, mapping: TxMapping, txs: seq<Tx>, cancelledFrom: nat)
    returns (end: LoopEnd, numbers: seq<U64>, totalFees: U256)
    requires executor.Valid() && executor.steps == []
    modifies executor
    ensures executor.Valid()
    ensures end == LoopOutcome(executor.env, executor.evm, executor.start, txs, cancelledFrom)
    ensures end.Completed? ==>
      && Greedy(executor.env, executor.evm, executor.start, txs) == Some(executor.steps)
      && numbers == NumbersOf(mapping.mapping, Hashes(Txs(executor.steps)))
      && totalFees == WrapU256(BuilderFees(executor.env.basefee, executor.steps))
  {
    var env, evm := executor.env, executor.evm;
    ghost var w := executor.start;
    numbers, totalFees := [], 0;
    for i := 0 to |txs|
      invariant executor.Valid() && i <= cancelledFrom
      invariant Progress(env, evm, w, txs, i, executor.steps, mapping.mapping, numbers, totalFees)
    {
      if cancelledFrom <= i {
        return LoopCancelled, numbers, totalFees;
      }
      var fatal;
      fatal, numbers, totalFees := ExecuteCandidate(executor, mapping, txs, i, numbers, totalFees);
      if fatal {
        LoopFails(env, evm, w, txs, cancelledFrom, i);
        return LoopFailed, numbers, totalFees;
      }
    }
    assert txs[..|txs|] == txs;
    end := Completed;
  }

  /** The indexed write-back, which an empty list of numbers skips. */
  method StoreNumbers(mapping: TxMapping, block: Block, numbers: seq<U64>)
    requires numbers == NumbersOf(mapping.mapping, Hashes(block.transactions))
    modifies mapping`mapping
    ensures mapping.mapping == WrittenBack(old(mapping.mapping), Hashes(block.transactions))
  {
    ghost var m := mapping.mapping;
    var hashes := Hashes(block.transactions);
    if |numbers| == 0 {
      assert hashes == [];
      return;
    }
    for idx := 0 to |numbers|
      invariant mapping.mapping == Assigned(m, hashes[..idx], numbers[..idx])
    {
      if idx < |block.transactions| {
        mapping.Insert(block.transactions[idx].hash, numbers[idx]);
      }
      assert hashes[..idx + 1][..idx] == hashes[..idx] && numbers[..idx + 1][..idx] == numbers[..idx];
    }
    assert hashes[..|numbers|] == hashes && numbers[..|numbers|] == numbers;
    AssignedIsWriteBack(m, hashes);
  }

  /** The window in which the cells are set: whatever they held before, the next block's environment
      and context carry this job's base fee and extra data, and the cells are empty afterwards. */
  method PrepareNextBlock(config: EvmConfig, job: Job, baseFee: U64) returns (blockEnv: BlockEnv, ctx: ExecutionCtx)
    requires job.attributes.baseFeePerGas == baseFee
    modifies config.cells
    ensures config.cells.extraData == None && config.cells.baseFee == None
    ensures blockEnv == job.BlockEnvironment() && ctx == job.Context()
  {
    config.SetNextBlockExtraData(job.attributes.extraData);
    config.SetNextBlockBaseFeePerGas(baseFee);
    blockEnv := config.NextEvmEnv(job.parent, job.NextBlock());
    ctx := config.ContextForNextBlock(job.parent);
    config.ClearNextBlockExtraData();
    config.ClearNextBlockBaseFeePerGas();
  }

  /** A job's outcome depends on its own attributes alone, whatever the shared cells held before;
      the cells are empty afterwards for every clone of the configuration, and only a completed
      job touches the number map, in a way no reader notices. */
  method KasplexPayload(config: EvmConfig, mapping: TxMapping, c: Codec, evm: Evm, job: Job)
    returns (r: BuildOutcome)
    modifies config.cells, mapping`mapping
    ensures r == JobOutcome(c, evm, job)
    ensures EndsAs(c, evm, job, r)
    ensures job.parentState && r != Panicked ==> config.cells.extraData == None && config.cells.baseFee == None
    ensures !job.parentState || r == Panicked ==>
      config.cells.extraData == old(config.cells.extraData) && config.cells.baseFee == old(config.cells.baseFee)
    ensures mapping.mapping ==
      if r.Frozen? then WrittenBack(old(mapping.mapping), Hashes(r.block.transactions)) else old(mapping.mapping)
  {
    JobEnds(c, evm, job);
    if !job.parentState {
      return Failed;
    }
    if job.attributes.baseFeePerGas >= TWO_64 {
      return Panicked;
    }
    var baseFee: U64 := job.attributes.baseFeePerGas;
    var blockEnv, ctx := PrepareNextBlock(config, job, baseFee);
    if job.preExecution.None? {
      return Failed;
    }
    var env := ForChain(job.chainId, blockEnv.beneficiary, blockEnv.basefee, blockEnv.gasLimit);
    var executor := new BlockExecutor(env, evm, job.preExecution.value);
    var end, numbers, totalFees := ExecuteCandidates(executor, mapping, job.attributes.transactions, job.cancelledFrom);
    match end {
      case LoopCancelled => return Cancelled;
      case LoopFailed => return Failed;
      case Completed =>
    }
    if !job.finishes {
      return Failed;
    }
    var block := FinishBlock(c, job, executor, blockEnv, ctx);
    StoreNumbers(mapping, block, numbers);
    r := Frozen(block, totalFees);
  }

  // `builder.finish`: the executed transactions become the block's body.
  method FinishBlock(c: Codec, job: Job, executor: BlockExecutor, blockEnv: BlockEnv, ctx: ExecutionCtx) returns (b: Block)
    requires executor.Valid() && job.preExecution == Some(executor.start)
    requires job.attributes.baseFeePerGas < TWO_64 && blockEnv == job.BlockEnvironment() && ctx == job.Context()
    ensures b == BuiltBlock(c, job, executor.steps)
  {
    var output := Output(job.stateRoot(executor.world), job.receiptsRoot(executor.receipts),
                         job.logsBloom(executor.receipts), executor.gasUsed);
    b := AssembleBlock(c, blockEnv, ctx, executor.transactions, output);
  }

  /** The number map after a sequence of jobs with the given outcomes. */
  ghost function AfterJobs(m: NumberMap, rs: seq<BuildOutcome>): NumberMap {
    if rs == [] then m
    else
      var before, last := AfterJobs(m, rs[..|rs| - 1]), rs[|rs| - 1];
      if last.Frozen? then WrittenBack(before, Hashes(last.block.transactions)) else before
  }

  lemma AfterJobsNext(m: NumberMap, rs: seq<BuildOutcome>, r: BuildOutcome)
    ensures AfterJobs(m, rs + [r]) ==
      if r.Frozen? then WrittenBack(AfterJobs(m, rs), Hashes(r.block.transactions)) else AfterJobs(m, rs)
  {
    assert (rs + [r])[..|rs|] == rs;
  }

  lemma {:induction false} JobsKeepView(m: NumberMap, rs: seq<BuildOutcome>, h: Hash)
    ensures View(AfterJobs(m, rs), h) == View(m, h)
  {
    if rs != [] {
      var before, last := AfterJobs(m, rs[..|rs| - 1]), rs[|rs| - 1];
      JobsKeepView(m, rs[..|rs| - 1], h);
      if last.Frozen? {
        WriteBackKeepsView(before, Hashes(last.block.transactions), h);
      }
    }
  }

  lemma JobsKeepViews(m: NumberMap, rs: seq<BuildOutcome>)
    ensures forall h: Hash :: View(AfterJobs(m, rs), h) == View(m, h)
  {
    forall h: Hash
      ensures View(AfterJobs(m, rs), h) == View(m, h)
    {
      JobsKeepView(m, rs, h);
    }
  }

  class PayloadBuilder {
    const config: EvmConfig

    constructor (config: EvmConfig)
      ensures this.config == config
    {
      this.config := config;
    }

    // Every job works on a clone of its own, which shares the cells.
    method TryBuild(mapping: TxMapping, c: Codec, evm: Evm, job: Job) returns (r: BuildOutcome)
      modifies config.cells, mapping`mapping
      ensures r == JobOutcome(c, evm, job)
      ensures old(config.cells.Empty()) ==> config.cells.Empty()
      ensures mapping.mapping ==
        if r.Frozen? then WrittenBack(old(mapping.mapping), Hashes(r.block.transactions)) else old(mapping.mapping)
    {
      var clone := new EvmConfig.Clone(config);
      r := KasplexPayload(clone, mapping, c, evm, job);
    }

    /** Any sequence of jobs, one after the other: each outcome, and so each header's base fee and
        extra data, is what its own job gives alone; the shared cells are empty after every job,
        however it ended; and the number map is the chain of write-backs of the completed jobs,
        which no reader can tell from the map before. */
    method RunJobs(mapping: TxMapping, c: Codec, evm: Evm, jobs: seq<Job>)
      returns (rs: seq<BuildOutcome>, ghost cellsEmptyAfter: seq<bool>)
      requires config.cells.Empty()
      modifies config.cells, mapping`mapping
      ensures |rs| == |cellsEmptyAfter| == |jobs|
      ensures forall i :: 0 <= i < |jobs| ==>
        rs[i] == JobOutcome(c, evm, jobs[i]) && cellsEmptyAfter[i]
      ensures config.cells.Empty()
      ensures mapping.mapping == AfterJobs(old(mapping.mapping), rs)
      ensures forall h: Hash :: View(mapping.mapping, h) == View(old(mapping.mapping), h)
    {
      rs, cellsEmptyAfter := [], [];
      ghost var m := mapping.mapping;
      for i := 0 to |jobs|
        invariant |rs| == |cellsEmptyAfter| == i && config.cells.Empty()
        invariant forall k :: 0 <= k < i ==>
          rs[k] == JobOutcome(c, evm, jobs[k]) && cellsEmptyAfter[k]
        invariant mapping.mapping == AfterJobs(m, rs)
      {
        var r := TryBuild(mapping, c, evm, jobs[i]);
        AfterJobsNext(m, rs, r);
        rs := rs + [r];
        cellsEmptyAfter := cellsEmptyAfter + [config.cells.Empty()];
      }
      JobsKeepViews(m, rs);
    }
  }

  /** The transactions a job includes, with the states around them. */
  ghost function Included(evm: Evm, job: Job): seq<Step>
    requires job.attributes.baseFeePerGas < TWO_64 && job.preExecution.Some?
  {
    Greedy(job.ExecutionEnv(), evm, job.preExecution.value, job.attributes.transactions).GetOr([])
  }

  /** What a completed job puts into the world: the header carries the job's own base fee and extra
      data, the body is exactly the transactions the greedy execution accepted, the reported fees
      are the tips credited to the beneficiary, and the treasury was credited the header's base
      fee times the header's gas (when the block's gas fits the 64-bit counter). */
  lemma FrozenBlockLedger(c: Codec, evm: Evm, job: Job)
    requires Lawful(evm) && JobOutcome(c, evm, job).Frozen?
    requires |job.attributes.transactions| < TWO_64
    ensures var r, env, steps := JobOutcome(c, evm, job), job.ExecutionEnv(), Included(evm, job);
      && IsTrace(env, evm, job.preExecution.value, steps)
      && r.block.header.baseFeePerGas == Some(job.attributes.baseFeePerGas)
      && r.block.header.extraData == job.attributes.extraData
      && r.block.header.beneficiary == job.attributes.beneficiary
      && r.block.header.stateRoot == job.stateRoot(End(job.preExecution.value, steps))
      && r.block.transactions == Txs(steps)
      && r.totalFees == TipCredits(env, steps)
      && (GasTotal(steps) < TWO_64 ==>
            r.block.header.gasUsed == GasTotal(steps)
            && BaseFeeCredits(env, steps) == r.block.header.baseFeePerGas.value * r.block.header.gasUsed)
  {
    var env, w, txs := job.ExecutionEnv(), job.preExecution.value, job.attributes.transactions;
    CompletedJob(c, evm, job);
    GreedyIsTrace(env, evm, w, txs);
    LedgerAgreement(env, evm, w, Included(evm, job));
  }

  lemma CompletedJob(c: Codec, evm: Evm, job: Job)
    requires JobOutcome(c, evm, job).Frozen?
    ensures Greedy(job.ExecutionEnv(), evm, job.preExecution.value, job.attributes.transactions) == Some(Included(evm, job))
    ensures JobOutcome(c, evm, job) ==
      Frozen(BuiltBlock(c, job, Included(evm, job)), WrapU256(BuilderFees(job.ExecutionEnv().basefee, Included(evm, job))))
  {
    var txs := job.attributes.transactions;
    assert job.cancelledFrom >= |txs|;
    assert txs[..Min(job.cancelledFrom, |txs|)] == txs;
  }

  /** The node's own block comes back from its payload with absent instead of empty withdrawals and
      otherwise the same, unless the job asked for too much extra data. */
  lemma FrozenBlockRoundTrip(c: Codec, evm: Evm, job: Job, blockHash: Hash)
    requires RoundTrips(c) && JobOutcome(c, evm, job).Frozen?
    ensures var b := JobOutcome(c, evm, job).block;
      RestoredBlock(c, V1(FromBlock(c, blockHash, b))) == Ok(b.(withdrawals := None))
      <==> |job.attributes.extraData| <= MAXIMUM_EXTRA_DATA_SIZE
  {
    var b := JobOutcome(c, evm, job).block;
    PayloadRoundTrip(c, b, blockHash);
  }
}
