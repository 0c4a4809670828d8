/** Executing a block: the executor's running gas and receipts, and what a whole block does to
    the ledger. */
module Executor {
  import opened Machine
  import opened Balances
  import opened Transactions
  import opened Handler

  datatype Receipt = Receipt(txHash: Hash, cumulativeGasUsed: U64)

  /** One committed transaction: the state before it, the state execution left to the settling
      hooks, and the state that was stored. */
  datatype Step = Step(tx: Tx, pre: World, x: Executed, post: World)

  function StepOf(env: Env, w: World, tx: Tx, x: Executed): Step {
    Step(tx, w, x, Settled(env, tx, x))
  }

  /** What executing a transaction on a state gives: the step, or why there is none. */
  type Attempts = (World, Tx) -> Result<Step, Failure>

  ghost function Attempt(env: Env, evm: Evm): Attempts {
    (w: World, tx: Tx) =>
      match Transact(env, evm, w, tx)
      case Ok(x) => Ok(StepOf(env, w, tx, x))
      case Err(e) => Err(e)
  }

  ghost predicate Accepted(env: Env, evm: Evm, s: Step) {
    Attempt(env, evm)(s.pre, s.tx) == Ok(s)
  }

  lemma AttemptExact(env: Env, evm: Evm, w: World, tx: Tx)
    ensures forall s :: Attempt(env, evm)(w, tx) == Ok(s) <==>
      Transact(env, evm, w, tx) == Ok(s.x) && s.pre == w && s.tx == tx && s.post == Settled(env, tx, s.x)
    ensures forall e :: Attempt(env, evm)(w, tx) == Err(e) <==> Transact(env, evm, w, tx) == Err(e)
  {
  }

  ghost function End(w: World, steps: seq<Step>): World {
    if steps == [] then w else steps[|steps| - 1].post
  }

  /** The steps start at `w`, follow each other, and each is an accepted transaction. */
  ghost predicate IsTrace(env: Env, evm: Evm, w: World, steps: seq<Step>) {
    Follows(Attempt(env, evm), w, steps)
  }

  ghost predicate Follows(exec: Attempts, w: World, steps: seq<Step>) {
    steps == [] ||
    var front, last := steps[..|steps| - 1], steps[|steps| - 1];
    && Follows(exec, w, front)
    && last.pre == End(w, front)
    && exec(last.pre, last.tx) == Ok(last)
  }

  ghost function GasTotal(steps: seq<Step>): nat {
    if steps == [] then 0 else GasTotal(steps[..|steps| - 1]) + steps[|steps| - 1].x.gas.Used()
  }

  ghost function Txs(steps: seq<Step>): (txs: seq<Tx>)
    ensures |txs| == |steps| && forall i :: 0 <= i < |steps| ==> txs[i] == steps[i].tx
  {
    seq(|steps|, i requires 0 <= i < |steps| => steps[i].tx)
  }

  ghost function ReceiptsOf(steps: seq<Step>): seq<Receipt> {
    if steps == [] then []
    else ReceiptsOf(steps[..|steps| - 1]) + [Receipt(steps[|steps| - 1].tx.hash, WrapU64(GasTotal(steps)))]
  }

  /** Receipt `i` belongs to transaction `i` and carries the gas of the first `i + 1`. */
  lemma {:induction false} ReceiptPrefixSums(steps: seq<Step>, i: nat)
    requires i < |steps|
    ensures |ReceiptsOf(steps)| == |steps|
    ensures ReceiptsOf(steps)[i] == Receipt(steps[i].tx.hash, WrapU64(GasTotal(steps[..i + 1])))
  {
    var front := steps[..|steps| - 1];
    if i < |front| {
      ReceiptPrefixSums(front, i);
      assert front[..i + 1] == steps[..i + 1];
    } else {
      if front != [] {
        ReceiptPrefixSums(front, 0);
      }
      assert steps[..i + 1] == steps;
    }
  }

  lemma ExtendSums(steps: seq<Step>, s: Step)
    ensures GasTotal(steps + [s]) == GasTotal(steps) + s.x.gas.Used()
    ensures ReceiptsOf(steps + [s]) == ReceiptsOf(steps) + [Receipt(s.tx.hash, WrapU64(GasTotal(steps) + s.x.gas.Used()))]
    ensures Txs(steps + [s]) == Txs(steps) + [s.tx]
  {
    assert (steps + [s])[..|steps|] == steps;
  }

  /** What the executor holds after the transactions of `steps`, started at `start`. */
  ghost predicate Consistent(
    exec: Attempts, start: World, steps: seq<Step>, world: World, gasUsed: U64, receipts: seq<Receipt>, txs: seq<Tx>)
  {
    && Follows(exec, start, steps)
    && world == End(start, steps)
    && gasUsed == WrapU64(GasTotal(steps))
    && receipts == ReceiptsOf(steps)
    && txs == Txs(steps)
  }

  lemma ConsistentNext(
    exec: Attempts, start: World, steps: seq<Step>,
    world: World, gasUsed: U64, receipts: seq<Receipt>, txs: seq<Tx>, s: Step)
    requires Consistent(exec, start, steps, world, gasUsed, receipts, txs)
    requires s.pre == world && exec(world, s.tx) == Ok(s)
    ensures var total := WrapU64(gasUsed as int + s.x.gas.Used());
      Consistent(exec, start, steps + [s], s.post, total, receipts + [Receipt(s.tx.hash, total)], txs + [s.tx])
  {
    CountersNext(steps, s);
    assert (steps + [s])[..|steps|] == steps;
  }

  lemma CountersNext(steps: seq<Step>, s: Step)
    ensures WrapU64(GasTotal(steps + [s])) == WrapU64(WrapU64(GasTotal(steps)) + s.x.gas.Used())
    ensures ReceiptsOf(steps + [s]) ==
            ReceiptsOf(steps) + [Receipt(s.tx.hash, WrapU64(WrapU64(GasTotal(steps)) + s.x.gas.Used()))]
    ensures Txs(steps + [s]) == Txs(steps) + [s.tx]
  {
    ExtendSums(steps, s);
    WrapAddU64(GasTotal(steps), s.x.gas.Used());
  }

  class BlockExecutor {
    const env: Env
    const evm: Evm
    var world: World
    var receipts: seq<Receipt>
    var transactions: seq<Tx>  // kept by the block builder around the executor
    var gasUsed: U64

    ghost const start: World
    ghost var steps: seq<Step>

    /** The counters are what the executed transactions make them. */
    ghost predicate Valid()
      reads this
    {
      Consistent(Attempt(env, evm), start, steps, world, gasUsed, receipts, transactions)
    }

    constructor (env: Env, evm: Evm, w: World)
      ensures Valid() && steps == [] && start == w
      ensures this.env == env && this.evm == evm
    {
      this.env, this.evm, world := env, evm, w;
      receipts, transactions, gasUsed := [], [], 0;
      start, steps := w, [];
    }

    // The result is buffered: nothing is stored until it is committed.
    method ExecuteTransactionWithoutCommit(tx: Tx) returns (r: Result<ResultAndState, Failure>)
      ensures match Transact(env, evm, world, tx)
              case Ok(x) => r == Ok(ResultAndState(x.gas, Settled(env, tx, x)))
              case Err(e) => r == Err(e)
    {
      r := RunTransaction(env, evm, world, tx);
    }

    // Any output can be committed; `ExecuteTransaction` commits those of this state.
    method CommitTransaction(output: ResultAndState, tx: Tx) returns (txGasUsed: U64)
      modifies this`world, this`gasUsed, this`receipts, this`transactions
      ensures txGasUsed == output.gas.Used()
      ensures gasUsed == WrapU64(old(gasUsed) as int + txGasUsed)
      ensures receipts == old(receipts) + [Receipt(tx.hash, gasUsed)]
      ensures transactions == old(transactions) + [tx]
      ensures world == output.state
    {
      txGasUsed := output.gas.Used();
      gasUsed := WrapU64(gasUsed as int + txGasUsed);
      receipts := receipts + [Receipt(tx.hash, gasUsed)];
      world := output.state;
      transactions := transactions + [tx];
    }

    method ExecuteTransaction(tx: Tx) returns (r: Result<U64, Failure>)
      requires Valid()
      modifies this
      ensures Valid()
      ensures match Transact(env, evm, old(world), tx)
              case Ok(x) => r == Ok(x.gas.Used()) && steps == old(steps) + [StepOf(env, old(world), tx, x)]
              case Err(e) => r == Err(e) && steps == old(steps) && world == old(world)
    {
      var output := ExecuteTransactionWithoutCommit(tx);
      if output.Err? {
        return Err(output.error);
      }
      ghost var s := StepOf(env, world, tx, Transact(env, evm, world, tx).value);
      ConsistentNext(Attempt(env, evm), start, steps, world, gasUsed, receipts, transactions, s);
      var used := CommitTransaction(output.value, tx);
      steps := steps + [s];
      r := Ok(used);
    }
  }

  // ---------------------------------------------------------------- replay

  /** Executing a block as an importer does: any failure is final. */
  ghost function Replay(env: Env, evm: Evm, w: World, txs: seq<Tx>): Option<seq<Step>> {
    ReplayBy(Attempt(env, evm), w, txs)
  }

  ghost function ReplayBy(exec: Attempts, w: World, txs: seq<Tx>): Option<seq<Step>> {
    if txs == [] then Some([])
    else
      match ReplayBy(exec, w, txs[..|txs| - 1])
      case None => None
      case Some(steps) =>
        match exec(End(w, steps), txs[|txs| - 1])
        case Ok(s) => Some(steps + [s])
        case Err(_) => None
  }

  /** The step that is reported is of that transaction on that state. */
  ghost predicate Labelled(exec: Attempts) {
    forall w: World, tx: Tx {:trigger exec(w, tx)} :: exec(w, tx).Ok? ==> exec(w, tx).value.pre == w && exec(w, tx).value.tx == tx
  }

  lemma TxsNext(steps: seq<Step>, s: Step)
    ensures Txs(steps + [s]) == Txs(steps) + [s.tx]
  {
  }

  lemma {:induction false} FollowsIsReplay(exec: Attempts, w: World, steps: seq<Step>)
    requires Follows(exec, w, steps)
    ensures ReplayBy(exec, w, Txs(steps)) == Some(steps)
  {
    if steps != [] {
      var front, last := steps[..|steps| - 1], steps[|steps| - 1];
      assert steps == front + [last];
      FollowsIsReplay(exec, w, front);
      TxsNext(front, last);
      assert (Txs(front) + [last.tx])[..|front|] == Txs(front);
    }
  }

  lemma {:induction false} ReplayFollows(exec: Attempts, w: World, txs: seq<Tx>, steps: seq<Step>)
    requires Labelled(exec) && ReplayBy(exec, w, txs) == Some(steps)
    ensures Follows(exec, w, steps) && Txs(steps) == txs
  {
    if txs != [] {
      var n := |txs| - 1;
      var front := ReplayBy(exec, w, txs[..n]).value;
      ReplayFollows(exec, w, txs[..n], front);
      var s := exec(End(w, front), txs[n]).value;
      assert steps == front + [s] && steps[..|steps| - 1] == front;
      TxsNext(front, s);
    }
  }

  // A trace is the replay of its transactions, and the only one.
  lemma TraceIsReplay(env: Env, evm: Evm, w: World, steps: seq<Step>)
    requires IsTrace(env, evm, w, steps)
    ensures Replay(env, evm, w, Txs(steps)) == Some(steps)
  {
    FollowsIsReplay(Attempt(env, evm), w, steps);
  }

  /** Replaying a block succeeds with `steps` exactly when they are a trace of its transactions: no
      transaction is left out and none may fail. */
  lemma ReplayExact(env: Env, evm: Evm, w: World, txs: seq<Tx>, steps: seq<Step>)
    ensures Replay(env, evm, w, txs) == Some(steps) <==> IsTrace(env, evm, w, steps) && Txs(steps) == txs
  {
    if Replay(env, evm, w, txs) == Some(steps) {
      ReplayFollows(Attempt(env, evm), w, txs, steps);
    }
    if IsTrace(env, evm, w, steps) && Txs(steps) == txs {
      TraceIsReplay(env, evm, w, steps);
    }
  }

  // ---------------------------------------------------------------- nonces over a block

  lemma {:induction false} NonceMonotone(env: Env, evm: Evm, w: World, steps: seq<Step>, i: nat, j: nat, a: Address)
    requires KeepsNonces(evm) && IsTrace(env, evm, w, steps) && i <= j < |steps|
    ensures NonceOf(steps[i].pre, a) <= NonceOf(steps[j].pre, a)
    ensures i < j ==> NonceOf(steps[i].post, a) <= NonceOf(steps[j].pre, a)
    decreases j - i
  {
    if i < j {
      NonceMonotone(env, evm, w, steps, i, j - 1, a);
      TraceStep(env, evm, w, steps, j - 1);
      TraceStep(env, evm, w, steps, j);
      TransactNonces(env, evm, steps[j - 1].pre, steps[j - 1].tx, steps[j - 1].x, a);
    }
  }

  /** In every block the nonces of one caller never fall, and rise strictly after a transaction that
      uses up its nonce: such a transaction is not executed again, whatever the candidate list
      repeats. */
  lemma NoncesIncrease(env: Env, evm: Evm, w: World, steps: seq<Step>, i: nat, j: nat)
    requires KeepsNonces(evm) && IsTrace(env, evm, w, steps) && !env.disableNonceCheck
    requires i < j < |steps| && steps[i].tx.caller == steps[j].tx.caller
    ensures steps[i].tx.nonce <= steps[j].tx.nonce
    ensures UsesNonce(env, steps[i].pre, steps[i].tx) && steps[i].tx.nonce + 1 < TWO_64 ==>
            steps[i].tx.nonce < steps[j].tx.nonce && steps[i].tx != steps[j].tx
  {
    var a := steps[i].tx.caller;
    NonceMonotone(env, evm, w, steps, i, j, a);
    TraceStep(env, evm, w, steps, i);
    TraceStep(env, evm, w, steps, j);
    TransactNonces(env, evm, steps[i].pre, steps[i].tx, steps[i].x, a);
    TransactNonces(env, evm, steps[j].pre, steps[j].tx, steps[j].x, a);
  }

  // ---------------------------------------------------------------- the ledger of a block

  /** Tips and base fees as they were credited, in machine arithmetic. */
  ghost function TipCredits(env: Env, steps: seq<Step>): nat {
    if steps == [] then 0
    else
      var last := steps[|steps| - 1];
      TipCredits(env, steps[..|steps| - 1]) + TipAmount(env, last.tx, last.x.gas)
  }

  ghost function BaseFeeCredits(env: Env, steps: seq<Step>): nat {
    if steps == [] then 0
    else BaseFeeCredits(env, steps[..|steps| - 1]) + BaseFeeAmount(env, steps[|steps| - 1].x.gas)
  }

  /** The builder's own sum: its tip formula times the gas the executor reported. */
  ghost function BuilderFees(basefee: U64, steps: seq<Step>): nat {
    if steps == [] then 0
    else
      var last := steps[|steps| - 1];
      var tip := EffectiveTipPerGas(last.tx.fee, basefee).GetOr(0);
      Products(tip, last.x.gas.Used());
      BuilderFees(basefee, steps[..|steps| - 1]) + tip * last.x.gas.Used()
  }

  ghost function Shortfalls(env: Env, steps: seq<Step>): nat {
    if steps == [] then 0
    else
      var last := steps[|steps| - 1];
      Shortfalls(env, steps[..|steps| - 1]) + Shortfall(env, last.pre, last.tx)
  }

  ghost predicate AllCovered(env: Env, steps: seq<Step>) {
    forall i :: 0 <= i < |steps| ==>
      Get(steps[i].pre.balances, steps[i].tx.caller) >= steps[i].tx.gasLimit * Price(env, steps[i].tx)
  }

  lemma {:induction false} NoShortfallIffCovered(env: Env, steps: seq<Step>)
    ensures Shortfalls(env, steps) == 0 <==> AllCovered(env, steps)
  {
    if steps != [] {
      var n := |steps| - 1;
      NoShortfallIffCovered(env, steps[..n]);
      if AllCovered(env, steps[..n]) && Shortfall(env, steps[n].pre, steps[n].tx) == 0 {
        forall i | 0 <= i < |steps|
          ensures Get(steps[i].pre.balances, steps[i].tx.caller) >= steps[i].tx.gasLimit * Price(env, steps[i].tx)
        {
          if i < n {
            assert steps[..n][i] == steps[i];
          }
        }
      }
      if AllCovered(env, steps) {
        assert forall i :: 0 <= i < n ==> steps[..n][i] == steps[i];
      }
    }
  }

  lemma {:induction false} BlockSupplyGrows(env: Env, evm: Evm, w: World, steps: seq<Step>)
    requires Lawful(evm) && IsTrace(env, evm, w, steps)
    requires Supply(w.balances) + Shortfalls(env, steps) < TWO_256
    ensures Supply(End(w, steps).balances) == Supply(w.balances) + Shortfalls(env, steps)
  {
    if steps != [] {
      var front, last := steps[..|steps| - 1], steps[|steps| - 1];
      BlockSupplyGrows(env, evm, w, front);
      TransactSupply(env, evm, last.pre, last.tx, last.x);
    }
  }

  /** Over a whole block the supply grows by exactly the callers' shortfalls, so wei is conserved
      if and only if every caller covers its charge. */
  lemma BlockConservation(env: Env, evm: Evm, w: World, steps: seq<Step>)
    requires Lawful(evm) && IsTrace(env, evm, w, steps)
    requires Supply(w.balances) + Shortfalls(env, steps) < TWO_256
    ensures Supply(End(w, steps).balances) == Supply(w.balances) + Shortfalls(env, steps)
    ensures Supply(End(w, steps).balances) == Supply(w.balances) <==> AllCovered(env, steps)
  {
    BlockSupplyGrows(env, evm, w, steps);
    NoShortfallIffCovered(env, steps);
  }

  lemma {:induction false} TracePrefix(env: Env, evm: Evm, w: World, steps: seq<Step>, i: nat)
    requires IsTrace(env, evm, w, steps) && i <= |steps|
    ensures IsTrace(env, evm, w, steps[..i])
  {
    if i < |steps| {
      TracePrefix(env, evm, w, steps[..|steps| - 1], i);
      assert steps[..|steps| - 1][..i] == steps[..i];
    } else {
      assert steps[..i] == steps;
    }
  }

  // Any step of a trace is an accepted transaction on the state its prefix leads to.
  lemma TraceStep(env: Env, evm: Evm, w: World, steps: seq<Step>, i: nat)
    requires IsTrace(env, evm, w, steps) && i < |steps|
    ensures Accepted(env, evm, steps[i])
    ensures steps[i].pre == End(w, steps[..i]) && IsTrace(env, evm, w, steps[..i])
  {
    TracePrefix(env, evm, w, steps, i + 1);
    assert steps[..i + 1][..i] == steps[..i];
  }

  /** The amounts credited for one step, in integer arithmetic and by the builder's formula. */
  ghost predicate CreditsExact(env: Env, s: Step) {
    && BaseFeeAmount(env, s.x.gas) == env.basefee * s.x.gas.Used()
    && TipAmount(env, s.tx, s.x.gas) == EffectiveTipPerGas(s.tx.fee, env.basefee).GetOr(0) * s.x.gas.Used()
    && CoinbaseGasPrice(s.tx.fee, env.basefee) == EffectiveTipPerGas(s.tx.fee, env.basefee).GetOr(0)
  }

  lemma StepCredits(env: Env, evm: Evm, s: Step)
    requires Lawful(evm)
    requires Accepted(env, evm, s)
    ensures CreditsExact(env, s)
  {
    TransactStages(env, evm, s.pre, s.tx, s.x);
    MachineArithmeticIsExact(env, s.pre, s.tx, s.x.gas);
    AcceptedPriceCoversBaseFee(env, evm, s.pre, s.tx);
  }

  lemma TraceCredits(env: Env, evm: Evm, w: World, steps: seq<Step>)
    requires Lawful(evm) && IsTrace(env, evm, w, steps)
    ensures forall i :: 0 <= i < |steps| ==> CreditsExact(env, steps[i])
  {
    forall i | 0 <= i < |steps|
      ensures CreditsExact(env, steps[i])
    {
      TraceStep(env, evm, w, steps, i);
      StepCredits(env, evm, steps[i]);
    }
  }

  lemma {:induction false} SumCredits(env: Env, steps: seq<Step>)
    requires forall i :: 0 <= i < |steps| ==> CreditsExact(env, steps[i])
    ensures BaseFeeCredits(env, steps) == env.basefee * GasTotal(steps)
    ensures TipCredits(env, steps) == BuilderFees(env.basefee, steps) <= |steps| * TWO_128
  {
    if steps != [] {
      var front, last := steps[..|steps| - 1], steps[|steps| - 1];
      SumCredits(env, front);
      assert CreditsExact(env, last);
      Distribute(env.basefee, GasTotal(front), last.x.gas.Used());
    }
  }

  /** Three sums kept by three components agree over every block: base fee credits are the base
      fee times the gas, and tip credits are the builder's total fees.  Each tip is below 2^128,
      so no block of fewer than 2^64 transactions wraps the builder's 256-bit sum. */
  lemma LedgerAgreement(env: Env, evm: Evm, w: World, steps: seq<Step>)
    requires Lawful(evm) && IsTrace(env, evm, w, steps)
    ensures BaseFeeCredits(env, steps) == env.basefee * GasTotal(steps)
    ensures TipCredits(env, steps) == BuilderFees(env.basefee, steps)
    ensures |steps| < TWO_64 ==> BuilderFees(env.basefee, steps) < TWO_256
  {
    TraceCredits(env, evm, w, steps);
    SumCredits(env, steps);
    if |steps| < TWO_64 {
      ProductLe(|steps|, TWO_128, TWO_64, TWO_128);
    }
  }

  lemma Distribute(a: int, b: int, c: int)
    ensures a * (b + c) == a * b + a * c
  {
  }

  /** What the settling hooks moved into account `a` over the block: its balance after each
      transaction minus what execution had left it. */
  ghost function HookIncome(steps: seq<Step>, a: Address): int {
    if steps == [] then 0
    else HookIncome(steps[..|steps| - 1], a) + StepIncome(steps[|steps| - 1], a)
  }

  ghost function StepIncome(s: Step, a: Address): int {
    Get(s.post.balances, a) - Get(s.x.after.balances, a)
  }

  ghost function RefundsTo(env: Env, steps: seq<Step>, a: Address): int {
    if steps == [] then 0
    else
      var last := steps[|steps| - 1];
      RefundsTo(env, steps[..|steps| - 1], a)
      + (if a == last.tx.caller then Price(env, last.tx) * (last.tx.gasLimit - last.x.gas.Used()) else 0)
  }

  lemma {:induction false} PrefixShortfalls(env: Env, steps: seq<Step>, i: nat)
    requires i < |steps|
    ensures Shortfalls(env, steps[..i]) + Shortfall(env, steps[i].pre, steps[i].tx) <= Shortfalls(env, steps)
  {
    var front := steps[..|steps| - 1];
    if i < |front| {
      PrefixShortfalls(env, front, i);
      assert front[..i] == steps[..i];
    } else {
      assert steps[..i] == front;
    }
  }

  lemma TraceIncome(env: Env, evm: Evm, w: World, steps: seq<Step>, a: Address)
    requires Lawful(evm) && IsTrace(env, evm, w, steps)
    requires Supply(w.balances) + Shortfalls(env, steps) < TWO_256
    ensures forall i :: 0 <= i < |steps| ==>
      StepIncome(steps[i], a) == Income(env, steps[i].tx, steps[i].x.gas, a)
  {
    forall i | 0 <= i < |steps|
      ensures StepIncome(steps[i], a) == Income(env, steps[i].tx, steps[i].x.gas, a)
    {
      TraceStep(env, evm, w, steps, i);
      PrefixShortfalls(env, steps, i);
      BlockSupplyGrows(env, evm, w, steps[..i]);
      TransactIncome(env, evm, steps[i].pre, steps[i].tx, steps[i].x, a);
    }
  }

  ghost function ExpectedIncome(env: Env, steps: seq<Step>, a: Address): int {
    RefundsTo(env, steps, a)
    + (if a == env.beneficiary then BuilderFees(env.basefee, steps) else 0)
    + (if a == env.treasury then env.basefee * GasTotal(steps) else 0)
  }

  lemma ExpectedIncomeNext(env: Env, steps: seq<Step>, a: Address)
    requires steps != [] && CreditsExact(env, steps[|steps| - 1])
    ensures ExpectedIncome(env, steps, a) ==
      ExpectedIncome(env, steps[..|steps| - 1], a) + Income(env, steps[|steps| - 1].tx, steps[|steps| - 1].x.gas, a)
  {
    Distribute(env.basefee, GasTotal(steps[..|steps| - 1]), steps[|steps| - 1].x.gas.Used());
  }

  lemma {:induction false} SumIncome(env: Env, steps: seq<Step>, a: Address)
    requires forall i :: 0 <= i < |steps| ==> CreditsExact(env, steps[i])
    requires forall i :: 0 <= i < |steps| ==>
      StepIncome(steps[i], a) == Income(env, steps[i].tx, steps[i].x.gas, a)
    ensures HookIncome(steps, a) == ExpectedIncome(env, steps, a)
  {
    if steps != [] {
      SumIncome(env, steps[..|steps| - 1], a);
      ExpectedIncomeNext(env, steps, a);
    }
  }

  /** The balances themselves move accordingly, under every aliasing of the roles: over a block
      the treasury gains base fee times gas, the beneficiary the builder's fees, and a caller the
      price of the gas it bought and did not use. */
  lemma BlockIncome(env: Env, evm: Evm, w: World, steps: seq<Step>, a: Address)
    requires Lawful(evm) && IsTrace(env, evm, w, steps)
    requires Supply(w.balances) + Shortfalls(env, steps) < TWO_256
    ensures HookIncome(steps, a) == RefundsTo(env, steps, a)
         + (if a == env.beneficiary then BuilderFees(env.basefee, steps) else 0)
         + (if a == env.treasury then env.basefee * GasTotal(steps) else 0)
  {
    TraceCredits(env, evm, w, steps);
    TraceIncome(env, evm, w, steps, a);
    SumIncome(env, steps, a);
  }
}
