/** The three handler hooks that Kasplex replaces, between which the execution engine runs: the
    caller is charged up front, refunded for gas it did not use, and the price of the gas it did
    use is split between the block's beneficiary (tip) and the treasury (base fee). */
module Handler {
  import opened Machine
  import opened Balances
  import opened Transactions
  import Treasury

  datatype World = World(balances: Ledger, nonces: map<Address, U64>, code: set<Address>)

  /** `treasury` is the treasury address of the chain id, see `ForChain`. */
  datatype Env = Env(
    treasury: Address,
    beneficiary: Address,
    basefee: U64,
    gasLimit: U64,
    disableNonceCheck: bool)

  datatype Rejection =
    | PriorityAboveMax | PriceBelowBaseFee | GasAboveBlock
    | CallerHasCode | NonceTooHigh | NonceTooLow | PaymentOverflow
    | RefusedByEngine

  datatype Failure = InvalidTx(reason: Rejection) | Fatal

  /** The gas counter of a finished call: the refund counter is signed. */
  datatype Gas = Gas(limit: U64, remaining: U64, refunded: I64) {
    function Spent(): U64 {
      SaturatingSub(limit, remaining)
    }

    function Used(): U64 {
      SaturatingSub(Spent(), WrapU64(refunded))
    }
  }

  /** What the engine does between the hooks: it can refuse the transaction for a reason of its
      own, fail fatally (database error), or run it. */
  datatype Outcome = Refused | Aborted | Ran(world: World, gas: Gas)

  function ForChain(chainId: U64, beneficiary: Address, basefee: U64, gasLimit: U64): Env {
    Env(Treasury.TreasuryAddress(chainId), beneficiary, basefee, gasLimit, false)
  }

  type Evm = (Env, Tx, World) -> Outcome

  /** The gas split of a transaction and the refund cap of EIP-3529. */
  predicate GasLaw(tx: Tx, gas: Gas) {
    gas.limit == tx.gasLimit && gas.remaining <= gas.limit && 0 <= gas.refunded * 5 <= gas.Spent()
  }

  /** All that is assumed of the engine: it neither mints nor burns, and keeps the gas law. */
  ghost predicate Lawful(evm: Evm) {
    forall env, tx, w {:trigger evm(env, tx, w)} ::
      var o := evm(env, tx, w);
      o.Ran? ==> GasLaw(tx, o.gas) && Supply(o.world.balances) == Supply(w.balances)
  }

  /** What is assumed of the engine about nonces.  It never lowers one.  The deduct hook bumps the
      caller for calls only; for a creation the engine bumps it itself, after checking that the
      caller can pay the value: without that balance the creation fails with the nonce untouched. */
  ghost predicate KeepsNonces(evm: Evm) {
    forall env, tx, w, a {:trigger NonceOf(evm(env, tx, w).world, a)} ::
      var o := evm(env, tx, w);
      o.Ran? ==>
        && NonceOf(o.world, a) >= NonceOf(w, a)
        && (a == tx.caller && !tx.isCall && NonceOf(w, a) + 1 < TWO_64 ==>
              (NonceOf(o.world, a) > NonceOf(w, a) <==> Get(w.balances, a) >= tx.value))
  }

  function NonceOf(w: World, a: Address): U64 {
    if a in w.nonces then w.nonces[a] else 0
  }

  function Price(env: Env, tx: Tx): U128 {
    EffectivePrice(tx.fee, env.basefee)
  }

  // ---------------------------------------------------------------- the hooks as functions

  /** The engine's own fee checks, which precede the hooks: the reason for a refusal. */
  function EnvRejection(env: Env, tx: Tx): Option<Rejection> {
    if tx.fee.Dynamic? && tx.fee.priority > tx.fee.maxFee then Some(PriorityAboveMax)
    else if Price(env, tx) < env.basefee then Some(PriceBelowBaseFee)
    else if tx.gasLimit > env.gasLimit then Some(GasAboveBlock)
    else None
  }

  function NonceOrCodeRejection(env: Env, w: World, tx: Tx): Option<Rejection> {
    if tx.caller in w.code then Some(CallerHasCode)
    else if env.disableNonceCheck then None
    else if tx.nonce > NonceOf(w, tx.caller) then Some(NonceTooHigh)
    else if tx.nonce < NonceOf(w, tx.caller) then Some(NonceTooLow)
    else None
  }

  /** `effective_balance_spending`: gas cost plus value, with product and sum checked. */
  function EffectiveBalanceSpending(env: Env, tx: Tx): Option<U256> {
    match CheckedMulU128(tx.gasLimit, Price(env, tx))
    case None => None
    case Some(gasCost) => if gasCost + tx.value < TWO_256 then Some(gasCost + tx.value) else None
  }

  function BumpedNonces(w: World, tx: Tx): map<Address, U64> {
    var n := NonceOf(w, tx.caller);
    if tx.isCall && n + 1 < TWO_64 then w.nonces[tx.caller := n + 1] else w.nonces
  }

  function DeductCaller(env: Env, w: World, tx: Tx): Result<World, Rejection> {
    if NonceOrCodeRejection(env, w, tx).Some? then Err(NonceOrCodeRejection(env, w, tx).value)
    else
      match EffectiveBalanceSpending(env, tx)
      case None => Err(PaymentOverflow)
      case Some(spending) =>
        var charge: U256 := SaturatingSub(spending, tx.value);
        var left: U256 := SaturatingSub(Get(w.balances, tx.caller), charge);
        Ok(World(w.balances[tx.caller := left], BumpedNonces(w, tx), w.code))
  }

  function RefundAmount(env: Env, tx: Tx, gas: Gas): U256 {
    var totalToRefund := WrapU64(gas.remaining + WrapU64(gas.refunded));
    SaturatingMulU128(Price(env, tx), totalToRefund)
  }

  function TipAmount(env: Env, tx: Tx, gas: Gas): U256 {
    WrappingMulU128(CoinbaseGasPrice(tx.fee, env.basefee), gas.Used())
  }

  function BaseFeeAmount(env: Env, gas: Gas): U256 {
    SaturatingMulU128(env.basefee, gas.Used())
  }

  /** Reimbursement, then tip, then base fee. */
  function SettleFees(env: Env, b: Ledger, tx: Tx, gas: Gas): Ledger {
    var b1 := Credit(b, tx.caller, RefundAmount(env, tx, gas));
    var b2 := Credit(b1, env.beneficiary, TipAmount(env, tx, gas));
    Credit(b2, env.treasury, BaseFeeAmount(env, gas))
  }

  /** An accepted transaction: the state the engine leaves to the settling hooks, and the gas. */
  datatype Executed = Executed(after: World, gas: Gas)

  /** A transaction up to the settlement of its fees. */
  function Transact(env: Env, evm: Evm, w: World, tx: Tx): Result<Executed, Failure> {
    match EnvRejection(env, tx)
    case Some(e) => Err(InvalidTx(e))
    case None =>
      match DeductCaller(env, w, tx)
      case Err(e) => Err(InvalidTx(e))
      case Ok(charged) =>
        match evm(env, tx, charged)
        case Refused => Err(InvalidTx(RefusedByEngine))
        case Aborted => Err(Fatal)
        case Ran(after, gas) => Ok(Executed(after, gas))
  }

  /** The state a commit stores: fees settled on what the engine left. */
  function Settled(env: Env, tx: Tx, x: Executed): World {
    World(SettleFees(env, x.after.balances, tx, x.gas), x.after.nonces, x.after.code)
  }

  datatype ResultAndState = ResultAndState(gas: Gas, state: World)

  // ---------------------------------------------------------------- what the hooks ask and do

  /** What the fee checks ask of a transaction. */
  predicate FeeValid(env: Env, tx: Tx) {
    && (tx.fee.Dynamic? ==> tx.fee.priority <= tx.fee.maxFee)
    && tx.fee.MaxFeePerGas() >= env.basefee
    && tx.gasLimit <= env.gasLimit
  }

  /** Gas cost in 128 bits, and with the value in 256 bits: no balance is asked for. */
  predicate Payable(env: Env, tx: Tx) {
    && tx.gasLimit * Price(env, tx) < TWO_128
    && tx.gasLimit * Price(env, tx) + tx.value < TWO_256
  }

  /** What the deduction asks of the caller's account and of the amounts. */
  predicate Deductible(env: Env, w: World, tx: Tx) {
    && tx.caller !in w.code
    && (env.disableNonceCheck || tx.nonce == NonceOf(w, tx.caller))
    && Payable(env, tx)
  }

  predicate Bumps(w: World, tx: Tx, a: Address) {
    a == tx.caller && tx.isCall && NonceOf(w, a) + 1 < TWO_64
  }

  /** `t` is `w` after the deduction: the caller has paid as much of the charge as it has, the nonce
      of a call is one higher, and every other account is as it was. */
  ghost predicate IsCharged(env: Env, w: World, tx: Tx, t: World) {
    && t.code == w.code
    && (forall a: Address {:trigger Get(t.balances, a)} :: Get(t.balances, a) ==
          if a != tx.caller then Get(w.balances, a)
          else if Get(w.balances, a) >= tx.gasLimit * Price(env, tx) then Get(w.balances, a) - tx.gasLimit * Price(env, tx)
          else 0)
    && (forall a: Address {:trigger NonceOf(t, a)} :: NonceOf(t, a) == NonceOf(w, a) + if Bumps(w, tx, a) then 1 else 0)
  }

  // A price below the base fee is a cap below the base fee.
  lemma FeeValidIff(env: Env, tx: Tx)
    ensures EnvRejection(env, tx).None? <==> FeeValid(env, tx)
  {
    Products(tx.gasLimit, Price(env, tx));
  }

  lemma DeductionExact(env: Env, w: World, tx: Tx)
    ensures DeductCaller(env, w, tx).Ok? <==> Deductible(env, w, tx)
    ensures DeductCaller(env, w, tx).Ok? ==> IsCharged(env, w, tx, DeductCaller(env, w, tx).value)
  {
    Products(tx.gasLimit, Price(env, tx));
    if DeductCaller(env, w, tx).Ok? {
      ChargeIs(env, w, tx);
    }
  }

  lemma ChargeIs(env: Env, w: World, tx: Tx)
    requires Payable(env, tx) && DeductCaller(env, w, tx).Ok?
    ensures var t := DeductCaller(env, w, tx).value;
      && 0 <= tx.gasLimit * Price(env, tx)
      && t.balances == w.balances[tx.caller := SaturatingSub(Get(w.balances, tx.caller), tx.gasLimit * Price(env, tx))]
  {
    Products(tx.gasLimit, Price(env, tx));
  }

  // ---------------------------------------------------------------- the hooks as they run

  class Journal {
    var balances: Ledger
    var nonces: map<Address, U64>
    var code: set<Address>

    constructor (w: World)
      ensures State() == w
    {
      balances, nonces, code := w.balances, w.nonces, w.code;
    }

    function State(): World
      reads this
    {
      World(balances, nonces, code)
    }

    method BumpNonce(a: Address)
      modifies this`nonces
      ensures nonces == var n := NonceOf(old(State()), a);
                        if n + 1 < TWO_64 then old(nonces)[a := n + 1] else old(nonces)
    {
      var n := NonceOf(State(), a);
      if n + 1 < TWO_64 {
        nonces := nonces[a := n + 1];
      }
    }

    method BalanceIncr(a: Address, amount: U256)
      modifies this`balances
      ensures balances == Credit(old(balances), a, amount)
    {
      balances := Credit(balances, a, amount);
    }

    // On an error the nonce may already be bumped; the caller drops the whole journal.
    method ValidateAgainstStateAndDeductCaller(env: Env, tx: Tx) returns (r: Result<(), Rejection>)
      modifies this
      ensures code == old(code)
      ensures match DeductCaller(env, old(State()), tx)
              case Ok(w) => r == Ok(()) && State() == w
              case Err(e) => r == Err(e) && balances == old(balances)
      ensures r.Ok? <==> Deductible(env, old(State()), tx)
      ensures r.Ok? ==> IsCharged(env, old(State()), tx, State())
    {
      DeductionExact(env, State(), tx);
      var check := NonceOrCodeRejection(env, State(), tx);
      if check.Some? {
        return Err(check.value);
      }
      if tx.isCall {
        BumpNonce(tx.caller);
      }
      var spending := EffectiveBalanceSpending(env, tx);
      if spending.None? {
        return Err(PaymentOverflow);
      }
      var gasBalanceSpending: U256 := SaturatingSub(spending.value, tx.value);
      var newBalance: U256 := SaturatingSub(Get(balances, tx.caller), gasBalanceSpending);
      balances := balances[tx.caller := newBalance];
      r := Ok(());
    }

    method ReimburseCaller(env: Env, tx: Tx, gas: Gas)
      modifies this`balances
      ensures balances == Credit(old(balances), tx.caller, RefundAmount(env, tx, gas))
    {
      var remainingGas: int, refundedGas: int := gas.remaining, WrapU64(gas.refunded);
      var totalToRefund := WrapU64(remainingGas + refundedGas);
      var refundAmount := SaturatingMulU128(Price(env, tx), totalToRefund);
      BalanceIncr(tx.caller, refundAmount);
    }

    method RewardBeneficiary(env: Env, tx: Tx, gas: Gas)
      modifies this`balances
      ensures balances ==
              Credit(Credit(old(balances), env.beneficiary, TipAmount(env, tx, gas)),
                     env.treasury, BaseFeeAmount(env, gas))
    {
      var coinbaseGasPrice := SaturatingSub(Price(env, tx), env.basefee);
      var spentMinusRefund := SaturatingSub(gas.Spent(), WrapU64(gas.refunded));
      var tipAmount := WrappingMulU128(coinbaseGasPrice, spentMinusRefund);
      var totalBaseFee := SaturatingMulU128(env.basefee, spentMinusRefund);
      BalanceIncr(env.beneficiary, tipAmount);
      BalanceIncr(env.treasury, totalBaseFee);
    }
  }

  /** The handler's run: the hooks in order on a journal that is dropped on every error. */
  method RunTransaction(env: Env, evm: Evm, w: World, tx: Tx) returns (r: Result<ResultAndState, Failure>)
    ensures match Transact(env, evm, w, tx)
            case Ok(x) => r == Ok(ResultAndState(x.gas, Settled(env, tx, x)))
            case Err(e) => r == Err(e)
  {
    var refused := EnvRejection(env, tx);
    if refused.Some? {
      return Err(InvalidTx(refused.value));
    }
    var journal := new Journal(w);
    var deducted := journal.ValidateAgainstStateAndDeductCaller(env, tx);
    if deducted.Err? {
      return Err(InvalidTx(deducted.error));
    }
    match evm(env, tx, journal.State()) {
      case Refused => return Err(InvalidTx(RefusedByEngine));
      case Aborted => return Err(Fatal);
      case Ran(after, gas) =>
        journal := new Journal(after);
        journal.ReimburseCaller(env, tx, gas);
        journal.RewardBeneficiary(env, tx, gas);
        r := Ok(ResultAndState(gas, journal.State()));
    }
  }

  // ---------------------------------------------------------------- when a transaction is accepted

  ghost predicate Admissible(env: Env, w: World, tx: Tx) {
    FeeValid(env, tx) && Deductible(env, w, tx)
  }

  /** The state the engine was given is the charged one, and what became of it is stored with the
      fees settled and nothing else changed. */
  ghost predicate RanOn(env: Env, evm: Evm, w: World, tx: Tx, t: World, o: Outcome) {
    IsCharged(env, w, tx, t) && evm(env, tx, t) == o
  }

  /** The exact outcome of a transaction.  An inadmissible one is refused without running.  An
      admissible one runs on the charged state: it is accepted if and only if the engine runs it,
      it can be skipped if the engine refuses it, and it is fatal if and only if the engine
      aborts. */
  lemma TransactExact(env: Env, evm: Evm, w: World, tx: Tx)
    ensures var r := Transact(env, evm, w, tx);
      && (!Admissible(env, w, tx) ==> r.Err? && r.error.InvalidTx? && r.error.reason != RefusedByEngine)
      && (Admissible(env, w, tx) ==> exists t, o {:trigger RanOn(env, evm, w, tx, t, o)} ::
            && RanOn(env, evm, w, tx, t, o)
            && (r.Ok? <==> o.Ran?)
            && (r == Err(InvalidTx(RefusedByEngine)) <==> o.Refused?)
            && (r == Err(Fatal) <==> o.Aborted?)
            && (r.Ok? ==> r.value.after == o.world && r.value.gas == o.gas))
    ensures forall x: Executed :: Settled(env, tx, x).nonces == x.after.nonces && Settled(env, tx, x).code == x.after.code
  {
    FeeValidIff(env, tx);
    DeductionExact(env, w, tx);
    if Admissible(env, w, tx) {
      var t := DeductCaller(env, w, tx).value;
      assert RanOn(env, evm, w, tx, t, evm(env, tx, t));
    }
  }

  /** The reason given is the first rule that is broken, in the order fees, block gas, code, nonce,
      amounts. */
  lemma RefusalReasons(env: Env, evm: Evm, w: World, tx: Tx)
    ensures var r, current := Transact(env, evm, w, tx), NonceOf(w, tx.caller);
      var ordered := tx.fee.Dynamic? ==> tx.fee.priority <= tx.fee.maxFee;
      var nonced := env.disableNonceCheck || tx.nonce == current;
      && (r == Err(InvalidTx(PriorityAboveMax)) <==> !ordered)
      && (r == Err(InvalidTx(PriceBelowBaseFee)) <==> ordered && tx.fee.MaxFeePerGas() < env.basefee)
      && (r == Err(InvalidTx(GasAboveBlock)) <==>
            ordered && tx.fee.MaxFeePerGas() >= env.basefee && tx.gasLimit > env.gasLimit)
      && (r == Err(InvalidTx(CallerHasCode)) <==> FeeValid(env, tx) && tx.caller in w.code)
      && (r == Err(InvalidTx(NonceTooHigh)) <==>
            FeeValid(env, tx) && tx.caller !in w.code && !env.disableNonceCheck && tx.nonce > current)
      && (r == Err(InvalidTx(NonceTooLow)) <==>
            FeeValid(env, tx) && tx.caller !in w.code && !env.disableNonceCheck && tx.nonce < current)
      && (r == Err(InvalidTx(PaymentOverflow)) <==>
            FeeValid(env, tx) && tx.caller !in w.code && nonced && !Payable(env, tx))
  {
    FeeValidIff(env, tx);
    DeductionExact(env, w, tx);
  }

  /** An engine under which no account changes its nonce or gets code. */
  ghost predicate LeavesAccounts(evm: Evm) {
    forall env, tx, w {:trigger evm(env, tx, w)} ::
      var o := evm(env, tx, w);
      o.Ran? ==> o.world.code == w.code && forall a: Address {:trigger NonceOf(o.world, a)} :: NonceOf(o.world, a) == NonceOf(w, a)
  }

  /** How far the hooks themselves move a nonce: by one for the caller of a call, unless it is at its
      maximum, and for nobody else. */
  lemma NonceStep(env: Env, evm: Evm, w: World, tx: Tx, x: Executed, a: Address)
    requires LeavesAccounts(evm) && Transact(env, evm, w, tx) == Ok(x)
    ensures NonceOf(Settled(env, tx, x), a) == NonceOf(w, a) + if Bumps(w, tx, a) then 1 else 0
    ensures Settled(env, tx, x).code == w.code
    ensures tx.isCall && !env.disableNonceCheck && tx.nonce + 1 < TWO_64 ==>
            NonceOf(Settled(env, tx, x), tx.caller) == tx.nonce + 1
  {
    DeductionExact(env, w, tx);
    var t := DeductCaller(env, w, tx).value;
    assert IsCharged(env, w, tx, t);
    assert evm(env, tx, t) == Ran(x.after, x.gas);
    assert NonceOf(Settled(env, tx, x), a) == NonceOf(x.after, a) == NonceOf(t, a);
    assert NonceOf(Settled(env, tx, x), tx.caller) == NonceOf(x.after, tx.caller) == NonceOf(t, tx.caller);
  }

  // ---------------------------------------------------------------- machine arithmetic is exact

  // The refund cap makes the signed counter small and the gas sums exact.
  lemma GasIsExact(tx: Tx, gas: Gas)
    requires GasLaw(tx, gas)
    ensures gas.Used() == tx.gasLimit - gas.remaining - gas.refunded
    ensures WrapU64(gas.remaining + WrapU64(gas.refunded)) == tx.gasLimit - gas.Used()
    ensures 0 <= gas.Used() <= tx.gasLimit
  {
    assert WrapU64(gas.refunded) == gas.refunded;
  }

  /** Once the deduction has been accepted, the wrapping product, both saturating products and
      every saturating subtraction of the three hooks equal their integer values. */
  lemma MachineArithmeticIsExact(env: Env, w: World, tx: Tx, gas: Gas)
    requires DeductCaller(env, w, tx).Ok? && GasLaw(tx, gas)
    ensures RefundAmount(env, tx, gas) == Price(env, tx) * (tx.gasLimit - gas.Used())
    ensures TipAmount(env, tx, gas) == CoinbaseGasPrice(tx.fee, env.basefee) * gas.Used()
    ensures BaseFeeAmount(env, gas) == env.basefee * gas.Used()
    ensures SaturatingSub(EffectiveBalanceSpending(env, tx).value, tx.value) == tx.gasLimit * Price(env, tx)
  {
    GasIsExact(tx, gas);
    var price, used := Price(env, tx), gas.Used();
    ProductLe(price, tx.gasLimit - used, price, tx.gasLimit);
    ProductLe(CoinbaseGasPrice(tx.fee, env.basefee), used, price, tx.gasLimit);
    ProductLe(env.basefee, used, TWO_64 - 1, TWO_64 - 1);
  }

  // ---------------------------------------------------------------- conservation

  /** What the caller cannot pay of the up-front charge. */
  function Shortfall(env: Env, w: World, tx: Tx): nat {
    Products(tx.gasLimit, Price(env, tx));
    SaturatingSub(tx.gasLimit * Price(env, tx), Get(w.balances, tx.caller))
  }

  /** What the treasury receives above what the caller pays per gas. */
  function BaseFeeGap(env: Env, tx: Tx, gas: Gas): nat {
    Products(SaturatingSub(env.basefee, Price(env, tx)), gas.Used());
    SaturatingSub(env.basefee, Price(env, tx)) * gas.Used()
  }

  // Refund, tip and base fee together give back the whole charge, plus the base fee gap.
  lemma FeeSplit(price: nat, basefee: nat, limit: nat, used: nat)
    requires used <= limit
    ensures price * (limit - used) + SaturatingSub(price, basefee) * used + basefee * used
         == limit * price + SaturatingSub(basefee, price) * used
  {
    assert price * (limit - used) == price * limit - price * used;
    if basefee <= price {
      assert (price - basefee) * used == price * used - basefee * used;
    } else {
      assert (basefee - price) * used == basefee * used - price * used;
    }
  }

  lemma ChargedSupply(env: Env, w: World, tx: Tx)
    requires DeductCaller(env, w, tx).Ok?
    ensures Supply(DeductCaller(env, w, tx).value.balances) + tx.gasLimit * Price(env, tx)
         == Supply(w.balances) + Shortfall(env, w, tx)
  {
    var charge := tx.gasLimit * Price(env, tx);
    var left: U256 := SaturatingSub(Get(w.balances, tx.caller), charge);
    assert DeductCaller(env, w, tx).value.balances == w.balances[tx.caller := left];
    SupplySet(w.balances, tx.caller, left);
  }

  /** What an account earns from a transaction through the roles it holds. */
  function RoleIncome(env: Env, tx: Tx, a: Address, refund: int, tip: int, base: int): int {
    (if a == tx.caller then refund else 0)
    + (if a == env.beneficiary then tip else 0)
    + (if a == env.treasury then base else 0)
  }

  /** The same in integer arithmetic: unused gas at the price paid, tip and base fee on used gas. */
  ghost function Income(env: Env, tx: Tx, gas: Gas, a: Address): int {
    RoleIncome(env, tx, a,
               Price(env, tx) * (tx.gasLimit - gas.Used()),
               CoinbaseGasPrice(tx.fee, env.basefee) * gas.Used(),
               env.basefee * gas.Used())
  }

  lemma IncomeIsExact(env: Env, w: World, tx: Tx, gas: Gas, a: Address)
    requires DeductCaller(env, w, tx).Ok? && GasLaw(tx, gas)
    ensures RoleIncome(env, tx, a, RefundAmount(env, tx, gas), TipAmount(env, tx, gas), BaseFeeAmount(env, gas))
         == Income(env, tx, gas, a)
  {
    MachineArithmeticIsExact(env, w, tx, gas);
  }

  /** The credits are exactly the three amounts, whoever caller, beneficiary and treasury are:
      each account gains what its roles earn, even when it holds several. */
  lemma SettlementIsExact(env: Env, b: Ledger, tx: Tx, gas: Gas, a: Address)
    requires Supply(b) + RefundAmount(env, tx, gas) + TipAmount(env, tx, gas) + BaseFeeAmount(env, gas) < TWO_256
    ensures Supply(SettleFees(env, b, tx, gas))
         == Supply(b) + RefundAmount(env, tx, gas) + TipAmount(env, tx, gas) + BaseFeeAmount(env, gas)
    ensures Get(SettleFees(env, b, tx, gas), a) == Get(b, a)
         + RoleIncome(env, tx, a, RefundAmount(env, tx, gas), TipAmount(env, tx, gas), BaseFeeAmount(env, gas))
  {
    var refund, tip, base := RefundAmount(env, tx, gas), TipAmount(env, tx, gas), BaseFeeAmount(env, gas);
    var treasury := env.treasury;
    CreditSupply(b, tx.caller, refund);
    CreditGet(b, tx.caller, refund, a);
    var b1 := Credit(b, tx.caller, refund);
    CreditSupply(b1, env.beneficiary, tip);
    CreditGet(b1, env.beneficiary, tip, a);
    var b2 := Credit(b1, env.beneficiary, tip);
    CreditSupply(b2, treasury, base);
    CreditGet(b2, treasury, base, a);
  }

  /** Without that assumption: an account receives its refund, then its tip, then its base fee, each
      dropped alone when the balance it meets would leave 256 bits. */
  lemma SettlementOrder(env: Env, b: Ledger, tx: Tx, gas: Gas, a: Address)
    ensures var refund, tip, base := RefundAmount(env, tx, gas), TipAmount(env, tx, gas), BaseFeeAmount(env, gas);
      var v0: int := Get(b, a);
      var v1 := if a == tx.caller && v0 + refund < TWO_256 then v0 + refund else v0;
      var v2 := if a == env.beneficiary && v1 + tip < TWO_256 then v1 + tip else v1;
      Get(SettleFees(env, b, tx, gas), a) == if a == env.treasury && v2 + base < TWO_256 then v2 + base else v2
  {
  }

  // The three amounts together give back the charge, plus the base fee gap.
  lemma AmountsTotal(env: Env, w: World, tx: Tx, gas: Gas)
    requires DeductCaller(env, w, tx).Ok? && GasLaw(tx, gas)
    ensures RefundAmount(env, tx, gas) + TipAmount(env, tx, gas) + BaseFeeAmount(env, gas)
         == tx.gasLimit * Price(env, tx) + BaseFeeGap(env, tx, gas)
  {
    MachineArithmeticIsExact(env, w, tx, gas);
    GasIsExact(tx, gas);
    FeeSplit(Price(env, tx), env.basefee, tx.gasLimit, gas.Used());
  }

  /** The hooks around any supply-preserving execution, with no assumption on price or balance:
      the supply grows by exactly the caller's shortfall plus the base fee gap. */
  lemma HooksSupply(env: Env, w: World, tx: Tx, after: World, gas: Gas)
    requires DeductCaller(env, w, tx).Ok? && GasLaw(tx, gas)
    requires Supply(after.balances) == Supply(DeductCaller(env, w, tx).value.balances)
    requires Supply(w.balances) + Shortfall(env, w, tx) + BaseFeeGap(env, tx, gas) < TWO_256
    ensures Supply(after.balances) + RefundAmount(env, tx, gas) + TipAmount(env, tx, gas) + BaseFeeAmount(env, gas)
         == Supply(w.balances) + Shortfall(env, w, tx) + BaseFeeGap(env, tx, gas)
    ensures Supply(SettleFees(env, after.balances, tx, gas))
         == Supply(w.balances) + Shortfall(env, w, tx) + BaseFeeGap(env, tx, gas)
  {
    AmountsTotal(env, w, tx, gas);
    ChargedSupply(env, w, tx);
    SettlementIsExact(env, after.balances, tx, gas, 0);
  }

  /** Wei is conserved by the hooks exactly when the caller covers the charge and the price
      covers the base fee (or no gas is used). */
  lemma HooksConserve(env: Env, w: World, tx: Tx, after: World, gas: Gas)
    requires DeductCaller(env, w, tx).Ok? && GasLaw(tx, gas)
    requires Supply(after.balances) == Supply(DeductCaller(env, w, tx).value.balances)
    requires Supply(w.balances) + Shortfall(env, w, tx) + BaseFeeGap(env, tx, gas) < TWO_256
    ensures Supply(SettleFees(env, after.balances, tx, gas)) == Supply(w.balances)
       <==> Get(w.balances, tx.caller) >= tx.gasLimit * Price(env, tx)
            && (Price(env, tx) >= env.basefee || gas.Used() == 0)
  {
    HooksSupply(env, w, tx, after, gas);
    NoGap(env, tx, gas);
  }

  lemma NoGap(env: Env, tx: Tx, gas: Gas)
    ensures BaseFeeGap(env, tx, gas) == 0 <==> Price(env, tx) >= env.basefee || gas.Used() == 0
  {
    if Price(env, tx) < env.basefee && gas.Used() > 0 {
      ProductLe(1, 1, env.basefee - Price(env, tx), gas.Used());
    }
  }

  // The engine's fee checks close the base fee gap.
  lemma AcceptedPriceCoversBaseFee(env: Env, evm: Evm, w: World, tx: Tx)
    requires Transact(env, evm, w, tx).Ok?
    ensures Price(env, tx) >= env.basefee && tx.fee.MaxFeePerGas() >= env.basefee
    ensures EffectiveTipPerGas(tx.fee, env.basefee) == Some(CoinbaseGasPrice(tx.fee, env.basefee))
  {
    if tx.fee.MaxFeePerGas() < env.basefee {
      NoTipBelowBaseFee(tx.fee, env.basefee);
    }
    TipFormulasAgree(tx.fee, env.basefee);
  }

  // The stages behind an accepted transaction.
  lemma TransactStages(env: Env, evm: Evm, w: World, tx: Tx, x: Executed)
    requires Lawful(evm) && Transact(env, evm, w, tx) == Ok(x)
    ensures DeductCaller(env, w, tx).Ok? && GasLaw(tx, x.gas) && BaseFeeGap(env, tx, x.gas) == 0
    ensures Supply(x.after.balances) == Supply(DeductCaller(env, w, tx).value.balances)
  {
    assert evm(env, tx, DeductCaller(env, w, tx).value) == Ran(x.after, x.gas);
    NoGap(env, tx, x.gas);
  }

  /** A committed transaction mints exactly its caller's shortfall, and nothing else. */
  lemma TransactSupply(env: Env, evm: Evm, w: World, tx: Tx, x: Executed)
    requires Lawful(evm) && Transact(env, evm, w, tx) == Ok(x)
    requires Supply(w.balances) + Shortfall(env, w, tx) < TWO_256
    ensures Supply(Settled(env, tx, x).balances) == Supply(w.balances) + Shortfall(env, w, tx)
    ensures Supply(Settled(env, tx, x).balances) == Supply(w.balances)
       <==> Get(w.balances, tx.caller) >= tx.gasLimit * Price(env, tx)
  {
    TransactStages(env, evm, w, tx, x);
    HooksSupply(env, w, tx, x.after, x.gas);
  }

  /** On top of what execution left it, each account gains exactly what its roles earn. */
  lemma TransactIncome(env: Env, evm: Evm, w: World, tx: Tx, x: Executed, a: Address)
    requires Lawful(evm) && Transact(env, evm, w, tx) == Ok(x)
    requires Supply(w.balances) + Shortfall(env, w, tx) < TWO_256
    ensures Get(Settled(env, tx, x).balances, a) == Get(x.after.balances, a) + Income(env, tx, x.gas, a)
  {
    TransactStages(env, evm, w, tx, x);
    HooksSupply(env, w, tx, x.after, x.gas);
    SettlementIsExact(env, x.after.balances, tx, x.gas, a);
    IncomeIsExact(env, w, tx, x.gas, a);
  }

  /** Whether the transaction uses up its nonce: a call always does, a creation only when the charge
      leaves the caller its value. */
  predicate UsesNonce(env: Env, w: World, tx: Tx) {
    Products(tx.gasLimit, Price(env, tx));
    tx.isCall || SaturatingSub(Get(w.balances, tx.caller), tx.gasLimit * Price(env, tx)) >= tx.value
  }

  lemma BalanceAfterCharge(env: Env, w: World, tx: Tx)
    requires DeductCaller(env, w, tx).Ok?
    ensures 0 <= tx.gasLimit * Price(env, tx)
    ensures Get(DeductCaller(env, w, tx).value.balances, tx.caller)
         == SaturatingSub(Get(w.balances, tx.caller), tx.gasLimit * Price(env, tx))
  {
    Products(tx.gasLimit, Price(env, tx));
  }

  /** An accepted transaction has the caller's current nonce, and no nonce falls.  The caller's rises
      if and only if the transaction is a call or the caller's balance after the charge covers the
      value it creates with. */
  lemma TransactNonces(env: Env, evm: Evm, w: World, tx: Tx, x: Executed, a: Address)
    requires KeepsNonces(evm) && Transact(env, evm, w, tx) == Ok(x)
    ensures !env.disableNonceCheck ==> tx.nonce == NonceOf(w, tx.caller)
    ensures NonceOf(Settled(env, tx, x), a) >= NonceOf(w, a)
    ensures a == tx.caller && NonceOf(w, a) + 1 < TWO_64 ==>
            (NonceOf(Settled(env, tx, x), a) > NonceOf(w, a) <==> UsesNonce(env, w, tx))
  {
    var charged := DeductCaller(env, w, tx).value;
    BalanceAfterCharge(env, w, tx);
    assert NonceOf(evm(env, tx, charged).world, a) >= NonceOf(charged, a) >= NonceOf(w, a);
  }

  /** A caller that covers charge and value, which the hook does not ask for, always uses up its
      nonce. */
  lemma FundedUsesNonce(env: Env, w: World, tx: Tx)
    requires Get(w.balances, tx.caller) >= tx.gasLimit * Price(env, tx) + tx.value
    ensures UsesNonce(env, w, tx)
  {
  }

  /** An underfunded caller is not rejected: under every engine that runs the transaction, whatever
      the caller cannot pay is minted. */
  lemma UnderfundedCallerMints(env: Env, evm: Evm, w: World, tx: Tx)
    requires EnvRejection(env, tx).None? && DeductCaller(env, w, tx).Ok?
    requires Lawful(evm) && evm(env, tx, DeductCaller(env, w, tx).value).Ran?
    requires Get(w.balances, tx.caller) < tx.gasLimit * Price(env, tx)
    requires Supply(w.balances) + Shortfall(env, w, tx) < TWO_256
    ensures var r := Transact(env, evm, w, tx);
      r.Ok? && Supply(Settled(env, tx, r.value).balances) > Supply(w.balances)
  {
    TransactSupply(env, evm, w, tx, Transact(env, evm, w, tx).value);
  }

  /** An engine whose calls and creations change nothing but the creator's nonce, and use up all
      gas. */
  function IdleEngine(): Evm {
    (env: Env, tx: Tx, w: World) =>
      var n := NonceOf(w, tx.caller);
      var bumps := !tx.isCall && Get(w.balances, tx.caller) >= tx.value && n + 1 < TWO_64;
      Ran(if bumps then w.(nonces := w.nonces[tx.caller := n + 1]) else w, Gas(tx.gasLimit, 0, 0))
  }

  lemma IdleEngineIsLawful()
    ensures Lawful(IdleEngine()) && KeepsNonces(IdleEngine())
  {
  }

  // For instance an account that holds nothing at all, on an empty ledger.
  lemma EmptyAccountMints()
    ensures var env, w := Env(0x2025550000000000000000000000000000010001, 7, 1, 30000, false), World(map[], map[], {});
            var tx := Tx(1, 5, 0, true, 21000, 0, Legacy(1), 100);
            var r := Transact(env, IdleEngine(), w, tx);
      r.Ok? && Supply(Settled(env, tx, r.value).balances) > 0
  {
    IdleEngineIsLawful();
    UnderfundedCallerMints(
      Env(0x2025550000000000000000000000000000010001, 7, 1, 30000, false),
      IdleEngine(),
      World(map[], map[], {}),
      Tx(1, 5, 0, true, 21000, 0, Legacy(1), 100));
  }
}
