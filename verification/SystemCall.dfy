/** System calls: block gas limit, base fee and nonce check are swapped out around the inner run. */
module SystemCall {
  import opened Machine
  import opened Balances
  import opened Transactions
  import opened Handler

  const SYSTEM_GAS_LIMIT: U64 := 30_000_000

  type Account = U256

  type State = map<Address, Account>

  /** The part of block and configuration that the call replaces. */
  datatype Settings = Settings(gasLimit: U64, basefee: U64, disableNonceCheck: bool)

  function SystemTx(caller: Address): Tx {
    Tx(0, caller, 0, true, SYSTEM_GAS_LIMIT, 0, Legacy(0), 0)
  }

  class KasplexEvm<E(==)> {
    var gasLimit: U64
    var basefee: U64
    var disableNonceCheck: bool

    constructor (s: Settings)
      ensures Current() == s
    {
      gasLimit, basefee, disableNonceCheck := s.gasLimit, s.basefee, s.disableNonceCheck;
    }

    function Current(): Settings
      reads this
    {
      Settings(gasLimit, basefee, disableNonceCheck)
    }

    /** For every inner run, failing ones included, the settings are what they were, the run itself
        saw the system settings, and a successful result mentions the contract alone. */
    method TransactSystemCall(caller: Address, contract: Address, inner: (Settings, Tx) -> Result<State, E>)
      returns (r: Result<State, E>)
      modifies this
      ensures Current() == old(Current())
      ensures var tx := SystemTx(caller);
        && tx.caller == caller && tx.isCall && tx.value == 0 && tx.nonce == 0
        && tx.gasLimit == 30_000_000 && tx.fee == Legacy(0)
      ensures match inner(Settings(30_000_000, 0, true), SystemTx(caller))
              case Err(e) => r == Err(e)
              case Ok(state) =>
                r.Ok? && r.value.Keys == state.Keys * {contract}
                && (contract in state ==> r.value[contract] == state[contract])
    {
      var tx := SystemTx(caller);
      var heldGasLimit, heldBasefee, heldCheck := tx.gasLimit, 0, true;
      gasLimit, heldGasLimit := heldGasLimit, gasLimit;
      basefee, heldBasefee := heldBasefee, basefee;
      disableNonceCheck, heldCheck := heldCheck, disableNonceCheck;

      r := inner(Current(), tx);

      gasLimit, heldGasLimit := heldGasLimit, gasLimit;
      basefee, heldBasefee := heldBasefee, basefee;
      disableNonceCheck, heldCheck := heldCheck, disableNonceCheck;

      if r.Ok? {
        r := Ok(map a | a in r.value && a == contract :: r.value[a]);
      }
    }
  }

  lemma CreditZero(b: Ledger, a: Address, c: Address)
    ensures Get(Credit(b, a, 0), c) == Get(b, c)
  {
  }

  /** The fee hooks move nothing in a system call, with no condition on balances or supply: the
      charge, the refund, the tip and the treasury's share are zero, and the deduction passes for
      every caller without code. */
  lemma SystemCallIsFeeNeutral(env: Env, w: World, caller: Address, gas: Gas, b: Ledger, a: Address)
    requires env.basefee == 0 && env.disableNonceCheck && caller !in w.code
    requires GasLaw(SystemTx(caller), gas)
    ensures DeductCaller(env, w, SystemTx(caller)).Ok?
    ensures Get(DeductCaller(env, w, SystemTx(caller)).value.balances, a) == Get(w.balances, a)
    ensures Get(SettleFees(env, b, SystemTx(caller), gas), a) == Get(b, a)
  {
    var tx := SystemTx(caller);
    assert Price(env, tx) == 0;
    MachineArithmeticIsExact(env, w, tx, gas);
    ZeroAmounts(env, w, tx, gas);
    var b1 := Credit(b, caller, 0);
    CreditZero(b, caller, a);
    CreditZero(b1, env.beneficiary, a);
    CreditZero(Credit(b1, env.beneficiary, 0), env.treasury, a);
  }

  lemma ZeroAmounts(env: Env, w: World, tx: Tx, gas: Gas)
    requires env.basefee == 0 && tx.fee == Legacy(0)
    requires DeductCaller(env, w, tx).Ok? && GasLaw(tx, gas)
    ensures RefundAmount(env, tx, gas) == 0 && TipAmount(env, tx, gas) == 0 && BaseFeeAmount(env, gas) == 0
  {
    MachineArithmeticIsExact(env, w, tx, gas);
  }
}
