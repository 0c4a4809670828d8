/** Transactions as the fee ledger, the pool and the builder see them. */
module Transactions {
  import opened Machine
  import opened Balances

  type Hash = U256

  /** The fixed base fee of 2000 GWei. */
  const KASPLEX_BASE_FEE: U64 := 2_000_000_000_000

  /** Legacy and EIP-2930 transactions name one price; EIP-1559 and EIP-7702 transactions name a
      fee cap and a priority fee. */
  datatype Fee = Legacy(gasPrice: U128) | Dynamic(maxFee: U128, priority: U128) {
    function MaxFeePerGas(): U128 {
      match this
      case Legacy(p) => p
      case Dynamic(m, _) => m
    }

    function MaxPriorityFeePerGas(): Option<U128> {
      match this
      case Legacy(_) => None
      case Dynamic(_, p) => Some(p)
    }
  }

  /** `size` is the length of the EIP-2718 encoding. */
  datatype Tx = Tx(
    hash: Hash,
    caller: Address,
    nonce: U64,
    isCall: bool,
    gasLimit: U64,
    value: U256,
    fee: Fee,
    size: U64)

  function Hashes(txs: seq<Tx>): (hs: seq<Hash>)
    ensures |hs| == |txs| && forall i :: 0 <= i < |txs| ==> hs[i] == txs[i].hash
  {
    seq(|txs|, i requires 0 <= i < |txs| => txs[i].hash)
  }

  ghost function GasLimitSum(txs: seq<Tx>): nat {
    if txs == [] then 0 else GasLimitSum(txs[..|txs| - 1]) + txs[|txs| - 1].gasLimit
  }

  ghost function SizeSum(txs: seq<Tx>): nat {
    if txs == [] then 0 else SizeSum(txs[..|txs| - 1]) + txs[|txs| - 1].size
  }

  /** The price per gas the execution engine charges (EIP-1559). */
  function EffectivePrice(fee: Fee, basefee: U128): U128 {
    match fee
    case Legacy(p) => p
    case Dynamic(m, p) => Min(m, SaturatingAddU128(basefee, p))
  }

  /** Nobody pays more than its cap or, with a priority fee, more than base fee plus priority, and
      everybody pays one of the two. */
  lemma PriceExact(fee: Fee, basefee: U64)
    ensures EffectivePrice(fee, basefee) <= fee.MaxFeePerGas()
    ensures fee.Legacy? ==> EffectivePrice(fee, basefee) == fee.gasPrice == fee.MaxFeePerGas()
    ensures fee.Dynamic? ==> fee.MaxFeePerGas() == fee.maxFee
    ensures fee.Dynamic? ==> EffectivePrice(fee, basefee) <= basefee + fee.priority
    ensures fee.Dynamic? ==> EffectivePrice(fee, basefee) == fee.maxFee || EffectivePrice(fee, basefee) == basefee + fee.priority
  {
  }

  /** `effective_tip_per_gas`, the payload builder's formula: nothing when the cap is below the
      base fee. */
  function EffectiveTipPerGas(fee: Fee, basefee: U64): Option<U128> {
    if fee.MaxFeePerGas() < basefee then None
    else
      var room := fee.MaxFeePerGas() - basefee;
      match fee.MaxPriorityFeePerGas()
      case Some(p) => Some(Min(room, p))
      case None => Some(room)
  }

  /** The tip the execution engine credits per gas: effective price minus base fee. */
  function CoinbaseGasPrice(fee: Fee, basefee: U64): (r: U128) {
    SaturatingSub(EffectivePrice(fee, basefee), basefee)
  }

  /** For a transaction whose cap covers the base fee, the engine's tip is the builder's tip, and
      the effective price splits exactly into base fee and tip. */
  lemma TipFormulasAgree(fee: Fee, basefee: U64)
    requires fee.MaxFeePerGas() >= basefee
    ensures EffectiveTipPerGas(fee, basefee) == Some(CoinbaseGasPrice(fee, basefee))
    ensures EffectivePrice(fee, basefee) == basefee + CoinbaseGasPrice(fee, basefee)
  {
    match fee
    case Legacy(p) =>
    case Dynamic(m, p) =>
      if basefee + p < TWO_128 {
        assert SaturatingAddU128(basefee, p) == basefee + p;
      } else {
        assert m <= SaturatingAddU128(basefee, p);
        assert m - basefee < p;
      }
  }

  // Below the base fee the builder has no tip, and the engine charges less than the base fee.
  lemma NoTipBelowBaseFee(fee: Fee, basefee: U64)
    requires fee.MaxFeePerGas() < basefee
    ensures EffectiveTipPerGas(fee, basefee) == None && EffectivePrice(fee, basefee) < basefee
  {
  }

  lemma {:induction false} GasLimitSumConcat(a: seq<Tx>, b: seq<Tx>)
    ensures GasLimitSum(a + b) == GasLimitSum(a) + GasLimitSum(b)
    ensures SizeSum(a + b) == SizeSum(a) + SizeSum(b)
  {
    if b == [] {
      assert a + b == a;
    } else {
      GasLimitSumConcat(a, b[..|b| - 1]);
      assert (a + b)[..|a + b| - 1] == a + b[..|b| - 1];
    }
  }
}
