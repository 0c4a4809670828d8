/** The pool listings of the `kasplexAuth` namespace: the pre-built transaction list under a gas and
    a byte budget, and the listing by minimum tip. */
module Selection {
  import opened Machine
  import opened Balances
  import opened Transactions
  import opened Handler

  datatype PreBuiltTxList = PreBuiltTxList(txList: seq<Tx>, estimatedGasUsed: U64, bytesLength: U64)

  /** The pending transactions whose cap reaches the requested base fee, in pool order. */
  ghost function Eligible(pending: seq<Tx>, baseFee: U256): seq<Tx> {
    if pending == [] then []
    else
      var last := pending[|pending| - 1];
      Eligible(pending[..|pending| - 1], baseFee) + (if last.fee.MaxFeePerGas() < baseFee then [] else [last])
  }

  /** Each transaction is judged by its own cap, and the order is the pool's. */
  lemma {:induction false} EligibleConcat(a: seq<Tx>, b: seq<Tx>, baseFee: U256)
    ensures Eligible(a + b, baseFee) == Eligible(a, baseFee) + Eligible(b, baseFee)
    ensures forall tx {:trigger Eligible([tx], baseFee)} ::
      Eligible([tx], baseFee) == if tx.fee.MaxFeePerGas() >= baseFee then [tx] else []
  {
    if b == [] {
      assert a + b == a;
    } else {
      var n := |b| - 1;
      EligibleConcat(a, b[..n], baseFee);
      assert (a + b)[..|a + b| - 1] == a + b[..n];
    }
  }

  // ---------------------------------------------------------------- the intended selection

  ghost predicate Fits(txs: seq<Tx>, gas: U64, bytes: U64) {
    GasLimitSum(txs) <= gas && SizeSum(txs) <= bytes
  }

  /** The length of the longest prefix that fits both budgets. */
  ghost function LongestFit(f: seq<Tx>, gas: U64, bytes: U64): (k: nat)
    ensures k <= |f|
  {
    if f == [] then 0
    else
      var k := LongestFit(f[..|f| - 1], gas, bytes);
      if k == |f| - 1 && Fits(f, gas, bytes) then |f| else k
  }

  lemma SumsMonotone(f: seq<Tx>, j: nat)
    requires j <= |f|
    ensures GasLimitSum(f[..j]) <= GasLimitSum(f) && SizeSum(f[..j]) <= SizeSum(f)
  {
    GasLimitSumConcat(f[..j], f[j..]);
    assert f == f[..j] + f[j..];
  }

  /** A prefix fits exactly when it is no longer than that. */
  lemma {:induction false} LongestFitIsLongest(f: seq<Tx>, gas: U64, bytes: U64, j: nat)
    requires j <= |f|
    ensures Fits(f[..j], gas, bytes) <==> j <= LongestFit(f, gas, bytes)
  {
    if f == [] {
      assert f[..j] == [];
    } else {
      var n := |f| - 1;
      var front := f[..n];
      if j <= n {
        LongestFitIsLongest(front, gas, bytes, j);
        assert front[..j] == f[..j];
        LongestFitIsLongest(front, gas, bytes, n);
        assert front[..n] == front;
      } else {
        LongestFitIsLongest(front, gas, bytes, n);
        assert front[..n] == front && f[..j] == f;
        SumsMonotone(f, n);
      }
    }
  }

  // ---------------------------------------------------------------- the selection as it runs

  /** The loop's test: the sums are 64-bit and wrap. */
  ghost predicate LooksFitting(txs: seq<Tx>, gas: U64, bytes: U64) {
    WrapU64(GasLimitSum(txs)) <= gas && WrapU64(SizeSum(txs)) <= bytes
  }

  ghost predicate AllLookFitting(txs: seq<Tx>, gas: U64, bytes: U64) {
    forall j :: 0 < j <= |txs| ==> LooksFitting(txs[..j], gas, bytes)
  }

  /** The loop takes the first `k`: each passed the test when it was reached, the next does not. */
  ghost predicate Takes(f: seq<Tx>, gas: U64, bytes: U64, k: nat) {
    && k <= |f|
    && AllLookFitting(f[..k], gas, bytes)
    && (k < |f| ==> !LooksFitting(f[..k + 1], gas, bytes))
  }

  ghost predicate IsPreBuilt(l: PreBuiltTxList, f: seq<Tx>, gas: U64, bytes: U64) {
    && l.txList <= f
    && Takes(f, gas, bytes, |l.txList|)
    && l.estimatedGasUsed == WrapU64(GasLimitSum(l.txList))
    && l.bytesLength == WrapU64(SizeSum(l.txList))
  }

  // The eligible part of a prefix of the pool is a prefix of the eligible list.
  lemma {:induction false} EligiblePrefix(pending: seq<Tx>, baseFee: U256, i: nat)
    requires i <= |pending|
    ensures Eligible(pending[..i], baseFee) <= Eligible(pending, baseFee)
  {
    if i < |pending| {
      EligiblePrefix(pending[..|pending| - 1], baseFee, i);
      assert pending[..|pending| - 1][..i] == pending[..i];
    } else {
      assert pending[..i] == pending;
    }
  }

  lemma EligibleNext(pending: seq<Tx>, baseFee: U256, i: nat)
    requires i < |pending|
    ensures Eligible(pending[..i + 1], baseFee) ==
            Eligible(pending[..i], baseFee) + (if pending[i].fee.MaxFeePerGas() < baseFee then [] else [pending[i]])
  {
    assert pending[..i + 1][..i] == pending[..i];
  }

  lemma SumsNext(txs: seq<Tx>, tx: Tx, totalGasUsed: U64, totalBytes: U64)
    requires totalGasUsed == WrapU64(GasLimitSum(txs)) && totalBytes == WrapU64(SizeSum(txs))
    ensures WrapU64(GasLimitSum(txs + [tx])) == WrapU64(totalGasUsed as int + tx.gasLimit)
    ensures WrapU64(SizeSum(txs + [tx])) == WrapU64(totalBytes as int + tx.size)
  {
    assert (txs + [tx])[..|txs|] == txs;
    WrapAddU64(GasLimitSum(txs), tx.gasLimit);
    WrapAddU64(SizeSum(txs), tx.size);
  }

  /** The loop's accumulators after the first `i` pool transactions. */
  ghost predicate Accumulated(
    pending: seq<Tx>, baseFee: U256, i: nat, gas: U64, bytes: U64,
    txs: seq<Tx>, totalGasUsed: U64, totalBytes: U64)
    requires i <= |pending|
  {
    && txs == Eligible(pending[..i], baseFee)
    && totalGasUsed == WrapU64(GasLimitSum(txs))
    && totalBytes == WrapU64(SizeSum(txs))
    && AllLookFitting(txs, gas, bytes)
  }

  lemma AllLookFittingNext(txs: seq<Tx>, tx: Tx, gas: U64, bytes: U64)
    requires AllLookFitting(txs, gas, bytes) && LooksFitting(txs + [tx], gas, bytes)
    ensures AllLookFitting(txs + [tx], gas, bytes)
  {
    var more := txs + [tx];
    forall j | 0 < j <= |more|
      ensures LooksFitting(more[..j], gas, bytes)
    {
      if j <= |txs| {
        assert more[..j] == txs[..j];
      } else {
        assert more[..j] == more;
      }
    }
  }

  lemma AccumulateSkip(
    pending: seq<Tx>, baseFee: U256, i: nat, gas: U64, bytes: U64,
    txs: seq<Tx>, totalGasUsed: U64, totalBytes: U64)
    requires i < |pending| && Accumulated(pending, baseFee, i, gas, bytes, txs, totalGasUsed, totalBytes)
    requires pending[i].fee.MaxFeePerGas() < baseFee
    ensures Accumulated(pending, baseFee, i + 1, gas, bytes, txs, totalGasUsed, totalBytes)
  {
    EligibleNext(pending, baseFee, i);
    assert txs + [] == txs;
  }

  lemma AccumulateTake(
    pending: seq<Tx>, baseFee: U256, i: nat, gas: U64, bytes: U64,
    txs: seq<Tx>, totalGasUsed: U64, totalBytes: U64, g: U64, b: U64)
    requires i < |pending| && Accumulated(pending, baseFee, i, gas, bytes, txs, totalGasUsed, totalBytes)
    requires pending[i].fee.MaxFeePerGas() >= baseFee
    requires g == WrapU64(GasLimitSum(txs + [pending[i]])) && b == WrapU64(SizeSum(txs + [pending[i]]))
    requires g <= gas && b <= bytes
    ensures Accumulated(pending, baseFee, i + 1, gas, bytes, txs + [pending[i]], g, b)
  {
    EligibleNext(pending, baseFee, i);
    AllLookFittingNext(txs, pending[i], gas, bytes);
  }

  // Where the loop stops, its list is what the loop's test takes from the eligible transactions.
  lemma StoppedTakes(pending: seq<Tx>, baseFee: U256, i: nat, gas: U64, bytes: U64, txs: seq<Tx>, g: U64, b: U64)
    requires i <= |pending| && Accumulated(pending, baseFee, i, gas, bytes, txs, g, b)
    requires i < |pending| ==>
      pending[i].fee.MaxFeePerGas() >= baseFee && !LooksFitting(txs + [pending[i]], gas, bytes)
    ensures IsPreBuilt(PreBuiltTxList(txs, g, b), Eligible(pending, baseFee), gas, bytes)
  {
    var f, k := Eligible(pending, baseFee), |txs|;
    EligiblePrefix(pending, baseFee, i);
    assert f[..k] == txs;
    if i < |pending| {
      EligibleNext(pending, baseFee, i);
      EligiblePrefix(pending, baseFee, i + 1);
      assert f[..k + 1] == txs + [pending[i]];
    } else {
      assert pending[..i] == pending;
    }
  }

  method TxPoolContent(
    pending: seq<Tx>, baseFee: U256, blockMaxGasLimit: U64, maxBytesPerTxList: U64, maxTransactionsLists: U64)
    returns (result: seq<PreBuiltTxList>)
    ensures |result| == if maxTransactionsLists > 0 then 1 else 0
    ensures forall l :: l in result ==>
      IsPreBuilt(l, Eligible(pending, baseFee), blockMaxGasLimit, maxBytesPerTxList)
  {
    var transactions: seq<Tx>, totalGasUsed: U64, totalBytes: U64 := [], 0, 0;
    var i := 0;
    while i < |pending|
      invariant i <= |pending|
      invariant Accumulated(pending, baseFee, i, blockMaxGasLimit, maxBytesPerTxList, transactions, totalGasUsed, totalBytes)
    {
      var tx := pending[i];
      if tx.fee.MaxFeePerGas() < baseFee {
        AccumulateSkip(pending, baseFee, i, blockMaxGasLimit, maxBytesPerTxList, transactions, totalGasUsed, totalBytes);
        i := i + 1;
        continue;
      }
      SumsNext(transactions, tx, totalGasUsed, totalBytes);
      var nextGas, nextBytes := WrapU64(totalGasUsed as int + tx.gasLimit), WrapU64(totalBytes as int + tx.size);
      if nextGas > blockMaxGasLimit {
        break;
      }
      if nextBytes > maxBytesPerTxList {
        break;
      }
      AccumulateTake(pending, baseFee, i, blockMaxGasLimit, maxBytesPerTxList,
                     transactions, totalGasUsed, totalBytes, nextGas, nextBytes);
      transactions := transactions + [tx];
      totalGasUsed, totalBytes := nextGas, nextBytes;
      i := i + 1;
    }
    StoppedTakes(pending, baseFee, i, blockMaxGasLimit, maxBytesPerTxList, transactions, totalGasUsed, totalBytes);
    var list := PreBuiltTxList(transactions, totalGasUsed, totalBytes);
    result := if maxTransactionsLists > 0 then [list] else [];
  }

  /** The first transaction that does not fit is also seen not to fit. */
  ghost predicate OverflowSeen(f: seq<Tx>, gas: U64, bytes: U64) {
    var k := LongestFit(f, gas, bytes);
    k == |f| || !LooksFitting(f[..k + 1], gas, bytes)
  }

  // A prefix that fits passes the loop's test.
  lemma FitsLooksFitting(txs: seq<Tx>, gas: U64, bytes: U64)
    requires Fits(txs, gas, bytes)
    ensures LooksFitting(txs, gas, bytes)
    ensures WrapU64(GasLimitSum(txs)) == GasLimitSum(txs) && WrapU64(SizeSum(txs)) == SizeSum(txs)
  {
  }

  lemma FitsUpToLongest(f: seq<Tx>, gas: U64, bytes: U64)
    ensures forall j :: 0 <= j <= |f| ==>
      (GasLimitSum(f[..j]) <= gas && SizeSum(f[..j]) <= bytes <==> j <= LongestFit(f, gas, bytes))
  {
    forall j | 0 <= j <= |f|
      ensures GasLimitSum(f[..j]) <= gas && SizeSum(f[..j]) <= bytes <==> j <= LongestFit(f, gas, bytes)
    {
      LongestFitIsLongest(f, gas, bytes, j);
    }
  }

  // The loop never stops before the longest fit, and stops there when it sees the overflow.
  lemma TakesLongest(f: seq<Tx>, gas: U64, bytes: U64, k: nat)
    requires Takes(f, gas, bytes, k)
    ensures k >= LongestFit(f, gas, bytes)
    ensures k == LongestFit(f, gas, bytes) <==> OverflowSeen(f, gas, bytes)
  {
    var best := LongestFit(f, gas, bytes);
    LongestFitIsLongest(f, gas, bytes, best);
    FitsLooksFitting(f[..best], gas, bytes);
    if best < k {
      assert f[..k][..best + 1] == f[..best + 1];
    }
    if k < best {
      LongestFitIsLongest(f, gas, bytes, k + 1);
      FitsLooksFitting(f[..k + 1], gas, bytes);
      assert false;
    }
  }

  /** The loop returns the longest fitting prefix with its exact sums, if and only if the first
      transaction that exceeds a budget does not wrap a 64-bit sum back below both budgets. */
  lemma SelectionExact(l: PreBuiltTxList, f: seq<Tx>, gas: U64, bytes: U64)
    requires IsPreBuilt(l, f, gas, bytes)
    ensures |l.txList| >= LongestFit(f, gas, bytes)
    ensures |l.txList| == LongestFit(f, gas, bytes) <==> OverflowSeen(f, gas, bytes)
    ensures OverflowSeen(f, gas, bytes) ==>
      forall j :: 0 <= j <= |f| ==>
        (GasLimitSum(f[..j]) <= gas && SizeSum(f[..j]) <= bytes <==> j <= |l.txList|)
    ensures OverflowSeen(f, gas, bytes) ==>
      && l.txList == f[..LongestFit(f, gas, bytes)]
      && l.estimatedGasUsed == GasLimitSum(l.txList) <= gas
      && l.bytesLength == SizeSum(l.txList) <= bytes
  {
    var best := LongestFit(f, gas, bytes);
    TakesLongest(f, gas, bytes, |l.txList|);
    LongestFitIsLongest(f, gas, bytes, best);
    FitsLooksFitting(f[..best], gas, bytes);
    FitsUpToLongest(f, gas, bytes);
  }

  /** Raising either budget only extends the list that is returned, whether or not a sum wraps. */
  lemma BudgetsMonotone(
    l: PreBuiltTxList, f: seq<Tx>, gas: U64, bytes: U64, l': PreBuiltTxList, gas': U64, bytes': U64)
    requires IsPreBuilt(l, f, gas, bytes) && IsPreBuilt(l', f, gas', bytes')
    requires gas <= gas' && bytes <= bytes'
    ensures l.txList <= l'.txList
  {
    var k, k' := |l.txList|, |l'.txList|;
    if k' < k {
      TakenLookFitting(f, gas, bytes, k, k', gas', bytes');
    }
    assert f[..k'][..k] == f[..k];
  }

  // What was taken under a budget passes the test under a larger one.
  lemma TakenLookFitting(f: seq<Tx>, gas: U64, bytes: U64, k: nat, j: nat, gas': U64, bytes': U64)
    requires Takes(f, gas, bytes, k) && j < k && gas <= gas' && bytes <= bytes'
    ensures LooksFitting(f[..j + 1], gas', bytes')
  {
    assert f[..k][..j + 1] == f[..j + 1];
  }

  /** Gas limits and sizes that cannot overflow on top of a full budget are enough, for instance gas
      limits and a gas budget that a header may have. */
  lemma NoOverflowSuffices(f: seq<Tx>, gas: U64, bytes: U64)
    requires forall tx :: tx in f ==> gas + tx.gasLimit < TWO_64 && bytes + tx.size < TWO_64
    ensures OverflowSeen(f, gas, bytes)
  {
    var k := LongestFit(f, gas, bytes);
    if k < |f| {
      LongestFitIsLongest(f, gas, bytes, k);
      LongestFitIsLongest(f, gas, bytes, k + 1);
      assert f[k] in f;
      assert f[..k + 1][..k] == f[..k];
    }
  }

  /** The condition matters: three transactions of distinct senders, each with a gas limit that a
      header may have, wrap the sum, and all three are returned under the largest budget. */
  lemma OverflowUnseen(pending: seq<Tx>, l: PreBuiltTxList)
    requires pending == [Sized(1), Sized(2), Sized(3)]
    requires IsPreBuilt(l, Eligible(pending, KASPLEX_BASE_FEE), TWO_64 - 1, 1000)
    ensures l.txList == pending
    ensures GasLimitSum(l.txList) == 3 * HALF > TWO_64 - 1 && l.estimatedGasUsed == HALF - 2
    ensures !OverflowSeen(Eligible(pending, KASPLEX_BASE_FEE), TWO_64 - 1, 1000)
  {
    ThreeSums(pending);
    var f, k := Eligible(pending, KASPLEX_BASE_FEE), |l.txList|;
    assert f[..3] == f;
    assert k != 0 && k != 1 && k != 2;
    SelectionExact(l, f, TWO_64 - 1, 1000);
    LongestFitIsLongest(f, TWO_64 - 1, 1000, 3);
  }

  const HALF: U64 := 0x7fff_ffff_ffff_ffff

  function Sized(id: nat): Tx
    requires id < 10
  {
    Tx(id, id, 0, true, HALF, 0, Legacy(KASPLEX_BASE_FEE), 110)
  }

  lemma ThreeSums(pending: seq<Tx>)
    requires pending == [Sized(1), Sized(2), Sized(3)]
    ensures Eligible(pending, KASPLEX_BASE_FEE) == pending
    ensures GasLimitSum(pending) == 3 * HALF && SizeSum(pending) == 330
    ensures GasLimitSum(pending[..2]) == 2 * HALF && SizeSum(pending[..2]) == 220
    ensures GasLimitSum(pending[..1]) == HALF && SizeSum(pending[..1]) == 110
  {
    OneMore([], Sized(1));
    OneMore([Sized(1)], Sized(2));
    OneMore([Sized(1), Sized(2)], Sized(3));
    assert pending[..1] == [] + [Sized(1)] == [Sized(1)];
    assert pending[..2] == [Sized(1)] + [Sized(2)] == [Sized(1), Sized(2)];
    assert pending == [Sized(1), Sized(2)] + [Sized(3)];
  }

  lemma OneMore(txs: seq<Tx>, tx: Tx)
    ensures GasLimitSum(txs + [tx]) == GasLimitSum(txs) + tx.gasLimit
    ensures SizeSum(txs + [tx]) == SizeSum(txs) + tx.size
    ensures tx.fee.MaxFeePerGas() >= KASPLEX_BASE_FEE ==>
            Eligible(txs + [tx], KASPLEX_BASE_FEE) == Eligible(txs, KASPLEX_BASE_FEE) + [tx]
  {
    assert (txs + [tx])[..|txs|] == txs;
  }

  // ---------------------------------------------------------------- listing by tip

  /** The tip as the RPC computes it. */
  function RpcTip(fee: Fee, baseFee: U64): U128 {
    if fee.MaxFeePerGas() > baseFee then
      var feeCapTip := fee.MaxFeePerGas() - baseFee;
      match fee.MaxPriorityFeePerGas()
      case Some(p) => Min(p, feeCapTip)
      case None => feeCapTip
    else
      0
  }

  type Content = map<(Address, U64), Tx>

  function Key(tx: Tx): (Address, U64) {
    (tx.caller, tx.nonce)
  }

  predicate EnoughTip(tx: Tx, minTip: U256) {
    RpcTip(tx.fee, KASPLEX_BASE_FEE) >= minTip
  }

  /** Entry `i` is the last one with its key and enough tip. */
  ghost predicate LastForKey(txs: seq<Tx>, minTip: U256, i: nat)
    requires i < |txs|
  {
    && EnoughTip(txs[i], minTip)
    && forall j :: i < j < |txs| && EnoughTip(txs[j], minTip) ==> Key(txs[j]) != Key(txs[i])
  }

  /** A sender and nonce are listed if and only if a transaction of theirs has enough tip, and what is
      listed for them is the last such transaction. */
  ghost predicate Listing(txs: seq<Tx>, minTip: U256, content: Content) {
    && (forall key :: key in content <==> exists tx :: tx in txs && key == Key(tx) && EnoughTip(tx, minTip))
    && (forall i :: 0 <= i < |txs| && LastForKey(txs, minTip, i) ==>
          Key(txs[i]) in content && content[Key(txs[i])] == txs[i])
  }

  /** One sub-pool's listing. */
  method InsertWithMinTip(txs: seq<Tx>, minTip: U256) returns (content: Content)
    ensures Listing(txs, minTip, content)
  {
    content := map[];
    for i := 0 to |txs|
      invariant Listing(txs[..i], minTip, content)
    {
      ListingNext(txs, minTip, i, content);
      if EnoughTip(txs[i], minTip) {
        content := content[Key(txs[i]) := txs[i]];
      }
    }
    assert txs[..|txs|] == txs;
  }

  lemma ListingNext(txs: seq<Tx>, minTip: U256, i: nat, content: Content)
    requires i < |txs| && Listing(txs[..i], minTip, content)
    ensures Listing(txs[..i + 1], minTip, if EnoughTip(txs[i], minTip) then content[Key(txs[i]) := txs[i]] else content)
  {
    var next := if EnoughTip(txs[i], minTip) then content[Key(txs[i]) := txs[i]] else content;
    var more := txs[..i + 1];
    assert more == txs[..i] + [txs[i]];
    forall k | 0 <= k < |more| && LastForKey(more, minTip, k)
      ensures Key(more[k]) in next && next[Key(more[k])] == more[k]
    {
      if k < i {
        LastForKeyEarlier(txs, minTip, i, k);
        assert txs[..i][k] == txs[k];
      }
    }
    KeysNext(txs[..i], txs[i], minTip, content, next);
  }

  lemma KeysNext(txs: seq<Tx>, tx: Tx, minTip: U256, content: Content, next: Content)
    requires forall key :: key in content <==> exists t :: t in txs && key == Key(t) && EnoughTip(t, minTip)
    requires next == if EnoughTip(tx, minTip) then content[Key(tx) := tx] else content
    ensures forall key :: key in next <==> exists t :: t in txs + [tx] && key == Key(t) && EnoughTip(t, minTip)
  {
    forall key
      ensures key in next <==> exists t :: t in txs + [tx] && key == Key(t) && EnoughTip(t, minTip)
    {
      assert forall t :: t in txs + [tx] <==> t in txs || t == tx;
    }
  }

  // An entry that is still the last for its key was so one entry earlier, and has another key than
  // the new entry if that has enough tip.
  lemma LastForKeyEarlier(txs: seq<Tx>, minTip: U256, i: nat, k: nat)
    requires k < i < |txs| && LastForKey(txs[..i + 1], minTip, k)
    ensures LastForKey(txs[..i], minTip, k)
    ensures EnoughTip(txs[i], minTip) ==> Key(txs[i]) != Key(txs[k])
  {
    assert txs[..i + 1][k] == txs[k] == txs[..i][k];
    assert txs[..i + 1][i] == txs[i];
    forall j | k < j < i && EnoughTip(txs[..i][j], minTip)
      ensures Key(txs[..i][j]) != Key(txs[..i][k])
    {
      assert txs[..i + 1][j] == txs[..i][j];
    }
  }

  /** A transaction that the engine executes at the fixed base fee has enough tip for the listing if
      and only if the beneficiary's credit is at least that tip for each unit of gas used. */
  lemma ListedIffCredited(env: Env, evm: Evm, w: World, tx: Tx, x: Executed, minTip: U256)
    requires Lawful(evm) && Transact(env, evm, w, tx) == Ok(x)
    requires env.basefee == KASPLEX_BASE_FEE && x.gas.Used() > 0
    ensures EnoughTip(tx, minTip) <==> TipAmount(env, tx, x.gas) >= minTip * x.gas.Used()
  {
    TransactStages(env, evm, w, tx, x);
    MachineArithmeticIsExact(env, w, tx, x.gas);
    AcceptedPriceCoversBaseFee(env, evm, w, tx);
    ThreeTipsAgree(tx.fee, KASPLEX_BASE_FEE);
    CompareByUnit(RpcTip(tx.fee, KASPLEX_BASE_FEE), minTip, x.gas.Used());
  }

  lemma CompareByUnit(a: nat, b: nat, n: nat)
    requires n > 0
    ensures a >= b <==> a * n >= b * n
  {
    if a >= b {
      ProductLe(b, n, a, n);
    } else {
      ProductLe(a + 1, n, b, n);
      assert (a + 1) * n == a * n + n;
    }
  }

  /** For a transaction the base fee check admits, the RPC's tip is the builder's and the one the
      engine credits; below the base fee the RPC says zero where the others have no tip at all. */
  lemma ThreeTipsAgree(fee: Fee, baseFee: U64)
    ensures fee.MaxFeePerGas() >= baseFee ==>
      RpcTip(fee, baseFee) == CoinbaseGasPrice(fee, baseFee) && EffectiveTipPerGas(fee, baseFee) == Some(RpcTip(fee, baseFee))
    ensures fee.MaxFeePerGas() < baseFee ==> RpcTip(fee, baseFee) == 0 && EffectiveTipPerGas(fee, baseFee) == None
    ensures forall tx: Tx, minTip: U256 {:trigger EnoughTip(tx, minTip)} ::
      tx.fee == fee && fee.MaxFeePerGas() < KASPLEX_BASE_FEE ==> (EnoughTip(tx, minTip) <==> minTip == 0)
  {
    if fee.MaxFeePerGas() >= baseFee {
      TipFormulasAgree(fee, baseFee);
    }
  }
}
