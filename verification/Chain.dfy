/** Results that span components: the treasury's balance over an accepted chain, and the gas of a block
    built from a listed selection. */
module Chain {
  import opened Machine
  import opened Balances
  import opened Transactions
  import opened Handler
  import opened Executor
  import opened Inclusion
  import opened Blocks
  import opened Consensus
  import opened Selection
  import opened Treasury

  // ---------------------------------------------------------------- treasury income

  datatype Imported = Imported(header: Header, env: Env, start: World, steps: seq<Step>) {
    ghost function Final(): Ledger {
      End(start, steps).balances
    }
  }

  /** Import executes the block in the header's environment, and post-execution validation compares
      the gas. */
  ghost predicate WellImported(evm: Evm, chainId: U64, b: Imported) {
    && b.header.baseFeePerGas.Some?
    && b.env == ForChain(chainId, b.header.beneficiary, b.header.baseFeePerGas.value, b.header.gasLimit)
    && IsTrace(b.env, evm, b.start, b.steps)
    && b.header.gasUsed == WrapU64(GasTotal(b.steps))
  }

  /** A chain that consensus accepts link by link; no balance moves between two blocks. */
  ghost predicate ImportedChain(c: Codec, evm: Evm, chainId: U64, bs: seq<Imported>) {
    && AcceptedChain(c, HeadersOf(bs))
    && (forall i :: 0 <= i < |bs| ==> WellImported(evm, chainId, bs[i]))
    && (forall i :: 0 < i < |bs| ==> bs[i].start.balances == bs[i - 1].Final())
  }

  ghost function HeadersOf(bs: seq<Imported>): (hs: seq<Header>)
    ensures |hs| == |bs| && forall i :: 0 <= i < |bs| ==> hs[i] == bs[i].header
  {
    seq(|bs|, i requires 0 <= i < |bs| => bs[i].header)
  }

  /** Base fees credited to the treasury after the chain's first block. */
  ghost function TreasuryIncome(bs: seq<Imported>): nat {
    if |bs| <= 1 then 0
    else TreasuryIncome(bs[..|bs| - 1]) + BaseFeeCredits(bs[|bs| - 1].env, bs[|bs| - 1].steps)
  }

  ghost function GasAfterFirst(bs: seq<Imported>): nat {
    if |bs| <= 1 then 0 else GasAfterFirst(bs[..|bs| - 1]) + GasTotal(bs[|bs| - 1].steps)
  }

  ghost function HeaderGasAfterFirst(bs: seq<Imported>): nat {
    if |bs| <= 1 then 0 else HeaderGasAfterFirst(bs[..|bs| - 1]) + bs[|bs| - 1].header.gasUsed
  }

  // The base fees of one block at the fixed price.
  lemma BlockTreasuryIncome(evm: Evm, chainId: U64, b: Imported)
    requires Lawful(evm) && WellImported(evm, chainId, b)
    requires b.header.baseFeePerGas == Some(KASPLEX_BASE_FEE)
    ensures BaseFeeCredits(b.env, b.steps) == KASPLEX_BASE_FEE * GasTotal(b.steps)
  {
    LedgerAgreement(b.env, evm, b.start, b.steps);
  }

  lemma {:induction false} SumTreasuryIncome(bs: seq<Imported>)
    requires forall i :: 0 < i < |bs| ==>
      BaseFeeCredits(bs[i].env, bs[i].steps) == KASPLEX_BASE_FEE * GasTotal(bs[i].steps)
    ensures TreasuryIncome(bs) == KASPLEX_BASE_FEE * GasAfterFirst(bs)
    ensures (forall i :: 0 < i < |bs| ==> bs[i].header.gasUsed == GasTotal(bs[i].steps)) ==>
            GasAfterFirst(bs) == HeaderGasAfterFirst(bs)
  {
    if |bs| > 1 {
      SumTreasuryIncome(bs[..|bs| - 1]);
    }
  }

  /** The base fees credited to the treasury after the first block are 2000 GWei times the gas used,
      and times the headers' gas as long as no single block overflows the 64-bit gas counter. */
  lemma ChainTreasuryIncome(c: Codec, evm: Evm, chainId: U64, bs: seq<Imported>)
    requires Lawful(evm) && ImportedChain(c, evm, chainId, bs)
    ensures TreasuryIncome(bs) == KASPLEX_BASE_FEE * GasAfterFirst(bs)
    ensures (forall i :: 0 <= i < |bs| ==> GasTotal(bs[i].steps) < TWO_64) ==>
            TreasuryIncome(bs) == KASPLEX_BASE_FEE * HeaderGasAfterFirst(bs)
  {
    forall i | 0 < i < |bs|
      ensures BaseFeeCredits(bs[i].env, bs[i].steps) == KASPLEX_BASE_FEE * GasTotal(bs[i].steps)
      ensures GasTotal(bs[i].steps) < TWO_64 ==> bs[i].header.gasUsed == GasTotal(bs[i].steps)
    {
      ChainShape(c, HeadersOf(bs), i - 1, i);
      assert WellImported(evm, chainId, bs[i]);
      BlockTreasuryIncome(evm, chainId, bs[i]);
    }
    SumTreasuryIncome(bs);
  }

  // ---------------------------------------------------------------- the treasury's balance

  ghost function ShortfallsAfterFirst(bs: seq<Imported>): nat {
    if |bs| <= 1 then 0
    else ShortfallsAfterFirst(bs[..|bs| - 1]) + Shortfalls(bs[|bs| - 1].env, bs[|bs| - 1].steps)
  }

  /** What execution itself, with the up-front charge, moved into account `a` over a block. */
  ghost function ExecutionMoves(steps: seq<Step>, a: Address): int {
    if steps == [] then 0
    else
      var last := steps[|steps| - 1];
      ExecutionMoves(steps[..|steps| - 1], a) + Get(last.x.after.balances, a) - Get(last.pre.balances, a)
  }

  /** What an account gains in a block otherwise than as the treasury. */
  ghost function OtherIncome(b: Imported, a: Address): int {
    ExecutionMoves(b.steps, a) + RefundsTo(b.env, b.steps, a)
    + (if a == b.env.beneficiary then BuilderFees(b.env.basefee, b.steps) else 0)
  }

  ghost function OtherIncomeAfterFirst(bs: seq<Imported>, a: Address): int {
    if |bs| <= 1 then 0 else OtherIncomeAfterFirst(bs[..|bs| - 1], a) + OtherIncome(bs[|bs| - 1], a)
  }

  // A balance moves over a block by what execution moves and what the hooks move.
  lemma {:induction false} BalanceMoves(env: Env, evm: Evm, w: World, steps: seq<Step>, a: Address)
    requires IsTrace(env, evm, w, steps)
    ensures Get(End(w, steps).balances, a) == Get(w.balances, a) + ExecutionMoves(steps, a) + HookIncome(steps, a)
  {
    if steps != [] {
      BalanceMoves(env, evm, w, steps[..|steps| - 1], a);
    }
  }

  lemma BlockBalance(evm: Evm, chainId: U64, b: Imported)
    requires Lawful(evm) && WellImported(evm, chainId, b)
    requires Supply(b.start.balances) + Shortfalls(b.env, b.steps) < TWO_256
    ensures var treasury := TreasuryAddress(chainId);
      Get(b.Final(), treasury) == Get(b.start.balances, treasury) + BaseFeeCredits(b.env, b.steps) + OtherIncome(b, treasury)
    ensures Supply(b.Final()) == Supply(b.start.balances) + Shortfalls(b.env, b.steps)
  {
    BalanceMoves(b.env, evm, b.start, b.steps, TreasuryAddress(chainId));
    BlockIncome(b.env, evm, b.start, b.steps, TreasuryAddress(chainId));
    LedgerAgreement(b.env, evm, b.start, b.steps);
    BlockSupplyGrows(b.env, evm, b.start, b.steps);
  }

  // Dropping the last block of a chain leaves a chain.
  lemma ChainFront(c: Codec, evm: Evm, chainId: U64, bs: seq<Imported>)
    requires ImportedChain(c, evm, chainId, bs) && bs != []
    ensures ImportedChain(c, evm, chainId, bs[..|bs| - 1])
  {
    assert HeadersOf(bs[..|bs| - 1]) == HeadersOf(bs)[..|bs| - 1];
  }

  lemma {:induction false} ChainBalance(c: Codec, evm: Evm, chainId: U64, bs: seq<Imported>)
    requires Lawful(evm) && ImportedChain(c, evm, chainId, bs) && bs != []
    requires Supply(bs[0].Final()) + ShortfallsAfterFirst(bs) < TWO_256
    ensures var treasury, last := TreasuryAddress(chainId), bs[|bs| - 1];
      Get(last.Final(), treasury) == Get(bs[0].Final(), treasury) + TreasuryIncome(bs) + OtherIncomeAfterFirst(bs, treasury)
    ensures Supply(bs[|bs| - 1].Final()) == Supply(bs[0].Final()) + ShortfallsAfterFirst(bs)
  {
    if |bs| > 1 {
      ChainFront(c, evm, chainId, bs);
      ChainBalance(c, evm, chainId, bs[..|bs| - 1]);
      BlockBalance(evm, chainId, bs[|bs| - 1]);
    }
  }

  /** The balance of the chain's one treasury account: since the first block it has grown by
      2000 GWei for every gas used, and by whatever else reached or left the account, as its
      transactions, its refunds and the fees of blocks it is the beneficiary of.  Over the same
      blocks the total supply has grown by the callers' shortfalls. */
  lemma ChainTreasuryBalance(c: Codec, evm: Evm, chainId: U64, bs: seq<Imported>)
    requires Lawful(evm) && ImportedChain(c, evm, chainId, bs) && bs != []
    requires Supply(bs[0].Final()) + ShortfallsAfterFirst(bs) < TWO_256
    ensures var treasury, last := TreasuryAddress(chainId), bs[|bs| - 1];
      Get(last.Final(), treasury) ==
      Get(bs[0].Final(), treasury) + KASPLEX_BASE_FEE * GasAfterFirst(bs) + OtherIncomeAfterFirst(bs, treasury)
    ensures Supply(bs[|bs| - 1].Final()) == Supply(bs[0].Final()) + ShortfallsAfterFirst(bs)
  {
    ChainBalance(c, evm, chainId, bs);
    ChainTreasuryIncome(c, evm, chainId, bs);
  }

  /** Execution never takes from account `a` as long as another account sends the transaction, as
      is the case for an address without a key and without code. */
  ghost predicate NeverTakesFrom(evm: Evm, a: Address) {
    forall env, tx, w {:trigger Get(evm(env, tx, w).world.balances, a)} ::
      evm(env, tx, w).Ran? && tx.caller != a ==> Get(evm(env, tx, w).world.balances, a) >= Get(w.balances, a)
  }

  lemma StepKeeps(env: Env, evm: Evm, s: Step, a: Address)
    requires NeverTakesFrom(evm, a) && Accepted(env, evm, s) && s.tx.caller != a
    ensures Get(s.x.after.balances, a) >= Get(s.pre.balances, a)
  {
    var charged := DeductCaller(env, s.pre, s.tx).value;
    assert Get(evm(env, s.tx, charged).world.balances, a) >= Get(charged.balances, a);
  }

  lemma {:induction false} OtherIncomeGrows(env: Env, evm: Evm, w: World, steps: seq<Step>, a: Address)
    requires NeverTakesFrom(evm, a) && IsTrace(env, evm, w, steps)
    requires forall i :: 0 <= i < |steps| ==> steps[i].tx.caller != a
    ensures ExecutionMoves(steps, a) >= 0 && RefundsTo(env, steps, a) == 0
  {
    if steps != [] {
      OtherIncomeGrows(env, evm, w, steps[..|steps| - 1], a);
      StepKeeps(env, evm, steps[|steps| - 1], a);
    }
  }

  lemma {:induction false} OtherIncomeSum(c: Codec, evm: Evm, chainId: U64, bs: seq<Imported>, a: Address)
    requires ImportedChain(c, evm, chainId, bs) && NeverTakesFrom(evm, a)
    requires forall i, j :: 0 <= i < |bs| && 0 <= j < |bs[i].steps| ==> bs[i].steps[j].tx.caller != a
    ensures OtherIncomeAfterFirst(bs, a) >= 0
  {
    if |bs| > 1 {
      var last := bs[|bs| - 1];
      ChainFront(c, evm, chainId, bs);
      OtherIncomeSum(c, evm, chainId, bs[..|bs| - 1], a);
      OtherIncomeGrows(last.env, evm, last.start, last.steps, a);
    }
  }

  /** A treasury that sends no transaction and that execution does not take from holds at least
      2000 GWei for every gas used since the first block. */
  lemma TreasuryOnlyGrows(c: Codec, evm: Evm, chainId: U64, bs: seq<Imported>)
    requires Lawful(evm) && ImportedChain(c, evm, chainId, bs) && bs != []
    requires Supply(bs[0].Final()) + ShortfallsAfterFirst(bs) < TWO_256
    requires NeverTakesFrom(evm, TreasuryAddress(chainId))
    requires forall i, j :: 0 <= i < |bs| && 0 <= j < |bs[i].steps| ==>
      bs[i].steps[j].tx.caller != TreasuryAddress(chainId)
    ensures Get(bs[|bs| - 1].Final(), TreasuryAddress(chainId)) >=
            Get(bs[0].Final(), TreasuryAddress(chainId)) + KASPLEX_BASE_FEE * GasAfterFirst(bs)
  {
    ChainTreasuryBalance(c, evm, chainId, bs);
    OtherIncomeSum(c, evm, chainId, bs, TreasuryAddress(chainId));
  }

  // ---------------------------------------------------------------- gas of a listed block

  /** The builder's candidates: the transactions of the decoded list whose signer is recovered; an
      undecodable list is an empty one. */
  ghost function Candidates(decoded: Option<seq<Tx>>, signed: Tx -> bool): seq<Tx> {
    match decoded
    case None => []
    case Some(txs) => Signed(txs, signed)
  }

  ghost function Signed(txs: seq<Tx>, signed: Tx -> bool): seq<Tx> {
    if txs == [] then []
    else Signed(txs[..|txs| - 1], signed) + (if signed(txs[|txs| - 1]) then [txs[|txs| - 1]] else [])
  }

  /** Each transaction is judged by its own signer, and the order is the list's. */
  lemma {:induction false} SignedConcat(a: seq<Tx>, b: seq<Tx>, signed: Tx -> bool)
    ensures Signed(a + b, signed) == Signed(a, signed) + Signed(b, signed)
    ensures forall tx {:trigger Signed([tx], signed)} :: Signed([tx], signed) == if signed(tx) then [tx] else []
  {
    if b == [] {
      assert a + b == a;
    } else {
      var n := |b| - 1;
      SignedConcat(a, b[..n], signed);
      assert (a + b)[..|a + b| - 1] == a + b[..n];
    }
  }

  lemma {:induction false} SignedGas(txs: seq<Tx>, signed: Tx -> bool)
    ensures GasLimitSum(Signed(txs, signed)) <= GasLimitSum(txs)
  {
    if txs != [] {
      var front, last := txs[..|txs| - 1], txs[|txs| - 1];
      SignedGas(front, signed);
      if signed(last) {
        assert (Signed(front, signed) + [last])[..|Signed(front, signed)|] == Signed(front, signed);
      } else {
        assert Signed(txs, signed) == Signed(front, signed);
      }
    }
  }

  // The reported estimate passed the loop's test.
  lemma EstimateWithinBudget(l: PreBuiltTxList, f: seq<Tx>, gas: U64, bytes: U64)
    requires IsPreBuilt(l, f, gas, bytes)
    ensures l.estimatedGasUsed <= gas
  {
    if l.txList != [] {
      assert l.txList[..|l.txList|] == l.txList == f[..|l.txList|];
      assert LooksFitting(l.txList[..|l.txList|], gas, bytes);
    }
  }

  /** A block built from a returned list, after undecodable, unsigned and invalid transactions have
      dropped out, uses at most the estimated gas and so at most the requested budget, although
      the executor never looks at the block's remaining gas.  All that is asked of the list is that
      its gas limits add up below 2^64; the executor's own 64-bit counter is then exact too. */
  lemma ListedBlockGasBound(
    pending: seq<Tx>, baseFee: U256, gas: U64, bytes: U64, l: PreBuiltTxList,
    decoded: Option<seq<Tx>>, signed: Tx -> bool, env: Env, evm: Evm, w: World)
    requires IsPreBuilt(l, Eligible(pending, baseFee), gas, bytes)
    requires GasLimitSum(l.txList) < TWO_64
    requires decoded == Some(l.txList) || decoded == None
    requires Lawful(evm) && Greedy(env, evm, w, Candidates(decoded, signed)).Some?
    ensures var steps := Greedy(env, evm, w, Candidates(decoded, signed)).value;
      GasTotal(steps) <= l.estimatedGasUsed <= gas && WrapU64(GasTotal(steps)) == GasTotal(steps)
  {
    EstimateWithinBudget(l, Eligible(pending, baseFee), gas, bytes);
    GreedyGasBound(env, evm, w, Candidates(decoded, signed));
    if decoded.Some? {
      SignedGas(l.txList, signed);
    }
  }
}
