/** What the payload builder includes of a candidate list: the greedy execution, the declarative
    meaning of it, and what nonces make of it. */
module Inclusion {
  import opened Machine
  import opened Balances
  import opened Transactions
  import opened Handler
  import opened Executor

  /** Executing a candidate list as the payload builder does: a transaction that fails to
      validate is skipped, a fatal failure ends the attempt. */
  ghost function Greedy(env: Env, evm: Evm, w: World, txs: seq<Tx>): Option<seq<Step>> {
    GreedyBy(Attempt(env, evm), w, txs)
  }

  ghost function GreedyBy(exec: Attempts, w: World, txs: seq<Tx>): Option<seq<Step>> {
    if txs == [] then Some([])
    else
      match GreedyBy(exec, w, txs[..|txs| - 1])
      case None => None
      case Some(steps) =>
        match exec(End(w, steps), txs[|txs| - 1])
        case Ok(s) => Some(steps + [s])
        case Err(InvalidTx(_)) => Some(steps)
        case Err(Fatal) => None
  }

  lemma {:induction false} GreedyFollows(exec: Attempts, w: World, txs: seq<Tx>)
    requires Labelled(exec) && GreedyBy(exec, w, txs).Some?
    ensures Follows(exec, w, GreedyBy(exec, w, txs).value)
    ensures |GreedyBy(exec, w, txs).value| <= |txs|
  {
    if txs != [] {
      var n := |txs| - 1;
      var front := GreedyBy(exec, w, txs[..n]).value;
      GreedyFollows(exec, w, txs[..n]);
      var all := GreedyBy(exec, w, txs).value;
      if all != front {
        assert all[..|all| - 1] == front;
      }
    }
  }

  lemma GreedyIsTrace(env: Env, evm: Evm, w: World, txs: seq<Tx>)
    requires Greedy(env, evm, w, txs).Some?
    ensures IsTrace(env, evm, w, Greedy(env, evm, w, txs).value)
    ensures |Greedy(env, evm, w, txs).value| <= |txs|
  {
    GreedyFollows(Attempt(env, evm), w, txs);
  }

  /** The builder's block is importable: executing only the included transactions, with no
      skipping allowed, goes through the same states, gas and receipts. */
  lemma BuiltBlockReplays(env: Env, evm: Evm, w: World, txs: seq<Tx>)
    requires Greedy(env, evm, w, txs).Some?
    ensures Replay(env, evm, w, Txs(Greedy(env, evm, w, txs).value)) == Greedy(env, evm, w, txs)
  {
    GreedyIsTrace(env, evm, w, txs);
    TraceIsReplay(env, evm, w, Greedy(env, evm, w, txs).value);
  }

  // ---------------------------------------------------------------- what the builder includes

  /** The candidate met the state after the first `k` included transactions: it is the next one
      included if it is accepted there, and it is left out if it is refused there. */
  ghost predicate Decided(exec: Attempts, w: World, tx: Tx, steps: seq<Step>, k: nat, next: nat)
    requires k <= |steps|
  {
    var r := exec(End(w, steps[..k]), tx);
    || (r.Ok? && k < |steps| && next == k + 1 && steps[k] == r.value)
    || (r.Err? && r.error.InvalidTx? && next == k)
  }

  /** `at[i]` of the first `i` candidates are included. */
  ghost predicate Choice(exec: Attempts, w: World, txs: seq<Tx>, steps: seq<Step>, at: seq<nat>) {
    && |at| == |txs| + 1 && at[0] == 0 && at[|txs|] == |steps|
    && forall i :: 0 <= i < |txs| ==> at[i] <= |steps| && Decided(exec, w, txs[i], steps, at[i], at[i + 1])
  }

  /** Every candidate has its turn on the state its included predecessors left, and is included if
      and only if it is accepted there. */
  ghost predicate BestEffort(exec: Attempts, w: World, txs: seq<Tx>, steps: seq<Step>) {
    exists at :: Choice(exec, w, txs, steps, at)
  }

  /** Some candidate fails fatally when its turn comes. */
  ghost predicate FatalWithin(exec: Attempts, w: World, txs: seq<Tx>) {
    exists i, steps ::
      0 <= i < |txs| && BestEffort(exec, w, txs[..i], steps) && exec(End(w, steps), txs[i]) == Err(Fatal)
  }

  lemma {:induction false} GreedyChoice(exec: Attempts, w: World, txs: seq<Tx>) returns (at: seq<nat>)
    requires GreedyBy(exec, w, txs).Some?
    ensures Choice(exec, w, txs, GreedyBy(exec, w, txs).value, at)
  {
    if txs == [] {
      at := [0];
    } else {
      var n, steps := |txs| - 1, GreedyBy(exec, w, txs).value;
      var front := GreedyBy(exec, w, txs[..n]).value;
      var before := GreedyChoice(exec, w, txs[..n]);
      at := before + [|steps|];
      assert steps[..|front|] == front;
      forall i | 0 <= i < |txs|
        ensures at[i] <= |steps| && Decided(exec, w, txs[i], steps, at[i], at[i + 1])
      {
        if i < n {
          assert Decided(exec, w, txs[..n][i], front, before[i], before[i + 1]);
          assert front[..before[i]] == steps[..before[i]];
        }
      }
    }
  }

  lemma {:induction false} ChoiceMonotone(
    exec: Attempts, w: World, txs: seq<Tx>, steps: seq<Step>, at: seq<nat>, i: nat, j: nat)
    requires Choice(exec, w, txs, steps, at) && i <= j <= |txs|
    ensures at[i] <= at[j]
    decreases j - i
  {
    if i < j {
      ChoiceMonotone(exec, w, txs, steps, at, i, j - 1);
      assert Decided(exec, w, txs[j - 1], steps, at[j - 1], at[j]);
    }
  }

  // The choice among all candidates but the last.
  lemma ChoiceFront(exec: Attempts, w: World, txs: seq<Tx>, steps: seq<Step>, at: seq<nat>)
    requires Choice(exec, w, txs, steps, at) && txs != []
    ensures var n := |txs| - 1;
      at[n] <= |steps| && Choice(exec, w, txs[..n], steps[..at[n]], at[..n + 1])
  {
    var n := |txs| - 1;
    var k := at[n];
    forall i | 0 <= i < n
      ensures at[i] <= k && Decided(exec, w, txs[i], steps[..k], at[i], at[i + 1])
    {
      ChoiceMonotone(exec, w, txs, steps, at, i, n);
      ChoiceMonotone(exec, w, txs, steps, at, i + 1, n);
      assert Decided(exec, w, txs[i], steps, at[i], at[i + 1]);
      assert steps[..k][..at[i]] == steps[..at[i]];
    }
  }

  lemma {:induction false} ChoiceIsGreedy(exec: Attempts, w: World, txs: seq<Tx>, steps: seq<Step>, at: seq<nat>)
    requires Choice(exec, w, txs, steps, at)
    ensures GreedyBy(exec, w, txs) == Some(steps)
  {
    if txs == [] {
      assert steps == [];
    } else {
      var n := |txs| - 1;
      ChoiceFront(exec, w, txs, steps, at);
      ChoiceIsGreedy(exec, w, txs[..n], steps[..at[n]], at[..n + 1]);
      var k := at[n];
      assert Decided(exec, w, txs[n], steps, k, |steps|);
      if k < |steps| {
        assert steps == steps[..k] + [steps[k]];
      } else {
        assert steps == steps[..k];
      }
    }
  }

  lemma GreedyIffBestEffort(exec: Attempts, w: World, txs: seq<Tx>, steps: seq<Step>)
    ensures GreedyBy(exec, w, txs) == Some(steps) <==> BestEffort(exec, w, txs, steps)
  {
    if GreedyBy(exec, w, txs) == Some(steps) {
      var at := GreedyChoice(exec, w, txs);
    }
    if BestEffort(exec, w, txs, steps) {
      var at :| Choice(exec, w, txs, steps, at);
      ChoiceIsGreedy(exec, w, txs, steps, at);
    }
  }

  // A fatal candidate ends every longer attempt.
  lemma {:induction false} FatalPrefix(exec: Attempts, w: World, txs: seq<Tx>, i: nat)
    requires i <= |txs| && GreedyBy(exec, w, txs[..i]).None?
    ensures GreedyBy(exec, w, txs).None?
    decreases |txs|
  {
    if i < |txs| {
      assert txs[..|txs| - 1][..i] == txs[..i];
      FatalPrefix(exec, w, txs[..|txs| - 1], i);
    } else {
      assert txs[..i] == txs;
    }
  }

  lemma {:induction false} FirstFatal(exec: Attempts, w: World, txs: seq<Tx>)
    returns (i: nat, steps: seq<Step>)
    requires GreedyBy(exec, w, txs).None?
    ensures i < |txs| && GreedyBy(exec, w, txs[..i]) == Some(steps) && exec(End(w, steps), txs[i]) == Err(Fatal)
  {
    var n := |txs| - 1;
    if GreedyBy(exec, w, txs[..n]).None? {
      i, steps := FirstFatal(exec, w, txs[..n]);
      assert txs[..n][..i] == txs[..i];
    } else {
      i, steps := n, GreedyBy(exec, w, txs[..n]).value;
    }
  }

  lemma GreedyNoneIffFatal(exec: Attempts, w: World, txs: seq<Tx>)
    ensures GreedyBy(exec, w, txs).None? <==> FatalWithin(exec, w, txs)
  {
    if GreedyBy(exec, w, txs).None? {
      var i, steps := FirstFatal(exec, w, txs);
      GreedyIffBestEffort(exec, w, txs[..i], steps);
    }
    if FatalWithin(exec, w, txs) {
      var i, steps :|
        0 <= i < |txs| && BestEffort(exec, w, txs[..i], steps) && exec(End(w, steps), txs[i]) == Err(Fatal);
      GreedyIffBestEffort(exec, w, txs[..i], steps);
      assert txs[..i + 1][..i] == txs[..i];
      FatalPrefix(exec, w, txs, i + 1);
    }
  }

  /** The builder's execution is exactly this best effort, and it gives up exactly when some
      candidate fails fatally in its turn. */
  lemma GreedyExact(env: Env, evm: Evm, w: World, txs: seq<Tx>)
    ensures forall steps :: Greedy(env, evm, w, txs) == Some(steps) <==> BestEffort(Attempt(env, evm), w, txs, steps)
    ensures Greedy(env, evm, w, txs).None? <==> FatalWithin(Attempt(env, evm), w, txs)
  {
    forall steps
      ensures Greedy(env, evm, w, txs) == Some(steps) <==> BestEffort(Attempt(env, evm), w, txs, steps)
    {
      GreedyIffBestEffort(Attempt(env, evm), w, txs, steps);
    }
    GreedyNoneIffFatal(Attempt(env, evm), w, txs);
  }

  /** An engine that never fails fatally, as when the database is always read. */
  ghost predicate NeverAborts(evm: Evm) {
    forall env, tx, w {:trigger evm(env, tx, w)} :: !evm(env, tx, w).Aborted?
  }

  lemma NeverFatal(env: Env, evm: Evm, w: World, txs: seq<Tx>)
    requires NeverAborts(evm)
    ensures !FatalWithin(Attempt(env, evm), w, txs)
  {
    forall v: World, tx: Tx
      ensures Attempt(env, evm)(v, tx) != Err(Fatal)
    {
      TransactExact(env, evm, v, tx);
    }
  }

  /** A built block never uses more gas than the candidates' gas limits allow together. */
  lemma {:induction false} GreedyGasBound(env: Env, evm: Evm, w: World, txs: seq<Tx>)
    requires Lawful(evm) && Greedy(env, evm, w, txs).Some?
    ensures GasTotal(Greedy(env, evm, w, txs).value) <= GasLimitSum(txs)
  {
    if txs != [] {
      var front, tx := txs[..|txs| - 1], txs[|txs| - 1];
      GreedyGasBound(env, evm, w, front);
      var steps := Greedy(env, evm, w, front).value;
      var r := Transact(env, evm, End(w, steps), tx);
      if r.Ok? {
        var x := r.value;
        TransactStages(env, evm, End(w, steps), tx, x);
        GasIsExact(tx, x.gas);
        assert (steps + [StepOf(env, End(w, steps), tx, x)])[..|steps|] == steps;
      }
    }
  }

  // ---------------------------------------------------------------- calls in sequence

  ghost function CallsOf(txs: seq<Tx>, a: Address): nat {
    if txs == [] then 0
    else CallsOf(txs[..|txs| - 1], a) + if txs[|txs| - 1].caller == a then 1 else 0
  }

  /** The nonce of an account after `n` calls: it stops at its maximum. */
  ghost function NonceAfter(w: World, a: Address, n: nat): U64 {
    Min(NonceOf(w, a) + n, TWO_64 - 1)
  }

  /** Each candidate carries the nonce its caller has reached by then. */
  ghost predicate InSequence(w: World, txs: seq<Tx>) {
    forall i :: 0 <= i < |txs| ==> txs[i].nonce == NonceAfter(w, txs[i].caller, CallsOf(txs[..i], txs[i].caller))
  }

  /** An engine that runs whatever it is given. */
  ghost predicate AlwaysRuns(evm: Evm) {
    forall env, tx, w {:trigger evm(env, tx, w)} :: evm(env, tx, w).Ran?
  }

  /** Calls that nothing but their nonces can keep out. */
  ghost predicate OnlyNonceMatters(env: Env, w: World, txs: seq<Tx>) {
    forall i :: 0 <= i < |txs| ==>
      txs[i].isCall && FeeValid(env, txs[i]) && Payable(env, txs[i]) && txs[i].caller !in w.code
  }

  /** Nonces of `txs` are used up, and nothing else about the accounts has changed. */
  ghost predicate Reached(w: World, txs: seq<Tx>, t: World) {
    t.code == w.code && forall a: Address {:trigger NonceOf(t, a)} :: NonceOf(t, a) == NonceAfter(w, a, CallsOf(txs, a))
  }

  /** The candidate's turn comes on `t`: it is taken exactly when it carries the nonce reached. */
  ghost predicate Turn(exec: Attempts, w: World, txs: seq<Tx>, i: nat, t: World)
    requires i < |txs|
  {
    var r := exec(t, txs[i]);
    && (r.Ok? <==> txs[i].nonce == NonceAfter(w, txs[i].caller, CallsOf(txs[..i], txs[i].caller)))
    && (r.Ok? ==> r.value.tx == txs[i] && Reached(w, txs[..i + 1], r.value.post))
    && (r.Err? ==> r.error.InvalidTx?)
  }

  ghost predicate InTurn(exec: Attempts, w: World, txs: seq<Tx>) {
    forall i: nat, t {:trigger Reached(w, txs[..i], t)} :: i < |txs| && Reached(w, txs[..i], t) ==> Turn(exec, w, txs, i, t)
  }

  lemma CallsTakeTurns(env: Env, evm: Evm, w: World, txs: seq<Tx>)
    requires LeavesAccounts(evm) && AlwaysRuns(evm) && !env.disableNonceCheck && OnlyNonceMatters(env, w, txs)
    ensures InTurn(Attempt(env, evm), w, txs)
  {
    forall i: nat, t | i < |txs| && Reached(w, txs[..i], t)
      ensures Turn(Attempt(env, evm), w, txs, i, t)
    {
      OneTurn(env, evm, w, txs, i, t);
    }
  }

  lemma OneTurn(env: Env, evm: Evm, w: World, txs: seq<Tx>, i: nat, t: World)
    requires LeavesAccounts(evm) && AlwaysRuns(evm) && !env.disableNonceCheck && OnlyNonceMatters(env, w, txs)
    requires i < |txs| && Reached(w, txs[..i], t)
    ensures Turn(Attempt(env, evm), w, txs, i, t)
  {
    var tx := txs[i];
    var r := Transact(env, evm, t, tx);
    TransactExact(env, evm, t, tx);
    AttemptExact(env, evm, t, tx);
    assert txs[..i + 1][..i] == txs[..i];
    if r.Ok? {
      forall a: Address
        ensures NonceOf(Settled(env, tx, r.value), a) == NonceAfter(w, a, CallsOf(txs[..i + 1], a))
      {
        NonceStep(env, evm, t, tx, r.value, a);
      }
    }
  }

  lemma {:induction false} SequenceReached(exec: Attempts, w: World, txs: seq<Tx>, n: nat)
    requires InTurn(exec, w, txs) && InSequence(w, txs) && n <= |txs|
    ensures var r := GreedyBy(exec, w, txs[..n]);
      r.Some? && Txs(r.value) == txs[..n] && Reached(w, txs[..n], End(w, r.value))
  {
    if n > 0 {
      SequenceReached(exec, w, txs, n - 1);
      var steps := GreedyBy(exec, w, txs[..n - 1]).value;
      assert Turn(exec, w, txs, n - 1, End(w, steps));
      assert txs[..n][..n - 1] == txs[..n - 1];
      TxsNext(steps, exec(End(w, steps), txs[n - 1]).value);
    }
  }

  lemma {:induction false} WholeIsInSequence(exec: Attempts, w: World, txs: seq<Tx>, n: nat)
    requires Labelled(exec) && InTurn(exec, w, txs) && n <= |txs|
    requires GreedyBy(exec, w, txs[..n]).Some? && |GreedyBy(exec, w, txs[..n]).value| == n
    ensures InSequence(w, txs[..n])
    ensures Reached(w, txs[..n], End(w, GreedyBy(exec, w, txs[..n]).value))
  {
    if n > 0 {
      assert txs[..n][..n - 1] == txs[..n - 1];
      var steps := GreedyBy(exec, w, txs[..n - 1]).value;
      GreedyFollows(exec, w, txs[..n - 1]);
      WholeIsInSequence(exec, w, txs, n - 1);
      assert Turn(exec, w, txs, n - 1, End(w, steps));
      InSequenceNext(w, txs[..n]);
    }
  }

  lemma InSequenceNext(w: World, txs: seq<Tx>)
    requires txs != []
    ensures var n := |txs| - 1;
      InSequence(w, txs) <==>
      InSequence(w, txs[..n]) && txs[n].nonce == NonceAfter(w, txs[n].caller, CallsOf(txs[..n], txs[n].caller))
  {
    var n := |txs| - 1;
    assert forall i :: 0 <= i < n ==> txs[..n][..i] == txs[..i] && txs[..n][i] == txs[i];
    if InSequence(w, txs[..n]) && txs[n].nonce == NonceAfter(w, txs[n].caller, CallsOf(txs[..n], txs[n].caller)) {
      forall i | 0 <= i < |txs|
        ensures txs[i].nonce == NonceAfter(w, txs[i].caller, CallsOf(txs[..i], txs[i].caller))
      {
        if i < n {
          assert txs[..n][i].nonce == NonceAfter(w, txs[..n][i].caller, CallsOf(txs[..n][..i], txs[..n][i].caller));
        }
      }
    }
  }

  /** Calls of any callers that are otherwise valid are included whole if and only if each carries its
      caller's nonce at its turn: the first the current one, the next one more, and so on. */
  lemma CallsIncludedWhole(env: Env, evm: Evm, w: World, txs: seq<Tx>)
    requires LeavesAccounts(evm) && AlwaysRuns(evm) && !env.disableNonceCheck && OnlyNonceMatters(env, w, txs)
    ensures (exists steps :: Greedy(env, evm, w, txs) == Some(steps) && Txs(steps) == txs) <==> InSequence(w, txs)
  {
    CallsTakeTurns(env, evm, w, txs);
    assert txs[..|txs|] == txs;
    if InSequence(w, txs) {
      SequenceReached(Attempt(env, evm), w, txs, |txs|);
    }
    if steps :| Greedy(env, evm, w, txs) == Some(steps) && Txs(steps) == txs {
      WholeIsInSequence(Attempt(env, evm), w, txs, |txs|);
    }
  }

  /** In particular a run of one caller's calls with consecutive nonces from its current one. */
  lemma ConsecutiveCallsIncluded(env: Env, evm: Evm, w: World, a: Address, txs: seq<Tx>)
    requires LeavesAccounts(evm) && AlwaysRuns(evm) && !env.disableNonceCheck && OnlyNonceMatters(env, w, txs)
    requires forall i :: 0 <= i < |txs| ==> txs[i].caller == a && txs[i].nonce == NonceOf(w, a) + i
    ensures var r := Greedy(env, evm, w, txs);
      r.Some? && Txs(r.value) == txs && NonceOf(End(w, r.value), a) == Min(NonceOf(w, a) + |txs|, TWO_64 - 1)
  {
    forall i | 0 <= i <= |txs|
      ensures CallsOf(txs[..i], a) == i
    {
      AllCallsOf(txs[..i], a);
    }
    CallsTakeTurns(env, evm, w, txs);
    SequenceReached(Attempt(env, evm), w, txs, |txs|);
    assert txs[..|txs|] == txs;
  }

  lemma {:induction false} AllCallsOf(txs: seq<Tx>, a: Address)
    requires forall i :: 0 <= i < |txs| ==> txs[i].caller == a
    ensures CallsOf(txs, a) == |txs|
  {
    if txs != [] {
      AllCallsOf(txs[..|txs| - 1], a);
    }
  }

  // ---------------------------------------------------------------- creations that run twice

  /** A transaction that leaves its nonce unused stays acceptable: executed on the state it left, it
      passes every check of the hooks again, so only the engine's own refusal keeps it out. */
  lemma UnusedNonceRepeats(env: Env, evm: Evm, w: World, tx: Tx, x: Executed)
    requires KeepsNonces(evm) && Transact(env, evm, w, tx) == Ok(x) && !env.disableNonceCheck
    requires !UsesNonce(env, w, tx) && tx.nonce + 1 < TWO_64 && tx.caller !in x.after.code
    ensures var next := Settled(env, tx, x);
      EnvRejection(env, tx).None? && DeductCaller(env, next, tx).Ok?
  {
    TransactNonces(env, evm, w, tx, x, tx.caller);
  }

  lemma GreedyAccepts(env: Env, evm: Evm, w: World, txs: seq<Tx>, steps: seq<Step>, s: Step)
    requires Greedy(env, evm, w, txs) == Some(steps) && s.pre == End(w, steps) && Accepted(env, evm, s)
    ensures Greedy(env, evm, w, txs + [s.tx]) == Some(steps + [s])
  {
    assert (txs + [s.tx])[..|txs|] == txs;
  }

  lemma GreedyOnce(env: Env, evm: Evm, w: World, s: Step)
    requires Accepted(env, evm, s) && s.pre == w
    ensures Greedy(env, evm, w, [s.tx]) == Some([s])
  {
    GreedyAccepts(env, evm, w, [], [], s);
    assert [] + [s.tx] == [s.tx] && [] + [s] == [s];
  }

  lemma GreedyTwice(env: Env, evm: Evm, w: World, s1: Step, s2: Step)
    requires Accepted(env, evm, s1) && s1.pre == w
    requires Accepted(env, evm, s2) && s2.pre == s1.post
    ensures Greedy(env, evm, w, [s1.tx] + [s2.tx]) == Some([s1] + [s2])
  {
    GreedyOnce(env, evm, w, s1);
    assert End(w, [s1]) == s1.post;
    GreedyAccepts(env, evm, w, [s1.tx], [s1], s2);
  }

  lemma RunsTwice(env: Env, evm: Evm, w: World, tx: Tx)
    requires Transact(env, evm, w, tx).Ok?
    requires Transact(env, evm, Settled(env, tx, Transact(env, evm, w, tx).value), tx).Ok?
    ensures var steps := Greedy(env, evm, w, [tx, tx]);
      steps.Some? && Txs(steps.value) == [tx, tx]
  {
    AttemptExact(env, evm, w, tx);
    var s1 := Attempt(env, evm)(w, tx).value;
    AttemptExact(env, evm, s1.post, tx);
    var s2 := Attempt(env, evm)(s1.post, tx).value;
    GreedyTwice(env, evm, w, s1, s2);
    assert [tx] + [tx] == [tx, tx];
    assert Txs([s1] + [s2]) == [tx, tx];
  }

  /** Under the idle engine every such transaction does run twice when it is offered twice. */
  lemma UnusedNonceRunsTwice(env: Env, w: World, tx: Tx, x: Executed)
    requires Transact(env, IdleEngine(), w, tx) == Ok(x) && !env.disableNonceCheck
    requires !UsesNonce(env, w, tx) && tx.nonce + 1 < TWO_64
    ensures var steps := Greedy(env, IdleEngine(), w, [tx, tx]);
      steps.Some? && Txs(steps.value) == [tx, tx]
  {
    var next := Settled(env, tx, x);
    IdleEngineIsLawful();
    UnusedNonceRepeats(env, IdleEngine(), w, tx, x);
    IdleEngineAccepts(env, next, tx);
    RunsTwice(env, IdleEngine(), w, tx);
  }

  lemma IdleEngineAccepts(env: Env, w: World, tx: Tx)
    requires EnvRejection(env, tx).None? && DeductCaller(env, w, tx).Ok?
    ensures Transact(env, IdleEngine(), w, tx).Ok?
  {
    assert IdleEngine()(env, tx, DeductCaller(env, w, tx).value).Ran?;
  }

  /** For instance a creation that carries value, from an account that holds nothing. */
  lemma CreationRunsTwice(env: Env, w: World, tx: Tx)
    requires env == Env(0x2025550000000000000000000000000000010001, 7, 1, 100000, false)
    requires w == World(map[], map[], {})
    requires tx == Tx(1, 5, 0, false, 60000, 10, Legacy(1), 100)
    ensures Lawful(IdleEngine()) && KeepsNonces(IdleEngine())
    ensures var steps := Greedy(env, IdleEngine(), w, [tx, tx]);
      steps.Some? && Txs(steps.value) == [tx, tx]
  {
    IdleEngineIsLawful();
    IdleEngineAccepts(env, w, tx);
    UnusedNonceRunsTwice(env, w, tx, Transact(env, IdleEngine(), w, tx).value);
  }
}
