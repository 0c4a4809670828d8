/** The RPC handlers that change the pool and the number map, each proved to be one step of the
    life cycle. */
module Engine {
  import opened Machine
  import opened Transactions
  import opened Numbers
  import opened TxPool
  import opened Blocks
  import opened Lifecycle
  import Builder
  import Config
  import Handler
  import Validator

  datatype SubmitError = NotDecoded | FeeCapTooLow | PoolRefused

  class KasplexNode {
    const isKasplex: bool
    const pool: Pool
    const mapping: TxMapping

    constructor (isKasplex: bool)
      ensures this.isKasplex == isKasplex && fresh(pool) && fresh(mapping)
      ensures State() == Node(isKasplex, map[], [], [])
    {
      this.isKasplex := isKasplex;
      pool := new Pool();
      mapping := new TxMapping();
    }

    ghost function State(): Node
      reads pool, mapping
    {
      Node(isKasplex, mapping.mapping, pool.pending, pool.queued)
    }

    /** The submission gets past the fee floor. */
    ghost predicate PassesFloor(decoded: Option<Tx>) {
      decoded.Some? && decoded.value.fee.MaxFeePerGas() >= 2_000_000_000_000
    }

    /** The number is stamped before the pool decides, so it stays when the pool refuses. */
    method SendRawTransaction(decoded: Option<Tx>, latest: Option<U64>, admission: Admission)
      returns (r: Result<Hash, SubmitError>)
      modifies pool, mapping`mapping
      ensures decoded.None? ==> State() == old(State()) && r == Err(NotDecoded)
      ensures decoded.Some? ==> State() == Step(old(State()), Submit(decoded.value, latest, admission))
      ensures decoded.Some? ==> (r == Err(FeeCapTooLow) <==> decoded.value.fee.MaxFeePerGas() < 2_000_000_000_000)
      ensures r == Err(FeeCapTooLow) ==> State() == old(State())
      ensures PassesFloor(decoded) ==> (r == Ok(decoded.value.hash) <==> admission != NotAdmitted)
      ensures PassesFloor(decoded) ==> (r == Err(PoolRefused) <==> admission == NotAdmitted)
      ensures PassesFloor(decoded) ==>
        && pool.pending == old(pool.pending) + (if admission == ToPending then [decoded.value] else [])
        && pool.queued == old(pool.queued) + (if admission == ToQueued then [decoded.value] else [])
      ensures PassesFloor(decoded) ==> forall h: Hash ::
        View(mapping.mapping, h) ==
        if h == decoded.value.hash && latest.Some? then (latest.value + 1) % TWO_64 else View(old(mapping.mapping), h)
    {
      if decoded.None? {
        return Err(NotDecoded);
      }
      var tx := decoded.value;
      if tx.fee.MaxFeePerGas() < KASPLEX_BASE_FEE {
        return Err(FeeCapTooLow);
      }
      if latest.Some? {
        mapping.Insert(tx.hash, WrapU64(latest.value + 1));
      }
      match admission {
        case NotAdmitted => return Err(PoolRefused);
        case ToPending => pool.pending := pool.pending + [tx];
        case ToQueued => pool.queued := pool.queued + [tx];
      }
      r := Ok(tx.hash);
    }

    /** `validated`: the inner engine got as far as converting the payload; `accepted`: it returned
        a status and not an error; `found`: the block the provider then has under the hash.  An
        inner error ends the call before the pool is touched, but not before the numbers are
        consumed. */
    method NewPayloadV2(c: Codec, payload: ExecutionPayloadV1, validated: bool, accepted: bool, found: Option<seq<Tx>>)
      modifies pool, mapping`mapping
      ensures var restored := RestoredBlock(c, V1(payload));
        var decoded := if validated && restored.Ok? then restored.value.transactions else [];
        && State() == Step(old(State()), NewPayload(decoded, if accepted then found else None))
        && (forall h :: h in mapping.mapping <==> h in old(mapping.mapping) && h !in Hashes(decoded))
        && (forall h :: h in mapping.mapping ==> mapping.mapping[h] == old(mapping.mapping)[h])
      ensures forall tx :: tx in pool.pending <==>
        tx in old(pool.pending) && !(accepted && found.Some? && tx.hash in Hashes(found.value))
      ensures forall tx :: tx in pool.queued <==>
        tx in old(pool.queued) && !(accepted && found.Some? && tx.hash in Hashes(found.value))
    {
      ghost var before := mapping.mapping;
      ConsumeNothing(before);
      if validated {
        var _ := Validator.EnsureWellFormedPayload(c, mapping, V1(payload));
      }
      if !accepted {
        return;
      }
      if found.Some? {
        KeptAre(pool.pending, Listed(Hashes(found.value)));
        KeptAre(pool.queued, Listed(Hashes(found.value)));
        var _ := RemoveIncludedTransactions(pool, found.value);
      }
    }

    /** A transaction with number `n` outlives a forkchoice update: nothing is pruned, or it has no
        number, or the head is at most a hundred blocks above it. */
    ghost predicate SparedBy(accepted: bool, header: Option<U64>, best: Option<U64>, n: U64) {
      || !accepted || !isKasplex || (header.None? && best.None?)
      || n == 0
      || (n + 100 < TWO_64 && n <= header.GetOr(best.GetOr(0)) <= n + 100)
    }

    /** `header`: the number of the header under the new head hash; `best`: the fallback. */
    method ForkChoiceUpdatedV2(accepted: bool, header: Option<U64>, best: Option<U64>)
      modifies pool, mapping`reorgInProgress
      ensures State() == Step(old(State()), ForkchoiceUpdated(
        if !accepted then None else if header.Some? then header else best))
      ensures accepted && isKasplex && (header.Some? || best.Some?) ==> !mapping.reorgInProgress
      ensures mapping.mapping == old(mapping.mapping)
      ensures forall tx :: tx in pool.pending <==>
        tx in old(pool.pending) && SparedBy(accepted, header, best, View(mapping.mapping, tx.hash))
      ensures forall tx :: tx in pool.queued <==>
        tx in old(pool.queued) && SparedBy(accepted, header, best, View(mapping.mapping, tx.hash))
    {
      if !accepted {
        return;
      }
      if header.Some? || best.Some? {
        SparedAre(pool.pending, mapping.mapping, header.GetOr(best.GetOr(0)));
        SparedAre(pool.queued, mapping.mapping, header.GetOr(best.GetOr(0)));
      }
      if header.Some? {
        HandleKasplexPoolReorg(isKasplex, pool, mapping, header.value);
      } else if best.Some? {
        HandleKasplexPoolReorg(isKasplex, pool, mapping, best.value);
      }
    }

    /** A job that completes is a build step and any other leaves the state alone; no reader of
        numbers notices either. */
    method BuildPayload(config: Config.EvmConfig, c: Codec, evm: Handler.Evm, job: Builder.Job)
      returns (r: Builder.BuildOutcome)
      modifies config.cells, mapping`mapping
      ensures r == Builder.JobOutcome(c, evm, job) && Builder.EndsAs(c, evm, job, r)
      ensures State() == if r.Frozen? then Step(old(State()), Build(r.block.transactions)) else old(State())
      ensures SameToReaders(State(), old(State()))
    {
      ghost var before := mapping.mapping;
      r := Builder.KasplexPayload(config, mapping, c, evm, job);
      if r.Frozen? {
        forall h: Hash
          ensures View(mapping.mapping, h) == View(before, h)
        {
          WriteBackKeepsView(before, Hashes(r.block.transactions), h);
        }
      }
    }

    /** Converting a block is the corresponding step, and no reader notices it. */
    method ConvertBlock(c: Codec, b: Block) returns (p: ExecutionPayload)
      modifies mapping`mapping
      ensures State() == Step(old(State()), Event.BlockToPayload(b.transactions))
      ensures SameToReaders(State(), old(State()))
      ensures p == V1(FromBlock(c, c.headerHash(b.header), b))
    {
      ghost var before := mapping.mapping;
      p := Validator.BlockToPayload(c, mapping, b);
      forall h: Hash
        ensures View(mapping.mapping, h) == View(before, h)
      {
        WriteBackKeepsView(before, Hashes(b.transactions), h);
      }
    }
  }

  lemma KeptAre(txs: seq<Tx>, doomed: iset<Hash>)
    ensures forall tx :: tx in Keep(txs, doomed) <==> tx in txs && tx.hash !in doomed
  {
    forall tx: Tx
      ensures tx in Keep(txs, doomed) <==> tx in txs && tx.hash !in doomed
    {
      KeepMember(txs, doomed, tx);
    }
  }

  lemma SparedAre(txs: seq<Tx>, m: NumberMap, head: U64)
    ensures forall tx :: tx in Keep(txs, Expired(m, head)) <==>
      tx in txs && (View(m, tx.hash) == 0
                    || (View(m, tx.hash) + 100 < TWO_64 && View(m, tx.hash) <= head <= View(m, tx.hash) + 100))
  {
    forall tx: Tx
      ensures tx in Keep(txs, Expired(m, head)) <==>
        tx in txs && (View(m, tx.hash) == 0
                      || (View(m, tx.hash) + 100 < TWO_64 && View(m, tx.hash) <= head <= View(m, tx.hash) + 100))
    {
      CleanupExact(txs, m, head, tx);
    }
  }

  lemma ConsumeNothing(m: NumberMap)
    ensures Consumed(m, Hashes([])) == m
  {
  }
}
