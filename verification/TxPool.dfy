/** The pool's contents and the two Kasplex cleanups. */
module TxPool {
  import opened Machine
  import opened Transactions
  import opened Numbers

  /** The transactions whose hash is not doomed, in order. */
  ghost function Keep(txs: seq<Tx>, doomed: iset<Hash>): seq<Tx> {
    if txs == [] then []
    else
      var last := txs[|txs| - 1];
      Keep(txs[..|txs| - 1], doomed) + (if last.hash in doomed then [] else [last])
  }

  lemma {:induction false} KeepMember(txs: seq<Tx>, doomed: iset<Hash>, tx: Tx)
    ensures tx in Keep(txs, doomed) <==> tx in txs && tx.hash !in doomed
  {
    if txs != [] {
      KeepMember(txs[..|txs| - 1], doomed, tx);
      assert txs == txs[..|txs| - 1] + [txs[|txs| - 1]];
    }
  }

  /** Each transaction is kept or dropped by itself, and what is kept stays in order. */
  lemma {:induction false} KeepConcat(a: seq<Tx>, b: seq<Tx>, doomed: iset<Hash>)
    ensures Keep(a + b, doomed) == Keep(a, doomed) + Keep(b, doomed)
    ensures forall tx {:trigger Keep([tx], doomed)} :: Keep([tx], doomed) == if tx.hash in doomed then [] else [tx]
  {
    if b == [] {
      assert a + b == a;
    } else {
      var n := |b| - 1;
      KeepConcat(a, b[..n], doomed);
      assert (a + b)[..|a + b| - 1] == a + b[..n];
    }
  }

  // Filtering twice is filtering by the union.
  lemma {:induction false} KeepKeep(txs: seq<Tx>, a: iset<Hash>, b: iset<Hash>)
    ensures Keep(Keep(txs, a), b) == Keep(txs, a + b)
  {
    if txs != [] {
      var front, last := txs[..|txs| - 1], txs[|txs| - 1];
      KeepKeep(front, a, b);
      if last.hash !in a {
        assert Keep(txs, a)[..|Keep(txs, a)| - 1] == Keep(front, a);
      } else {
        assert Keep(txs, a) == Keep(front, a);
      }
    }
  }

  // Only the hashes that occur matter.
  lemma {:induction false} KeepAgree(txs: seq<Tx>, a: iset<Hash>, b: iset<Hash>)
    requires forall tx :: tx in txs ==> (tx.hash in a <==> tx.hash in b)
    ensures Keep(txs, a) == Keep(txs, b)
  {
    if txs != [] {
      KeepAgree(txs[..|txs| - 1], a, b);
    }
  }

  ghost function Expired(m: NumberMap, head: U64): iset<Hash> {
    iset h | Expelled(View(m, h), head)
  }

  ghost function Listed(hs: seq<Hash>): iset<Hash> {
    iset h | h in hs
  }

  class Pool {
    var pending: seq<Tx>
    var queued: seq<Tx>

    constructor ()
      ensures pending == [] && queued == []
    {
      pending, queued := [], [];
    }

    // The pool's own removal by hash.
    method RemoveTransactions(hashes: seq<Hash>) returns (removed: nat)
      modifies this
      ensures pending == Keep(old(pending), Listed(hashes))
      ensures queued == Keep(old(queued), Listed(hashes))
      ensures removed == |old(pending)| + |old(queued)| - |pending| - |queued|
    {
      var p, q := |pending|, |queued|;
      pending := Without(pending, hashes);
      queued := Without(queued, hashes);
      removed := p - |pending| + (q - |queued|);
    }
  }

  method Without(txs: seq<Tx>, hashes: seq<Hash>) returns (kept: seq<Tx>)
    ensures kept == Keep(txs, Listed(hashes))
    ensures |kept| <= |txs|
  {
    kept := [];
    for i := 0 to |txs|
      invariant kept == Keep(txs[..i], Listed(hashes)) && |kept| <= i
    {
      if txs[i].hash !in hashes {
        kept := kept + [txs[i]];
      }
      assert txs[..i + 1][..i] == txs[..i];
    }
    assert txs[..|txs|] == txs;
  }

  /** The reorg cleanup's decision for one of the two sub-pools. */
  method CollectExpelled(hashes: seq<Hash>, mapping: TxMapping, newHead: U64) returns (doomed: seq<Hash>)
    ensures forall h :: h in doomed <==> h in hashes && Expelled(View(mapping.mapping, h), newHead)
  {
    doomed := [];
    for i := 0 to |hashes|
      invariant forall h :: h in doomed <==> h in hashes[..i] && Expelled(View(mapping.mapping, h), newHead)
    {
      var txNumber := mapping.GetSubmissionBlock(hashes[i]).GetOr(0);
      if txNumber > 0 {
        if WrapU64(txNumber + UNEXECUTED_TX_RETENTION_BLOCKS) < newHead {
          doomed := doomed + [hashes[i]];
        } else if txNumber > newHead {
          doomed := doomed + [hashes[i]];
        }
      }
      assert hashes[..i + 1] == hashes[..i] + [hashes[i]];
    }
    assert hashes[..|hashes|] == hashes;
  }

  method HandleKasplexPoolReorg(isKasplex: bool, pool: Pool, mapping: TxMapping, newHead: U64)
    modifies pool, mapping`reorgInProgress
    ensures !isKasplex ==> pool.pending == old(pool.pending) && pool.queued == old(pool.queued)
                           && mapping.reorgInProgress == old(mapping.reorgInProgress)
    ensures isKasplex ==> pool.pending == Keep(old(pool.pending), Expired(mapping.mapping, newHead))
                          && pool.queued == Keep(old(pool.queued), Expired(mapping.mapping, newHead))
                          && !mapping.reorgInProgress
  {
    if !isKasplex {
      return;
    }
    mapping.MarkStartPoolReorg();
    var doomedPending := CollectExpelled(Hashes(pool.pending), mapping, newHead);
    var doomedQueued := CollectExpelled(Hashes(pool.queued), mapping, newHead);
    var txsToRemove := doomedPending + doomedQueued;
    ghost var expired := Expired(mapping.mapping, newHead);
    SubpoolAgree(pool.pending, txsToRemove, expired);
    SubpoolAgree(pool.queued, txsToRemove, expired);
    if |txsToRemove| > 0 {
      var _ := pool.RemoveTransactions(txsToRemove);
    } else {
      KeepAll(pool.pending, expired);
      KeepAll(pool.queued, expired);
    }
    mapping.MarkPoolReorged();
  }

  // A removal list that is right about this sub-pool's hashes filters it like the whole set.
  lemma SubpoolAgree(txs: seq<Tx>, list: seq<Hash>, doomed: iset<Hash>)
    requires forall h :: h in Hashes(txs) ==> (h in list <==> h in doomed)
    ensures Keep(txs, Listed(list)) == Keep(txs, doomed)
    ensures list == [] ==> forall tx :: tx in txs ==> tx.hash !in doomed
  {
    forall tx | tx in txs
      ensures tx.hash in Hashes(txs)
    {
      var i :| 0 <= i < |txs| && txs[i] == tx;
      assert Hashes(txs)[i] == tx.hash;
    }
    KeepAgree(txs, Listed(list), doomed);
  }

  lemma {:induction false} KeepAll(txs: seq<Tx>, doomed: iset<Hash>)
    requires forall tx :: tx in txs ==> tx.hash !in doomed
    ensures Keep(txs, doomed) == txs
  {
    if txs != [] {
      KeepAll(txs[..|txs| - 1], doomed);
      assert txs == txs[..|txs| - 1] + [txs[|txs| - 1]];
    }
  }

  /** The hashes of one sub-pool that occur in the block, one entry per pool transaction. */
  method CollectIncluded(txs: seq<Tx>, blockHashes: seq<Hash>) returns (found: seq<Hash>)
    ensures forall h :: h in found <==> h in Hashes(txs) && h in blockHashes
    ensures |found| == |txs| - |Keep(txs, Listed(blockHashes))|
  {
    found := [];
    for i := 0 to |txs|
      invariant forall h :: h in found <==> h in Hashes(txs)[..i] && h in blockHashes
      invariant |found| == i - |Keep(txs[..i], Listed(blockHashes))|
    {
      if txs[i].hash in blockHashes {
        found := found + [txs[i].hash];
      }
      assert Hashes(txs)[..i + 1] == Hashes(txs)[..i] + [txs[i].hash];
      assert txs[..i + 1][..i] == txs[..i];
    }
    assert txs[..|txs|] == txs && Hashes(txs)[..|txs|] == Hashes(txs);
  }

  /** Exactly the block's transactions leave the pool; the result counts what left. */
  method RemoveIncludedTransactions(pool: Pool, blockTxs: seq<Tx>) returns (removedCount: nat)
    modifies pool
    ensures pool.pending == Keep(old(pool.pending), Listed(Hashes(blockTxs)))
    ensures pool.queued == Keep(old(pool.queued), Listed(Hashes(blockTxs)))
    ensures removedCount == |old(pool.pending)| + |old(pool.queued)| - |pool.pending| - |pool.queued|
  {
    var blockHashes := Hashes(blockTxs);
    var fromPending := CollectIncluded(pool.pending, blockHashes);
    var fromQueued := CollectIncluded(pool.queued, blockHashes);
    var txsToRemove := fromPending + fromQueued;
    removedCount := |txsToRemove|;
    ghost var included := Listed(blockHashes);
    SubpoolAgree(pool.pending, txsToRemove, included);
    SubpoolAgree(pool.queued, txsToRemove, included);
    if removedCount > 0 {
      var _ := pool.RemoveTransactions(txsToRemove);
    } else {
      KeepAll(pool.pending, included);
      KeepAll(pool.queued, included);
    }
  }

  function IsTransactionExpiredForPool(h: Hash, mapping: TxMapping, current: U64): bool
    reads mapping
  {
    match mapping.GetSubmissionBlock(h)
    case Some(n) => WrapU64(n + UNEXECUTED_TX_RETENTION_BLOCKS) < current || n > current
    case None => false
  }

  // ---------------------------------------------------------------- what the cleanup means

  /** A transaction remains exactly when it was in the pool and its number is absent, zero, or
      has the head in its window of a hundred blocks, without the window passing 2^64. */
  lemma CleanupExact(txs: seq<Tx>, m: NumberMap, head: U64, tx: Tx)
    ensures tx in Keep(txs, Expired(m, head)) <==>
            tx in txs && (View(m, tx.hash) == 0 ||
                          (InWindow(View(m, tx.hash), head)
                           && View(m, tx.hash) + UNEXECUTED_TX_RETENTION_BLOCKS < TWO_64))
  {
    KeepMember(txs, Expired(m, head), tx);
    ExpiryWindow(View(m, tx.hash), head);
  }

  /** Cleaning up at one head and then another keeps, in either order, the transactions that
      belong to both windows; repeating a cleanup changes nothing. */
  lemma CleanupsIntersect(txs: seq<Tx>, m: NumberMap, head1: U64, head2: U64, tx: Tx)
    ensures Keep(Keep(txs, Expired(m, head1)), Expired(m, head2)) == Keep(Keep(txs, Expired(m, head2)), Expired(m, head1))
    ensures Keep(Keep(txs, Expired(m, head1)), Expired(m, head1)) == Keep(txs, Expired(m, head1))
    ensures tx in Keep(Keep(txs, Expired(m, head1)), Expired(m, head2)) <==>
            tx in txs && !Expelled(View(m, tx.hash), head1) && !Expelled(View(m, tx.hash), head2)
  {
    var a, b := Expired(m, head1), Expired(m, head2);
    KeepKeep(txs, a, b);
    KeepKeep(txs, b, a);
    assert a + b == b + a;
    KeepKeep(txs, a, a);
    assert a + a == a;
    KeepMember(txs, a + b, tx);
  }

  /** The cleanup and the two published expiry queries decide alike for every stored number
      except zero, which only the cleanup spares. */
  lemma QueriesAgree(mapping: TxMapping, h: Hash, head: U64)
    ensures IsTransactionExpiredForPool(h, mapping, head) == mapping.IsTransactionExpired(h, head)
    ensures h in mapping.mapping && mapping.mapping[h] != 0 ==>
            (h in Expired(mapping.mapping, head) <==> mapping.IsTransactionExpired(h, head))
    ensures h in mapping.mapping && mapping.mapping[h] == 0 ==>
            h !in Expired(mapping.mapping, head)
            && (mapping.IsTransactionExpired(h, head) <==> head > UNEXECUTED_TX_RETENTION_BLOCKS)
    ensures h !in mapping.mapping ==> h !in Expired(mapping.mapping, head) && !mapping.IsTransactionExpired(h, head)
  {
  }
}
