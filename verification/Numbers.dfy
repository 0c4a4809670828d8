/** The map from transaction hash to submission block, its readers and its writers. */
module Numbers {
  import opened Machine
  import opened Transactions

  const UNEXECUTED_TX_RETENTION_BLOCKS: U64 := 100

  type NumberMap = map<Hash, U64>

  /** Every reader treats an absent number as zero. */
  function View(m: NumberMap, h: Hash): U64 {
    if h in m then m[h] else 0
  }

  /** The expiry test, with the addition as the release build computes it. */
  predicate ExpiredAt(n: U64, head: U64) {
    WrapU64(n + UNEXECUTED_TX_RETENTION_BLOCKS) < head || n > head
  }

  /** The pool cleanup spares number zero. */
  predicate Expelled(n: U64, head: U64) {
    n > 0 && ExpiredAt(n, head)
  }

  ghost predicate InWindow(n: U64, head: U64) {
    n <= head <= n + UNEXECUTED_TX_RETENTION_BLOCKS
  }

  /** The test means "outside the window of a hundred blocks" for every number whose window ends
      below 2^64.  For the last hundred numbers the addition wraps and every head counts as
      expired. */
  lemma ExpiryWindow(n: U64, head: U64)
    ensures ExpiredAt(n, head) <==> !(InWindow(n, head) && n + UNEXECUTED_TX_RETENTION_BLOCKS < TWO_64)
  {
  }

  // A hundred blocks after submission is not yet expired, a hundred and one is.
  lemma RetentionBoundary(n: U64)
    requires n + 101 < TWO_64
    ensures !ExpiredAt(n, n + 100) && ExpiredAt(n, n + 101)
  {
  }

  /** Numbers removed for the hashes of a processed payload. */
  function Consumed(m: NumberMap, hs: seq<Hash>): NumberMap {
    map h | h in m && h !in hs :: m[h]
  }

  /** Get-or-zero numbers stored back for the hashes of a block. */
  function WrittenBack(m: NumberMap, hs: seq<Hash>): NumberMap {
    m + map h | h in hs :: View(m, h)
  }

  function Assigned(m: NumberMap, hs: seq<Hash>, numbers: seq<U64>): NumberMap
    requires |hs| == |numbers|
  {
    if hs == [] then m
    else
      var n := |hs| - 1;
      Assigned(m, hs[..n], numbers[..n])[hs[n] := numbers[n]]
  }

  function NumbersOf(m: NumberMap, hs: seq<Hash>): (ns: seq<U64>)
    ensures |ns| == |hs| && forall i :: 0 <= i < |hs| ==> ns[i] == View(m, hs[i])
  {
    seq(|hs|, i requires 0 <= i < |hs| => View(m, hs[i]))
  }

  class TxMapping {
    var mapping: NumberMap
    var deleted: set<Hash>
    var reorgInProgress: bool

    constructor ()
      ensures mapping == map[] && deleted == {} && !reorgInProgress
    {
      mapping, deleted, reorgInProgress := map[], {}, false;
    }

    function GetSubmissionBlock(h: Hash): Option<U64>
      reads this
    {
      if h in mapping then Some(mapping[h]) else None
    }

    method Insert(h: Hash, number: U64)
      modifies this`mapping
      ensures mapping == old(mapping)[h := number]
    {
      mapping := mapping[h := number];
    }

    method GetTxNumber(h: Hash) returns (n: U64)
      modifies this`mapping
      ensures n == View(old(mapping), h) && mapping == old(mapping) - {h}
    {
      n := if h in mapping then mapping[h] else 0;
      mapping := mapping - {h};
    }

    function IsTransactionExpired(h: Hash, current: U64): bool
      reads this
    {
      match GetSubmissionBlock(h)
      case Some(n) => ExpiredAt(n, current)
      case None => false
    }

    method MarkStartPoolReorg()
      modifies this`reorgInProgress
      ensures reorgInProgress
    {
      reorgInProgress := true;
    }

    method MarkPoolReorged()
      modifies this`reorgInProgress
      ensures !reorgInProgress
    {
      reorgInProgress := false;
    }

    // Reading and removing the number of every transaction of a processed block.
    method ConsumeAll(hs: seq<Hash>)
      modifies this`mapping
      ensures mapping == Consumed(old(mapping), hs)
      ensures forall h :: h in mapping <==> h in old(mapping) && h !in hs
      ensures forall h :: h in mapping ==> mapping[h] == old(mapping)[h]
    {
      for i := 0 to |hs|
        invariant mapping == Consumed(old(mapping), hs[..i])
      {
        var _ := GetTxNumber(hs[i]);
        assert hs[..i + 1] == hs[..i] + [hs[i]];
      }
      assert hs[..|hs|] == hs;
    }

    method AssignAll(hs: seq<Hash>, numbers: seq<U64>)
      requires |hs| == |numbers|
      modifies this`mapping
      ensures mapping == Assigned(old(mapping), hs, numbers)
    {
      for i := 0 to |hs|
        invariant mapping == Assigned(old(mapping), hs[..i], numbers[..i])
      {
        Insert(hs[i], numbers[i]);
        assert hs[..i + 1][..i] == hs[..i] && numbers[..i + 1][..i] == numbers[..i];
      }
      assert hs[..|hs|] == hs && numbers[..|hs|] == numbers;
    }
  }

  // ---------------------------------------------------------------- the writers

  // Storing back numbers read from the same map is the write-back, even for repeated hashes.
  lemma {:induction false} AssignedIsWriteBack(m: NumberMap, hs: seq<Hash>)
    ensures Assigned(m, hs, NumbersOf(m, hs)) == WrittenBack(m, hs)
  {
    if hs == [] {
      assert WrittenBack(m, hs) == m;
    } else {
      var n := |hs| - 1;
      AssignedIsWriteBack(m, hs[..n]);
      assert NumbersOf(m, hs)[..n] == NumbersOf(m, hs[..n]);
      assert hs == hs[..n] + [hs[n]];
      WriteBackNext(m, hs[..n], hs[n]);
    }
  }

  lemma WriteBackNext(m: NumberMap, hs: seq<Hash>, h: Hash)
    ensures WrittenBack(m, hs + [h]) == WrittenBack(m, hs)[h := View(m, h)]
  {
    var a, b := WrittenBack(m, hs + [h]), WrittenBack(m, hs)[h := View(m, h)];
    assert forall k :: k in hs + [h] <==> k in hs || k == h;
    assert a.Keys == b.Keys;
    assert forall k :: k in a.Keys ==> a[k] == b[k];
  }

  /** A write-back is invisible to every reader of numbers, and afterwards every hash of the block
      has an entry. */
  lemma WriteBackKeepsView(m: NumberMap, hs: seq<Hash>, h: Hash)
    ensures View(WrittenBack(m, hs), h) == View(m, h)
    ensures h in WrittenBack(m, hs) <==> h in m || h in hs
  {
  }

  /** Whatever numbers a sidecar stored for a block's hashes first, consuming the block leaves the
      original map without exactly those hashes, and consuming it again changes nothing. */
  lemma {:induction false} ConsumeAfterAssign(m: NumberMap, hs: seq<Hash>, numbers: seq<U64>, all: seq<Hash>)
    requires |hs| == |numbers| && forall h :: h in hs ==> h in all
    ensures Consumed(Assigned(m, hs, numbers), all) == Consumed(m, all)
    ensures Consumed(Consumed(m, all), all) == Consumed(m, all)
  {
    if hs != [] {
      var n := |hs| - 1;
      ConsumeAfterAssign(m, hs[..n], numbers[..n], all);
      var before := Assigned(m, hs[..n], numbers[..n]);
      assert hs[n] in all;
      assert Consumed(before[hs[n] := numbers[n]], all) == Consumed(before, all);
    }
  }
}
