/** The life of a transaction number: stamped on submission, read and stored back while blocks are
    built and converted, consumed by payload processing, and used to prune the pool on every
    forkchoice update.  Each engine event is one atomic step. */
module Lifecycle {
  import opened Machine
  import opened Transactions
  import opened Numbers
  import opened TxPool

  datatype Node = Node(kasplex: bool, numbers: NumberMap, pending: seq<Tx>, queued: seq<Tx>)

  /** What the pool does with a submitted transaction. */
  datatype Admission = NotAdmitted | ToPending | ToQueued

  datatype Event =
    | Submit(tx: Tx, latest: Option<U64>, admission: Admission)
    | Build(included: seq<Tx>)
    | BlockToPayload(txs: seq<Tx>)
    | NewPayload(decoded: seq<Tx>, found: Option<seq<Tx>>)
    | ForkchoiceUpdated(head: Option<U64>)

  /** `Submit` reads the latest header; `NewPayload` consumes the transactions of the payload it
      decoded (none when it did not decode) and then asks the provider for the block;
      `ForkchoiceUpdated` prunes at the head it could resolve. */
  ghost function Step(s: Node, e: Event): Node {
    match e
    case Submit(tx, latest, admission) =>
      if tx.fee.MaxFeePerGas() < KASPLEX_BASE_FEE then s
      else
        var stamped := if latest.Some? then s.(numbers := s.numbers[tx.hash := WrapU64(latest.value + 1)]) else s;
        (match admission
         case NotAdmitted => stamped
         case ToPending => stamped.(pending := s.pending + [tx])
         case ToQueued => stamped.(queued := s.queued + [tx]))
    case Build(included) => s.(numbers := WrittenBack(s.numbers, Hashes(included)))
    case BlockToPayload(txs) => s.(numbers := WrittenBack(s.numbers, Hashes(txs)))
    case NewPayload(decoded, found) =>
      var consumed := s.(numbers := Consumed(s.numbers, Hashes(decoded)));
      if found.None? then consumed else Prune(consumed, Listed(Hashes(found.value)))
    case ForkchoiceUpdated(head) =>
      if head.Some? && s.kasplex then Prune(s, Expired(s.numbers, head.value)) else s
  }

  ghost function Prune(s: Node, doomed: iset<Hash>): Node {
    s.(pending := Keep(s.pending, doomed), queued := Keep(s.queued, doomed))
  }

  ghost function Run(s: Node, es: seq<Event>): Node {
    if es == [] then s else Step(Run(s, es[..|es| - 1]), es[|es| - 1])
  }

  /** Two nodes that no reader of numbers and no user of the pool can tell apart. */
  ghost predicate SameToReaders(s: Node, t: Node) {
    && s.pending == t.pending
    && s.queued == t.queued
    && forall h: Hash {:trigger View(s.numbers, h)} {:trigger View(t.numbers, h)} ::
         View(s.numbers, h) == View(t.numbers, h)
  }

  ghost predicate InPool(s: Node, tx: Tx) {
    tx in s.pending || tx in s.queued
  }

  // ---------------------------------------------------------------- order independence

  /** A payload whose block the provider finds, with at least the transactions that were decoded:
      what an imported block gives. */
  ghost predicate FoundValid(e: Event)
    requires e.NewPayload?
  {
    e.found.Some? && forall h :: h in Hashes(e.decoded) ==> h in Hashes(e.found.value)
  }

  ghost predicate Reorderable(e: Event) {
    !e.Submit? && (e.NewPayload? ==> FoundValid(e))
  }

  ghost predicate AllReorderable(es: seq<Event>) {
    forall e :: e in es ==> Reorderable(e)
  }

  /** Whether the event expels `h` when it happens first. */
  ghost predicate Expels(s: Node, e: Event, h: Hash) {
    match e
    case NewPayload(_, Some(txs)) => h in Hashes(txs)
    case ForkchoiceUpdated(Some(head)) => s.kasplex && Expelled(View(s.numbers, h), head)
    case _ => false
  }

  ghost predicate Consumes(e: Event, h: Hash) {
    e.NewPayload? && h in Hashes(e.decoded)
  }

  ghost predicate Expelling(s: Node, es: seq<Event>, h: Hash) {
    exists e :: e in es && Expels(s, e, h)
  }

  ghost function Gone(s: Node, es: seq<Event>): iset<Hash> {
    iset h: Hash | Expelling(s, es, h)
  }

  ghost predicate Zeroed(es: seq<Event>, h: Hash) {
    exists e :: e in es && Consumes(e, h)
  }

  /** The closed form of a run between two submissions, in terms of its first state alone. */
  ghost predicate ClosedForm(s: Node, es: seq<Event>, t: Node) {
    && t.kasplex == s.kasplex
    && t.pending == Keep(s.pending, Gone(s, es))
    && t.queued == Keep(s.queued, Gone(s, es))
    && forall h: Hash {:trigger View(t.numbers, h)} ::
         View(t.numbers, h) == if Zeroed(es, h) then 0 else View(s.numbers, h)
  }

  lemma {:induction false} RunClosedForm(s: Node, es: seq<Event>)
    requires AllReorderable(es)
    ensures ClosedForm(s, es, Run(s, es))
  {
    if es == [] {
      KeepAll(s.pending, Gone(s, es));
      KeepAll(s.queued, Gone(s, es));
    } else {
      var front, e := es[..|es| - 1], es[|es| - 1];
      assert es == front + [e];
      assert Reorderable(e);
      RunClosedForm(s, front);
      ViewAfter(s, front, Run(s, front), e);
      PoolAfter(s, front, Run(s, front), e);
    }
  }

  lemma ViewAfter(s: Node, es: seq<Event>, t: Node, e: Event)
    requires Reorderable(e) && ClosedForm(s, es, t)
    ensures forall h: Hash {:trigger View(Step(t, e).numbers, h)} ::
      View(Step(t, e).numbers, h) == if Zeroed(es + [e], h) then 0 else View(s.numbers, h)
  {
    forall h: Hash
      ensures View(Step(t, e).numbers, h) == if Zeroed(es + [e], h) then 0 else View(s.numbers, h)
    {
      ZeroedNext(es, e, h);
      StepView(t, e, h);
    }
  }

  lemma ZeroedNext(es: seq<Event>, e: Event, h: Hash)
    ensures Zeroed(es + [e], h) <==> Zeroed(es, h) || Consumes(e, h)
  {
    assert e in es + [e];
    assert forall x :: x in es ==> x in es + [e];
  }

  lemma StepView(t: Node, e: Event, h: Hash)
    requires !e.Submit?
    ensures View(Step(t, e).numbers, h) == if Consumes(e, h) then 0 else View(t.numbers, h)
  {
  }

  lemma PoolAfter(s: Node, es: seq<Event>, t: Node, e: Event)
    requires AllReorderable(es) && Reorderable(e) && ClosedForm(s, es, t)
    ensures Step(t, e).kasplex == s.kasplex
    ensures Step(t, e).pending == Keep(s.pending, Gone(s, es + [e]))
    ensures Step(t, e).queued == Keep(s.queued, Gone(s, es + [e]))
  {
    var now := iset h: Hash | Expels(t, e, h);
    forall h: Hash
      ensures h in Gone(s, es) + now <==> h in Gone(s, es + [e])
    {
      GoneNext(s, es, t, e, h);
    }
    assert Gone(s, es) + now == Gone(s, es + [e]);
    StepPrunes(t, e, now);
    KeepKeep(s.pending, Gone(s, es), now);
    KeepKeep(s.queued, Gone(s, es), now);
  }

  // A step removes from the pool exactly what it expels.
  lemma StepPrunes(t: Node, e: Event, now: iset<Hash>)
    requires !e.Submit? && now == iset h: Hash | Expels(t, e, h)
    ensures Step(t, e).kasplex == t.kasplex
    ensures Step(t, e).pending == Keep(t.pending, now) && Step(t, e).queued == Keep(t.queued, now)
  {
    match e
    case NewPayload(_, Some(txs)) => assert now == Listed(Hashes(txs));
    case ForkchoiceUpdated(Some(head)) =>
      if t.kasplex {
        assert now == Expired(t.numbers, head);
      } else {
        KeepAll(t.pending, now);
        KeepAll(t.queued, now);
      }
    case _ =>
      KeepAll(t.pending, now);
      KeepAll(t.queued, now);
  }

  // A number consumed earlier belongs to a transaction that is gone already, so judging by the
  // first state instead of the current one changes nothing.
  lemma GoneNext(s: Node, es: seq<Event>, t: Node, e: Event, h: Hash)
    requires AllReorderable(es) && ClosedForm(s, es, t)
    ensures h in Gone(s, es) || Expels(t, e, h) <==> h in Gone(s, es + [e])
  {
    assert e in es + [e];
    assert forall x :: x in es + [e] <==> x in es || x == e;
    if Zeroed(es, h) {
      var x :| x in es && Consumes(x, h);
      assert Reorderable(x);
      assert Expels(s, x, h);
    } else {
      assert View(t.numbers, h) == View(s.numbers, h);
    }
  }

  /** Between two submissions, with found valid blocks, the pool and every number that a reader
      sees depend only on which events happened: neither their order nor repetition matters. */
  lemma OrderIndependence(s: Node, es: seq<Event>, fs: seq<Event>)
    requires AllReorderable(es)
    requires forall e :: e in es <==> e in fs
    ensures SameToReaders(Run(s, es), Run(s, fs))
  {
    RunClosedForm(s, es);
    RunClosedForm(s, fs);
    assert forall h: Hash :: Expelling(s, es, h) <==> Expelling(s, fs, h);
    assert Gone(s, es) == Gone(s, fs);
    forall h: Hash
      ensures View(Run(s, es).numbers, h) == View(Run(s, fs).numbers, h)
    {
      assert Zeroed(es, h) <==> Zeroed(fs, h);
    }
  }

  // In particular any rearrangement of the events gives the same result.
  lemma PermutationIndependence(s: Node, es: seq<Event>, fs: seq<Event>)
    requires AllReorderable(es) && multiset(es) == multiset(fs)
    ensures SameToReaders(Run(s, es), Run(s, fs))
  {
    forall e
      ensures e in es <==> e in fs
    {
      assert e in es <==> e in multiset(es);
    }
    OrderIndependence(s, es, fs);
  }

  /** A transaction whose number a payload consumes, that is not removed with the block, and that
      the head would expel. */
  ghost predicate Stranded(s: Node, decoded: seq<Tx>, found: Option<seq<Tx>>, head: U64, h: Hash) {
    && h in Hashes(decoded)
    && !(found.Some? && h in Hashes(found.value))
    && Expelled(View(s.numbers, h), head)
  }

  /** Without the found-valid assumption a payload and a forkchoice update commute exactly when
      they strand no pool transaction: a stranded one survives if the payload comes first and is
      pruned if it comes second. */
  lemma PayloadForkchoiceCommute(s: Node, decoded: seq<Tx>, found: Option<seq<Tx>>, head: U64)
    requires s.kasplex
    ensures var p, f := NewPayload(decoded, found), ForkchoiceUpdated(Some(head));
      SameToReaders(Run(s, [p, f]), Run(s, [f, p]))
      <==> forall tx :: InPool(s, tx) ==> !Stranded(s, decoded, found, head, tx.hash)
  {
    var p, f := NewPayload(decoded, found), ForkchoiceUpdated(Some(head));
    CommuteViews(s, decoded, found, head);
    TwoSteps(s, p, f);
    TwoSteps(s, f, p);
    SubpoolCommute(s, decoded, found, head, s.pending);
    SubpoolCommute(s, decoded, found, head, s.queued);
    assert (forall tx :: InPool(s, tx) ==> !Stranded(s, decoded, found, head, tx.hash)) <==>
           (forall tx :: tx in s.pending ==> !Stranded(s, decoded, found, head, tx.hash))
           && (forall tx :: tx in s.queued ==> !Stranded(s, decoded, found, head, tx.hash));
  }

  ghost function ExpelledBy(s: Node, e: Event): iset<Hash> {
    iset h: Hash | Expels(s, e, h)
  }

  lemma SubpoolCommute(s: Node, decoded: seq<Tx>, found: Option<seq<Tx>>, head: U64, txs: seq<Tx>)
    requires s.kasplex
    ensures var p, f := NewPayload(decoded, found), ForkchoiceUpdated(Some(head));
      Keep(txs, ExpelledBy(s, p) + ExpelledBy(Step(s, p), f)) == Keep(txs, ExpelledBy(s, f) + ExpelledBy(Step(s, f), p))
      <==> forall tx :: tx in txs ==> !Stranded(s, decoded, found, head, tx.hash)
  {
    var p, f := NewPayload(decoded, found), ForkchoiceUpdated(Some(head));
    var a := ExpelledBy(s, p) + ExpelledBy(Step(s, p), f);
    var b := ExpelledBy(s, f) + ExpelledBy(Step(s, f), p);
    CommuteViews(s, decoded, found, head);
    forall h: Hash
      ensures (h in a <==> h in b) <==> !Stranded(s, decoded, found, head, h)
    {
      assert View(Step(s, p).numbers, h) == if h in Hashes(decoded) then 0 else View(s.numbers, h);
    }
    KeepEqual(txs, a, b);
  }

  lemma CommuteViews(s: Node, decoded: seq<Tx>, found: Option<seq<Tx>>, head: U64)
    ensures var p, f := NewPayload(decoded, found), ForkchoiceUpdated(Some(head));
      forall h: Hash ::
        && View(Step(Step(s, p), f).numbers, h) == View(Step(Step(s, f), p).numbers, h)
        && View(Step(s, p).numbers, h) == if h in Hashes(decoded) then 0 else View(s.numbers, h)
  {
    var p, f := NewPayload(decoded, found), ForkchoiceUpdated(Some(head));
    forall h: Hash
      ensures View(Step(Step(s, p), f).numbers, h) == View(Step(Step(s, f), p).numbers, h)
      ensures View(Step(s, p).numbers, h) == if h in Hashes(decoded) then 0 else View(s.numbers, h)
    {
      StepView(s, p, h);
      StepView(s, f, h);
      StepView(Step(s, p), f, h);
      StepView(Step(s, f), p, h);
    }
  }

  lemma TwoSteps(s: Node, p: Event, f: Event)
    requires !p.Submit? && !f.Submit?
    ensures Run(s, [p, f]) == Step(Step(s, p), f)
    ensures Run(s, [p, f]).pending == Keep(s.pending, ExpelledBy(s, p) + ExpelledBy(Step(s, p), f))
    ensures Run(s, [p, f]).queued == Keep(s.queued, ExpelledBy(s, p) + ExpelledBy(Step(s, p), f))
  {
    assert [p, f][..1] == [p] && [p][..0] == [];
    assert Run(s, [p]) == Step(Run(s, []), p);
    StepPrunes(s, p, ExpelledBy(s, p));
    StepPrunes(Step(s, p), f, ExpelledBy(Step(s, p), f));
    KeepKeep(s.pending, ExpelledBy(s, p), ExpelledBy(Step(s, p), f));
    KeepKeep(s.queued, ExpelledBy(s, p), ExpelledBy(Step(s, p), f));
  }

  // Two filters agree on a list exactly when they agree on its hashes.
  lemma KeepEqual(txs: seq<Tx>, a: iset<Hash>, b: iset<Hash>)
    ensures Keep(txs, a) == Keep(txs, b) <==> forall tx :: tx in txs ==> (tx.hash in a <==> tx.hash in b)
  {
    if forall tx :: tx in txs ==> (tx.hash in a <==> tx.hash in b) {
      KeepAgree(txs, a, b);
    }
    if Keep(txs, a) == Keep(txs, b) {
      forall tx | tx in txs
        ensures tx.hash in a <==> tx.hash in b
      {
        KeepMember(txs, a, tx);
        KeepMember(txs, b, tx);
      }
    }
  }

  // ---------------------------------------------------------------- survival

  /** The event is not about `h`: it neither submits it nor carries it in a payload or block. */
  ghost predicate LeavesAlone(e: Event, h: Hash) {
    match e
    case Submit(tx, _, _) => tx.hash != h
    case NewPayload(decoded, found) => h !in Hashes(decoded) && (found.Some? ==> h !in Hashes(found.value))
    case _ => true
  }

  /** The heads the run's forkchoice updates resolved. */
  ghost function Heads(es: seq<Event>): iset<U64> {
    iset head: U64 | ForkchoiceUpdated(Some(head)) in es
  }

  lemma StepSurvival(s: Node, e: Event, tx: Tx)
    requires s.kasplex && LeavesAlone(e, tx.hash)
    ensures View(Step(s, e).numbers, tx.hash) == View(s.numbers, tx.hash)
    ensures InPool(Step(s, e), tx) <==>
            InPool(s, tx) && forall head :: head in Heads([e]) ==> !Expelled(View(s.numbers, tx.hash), head)
  {
    match e
    case NewPayload(_, Some(txs)) =>
      KeepMember(s.pending, Listed(Hashes(txs)), tx);
      KeepMember(s.queued, Listed(Hashes(txs)), tx);
    case ForkchoiceUpdated(Some(head)) =>
      assert head in Heads([e]);
      KeepMember(s.pending, Expired(s.numbers, head), tx);
      KeepMember(s.queued, Expired(s.numbers, head), tx);
    case _ =>
  }

  lemma {:induction false} RunSurvival(s: Node, es: seq<Event>, tx: Tx)
    requires s.kasplex && forall e :: e in es ==> LeavesAlone(e, tx.hash)
    ensures Run(s, es).kasplex
    ensures View(Run(s, es).numbers, tx.hash) == View(s.numbers, tx.hash)
    ensures InPool(Run(s, es), tx) <==>
            InPool(s, tx) && forall head :: head in Heads(es) ==> !Expelled(View(s.numbers, tx.hash), head)
  {
    if es != [] {
      var front, e := es[..|es| - 1], es[|es| - 1];
      assert es == front + [e];
      RunSurvival(s, front, tx);
      assert LeavesAlone(e, tx.hash);
      StepSurvival(Run(s, front), e, tx);
      assert Heads(es) == Heads(front) + Heads([e]);
    }
  }

  /** A transaction submitted while the head was `n`, that the pool then holds, and that is later
      neither resubmitted nor carried by a payload or block, survives any run exactly when every
      new head lies in [n+1, n+101].  It does not matter whether this submission brought it into
      the pool or was refused because it was there already.  A forkchoice update that repeats
      head `n` already expels it.  At the top of the number range the stamp wraps to zero (always
      spared) or its window does (no head is survived). */
  lemma StampedSurvival(s: Node, tx: Tx, n: U64, admission: Admission, es: seq<Event>)
    requires s.kasplex && tx.fee.MaxFeePerGas() >= KASPLEX_BASE_FEE && (admission != NotAdmitted || InPool(s, tx))
    requires forall e :: e in es ==> LeavesAlone(e, tx.hash)
    ensures InPool(Run(Step(s, Submit(tx, Some(n), admission)), es), tx) <==>
            forall head :: head in Heads(es) ==>
              n == TWO_64 - 1 || (n + 101 < TWO_64 && n + 1 <= head <= n + 101)
  {
    var t := Step(s, Submit(tx, Some(n), admission));
    assert InPool(t, tx) && View(t.numbers, tx.hash) == WrapU64(n + 1);
    RunSurvival(t, es, tx);
    forall head | head in Heads(es)
      ensures !Expelled(WrapU64(n + 1), head) <==>
              n == TWO_64 - 1 || (n + 101 < TWO_64 && n + 1 <= head <= n + 101)
    {
      ExpiryWindow(WrapU64(n + 1), head);
    }
  }

  // ---------------------------------------------------------------- the numbers stay small

  /** The highest head any submission or forkchoice update of the run has seen. */
  ghost function Peak(es: seq<Event>): nat {
    if es == [] then 0 else Max(Peak(es[..|es| - 1]), HeadOf(es[|es| - 1]))
  }

  ghost function HeadOf(e: Event): nat {
    match e
    case Submit(_, latest, _) => latest.GetOr(0)
    case ForkchoiceUpdated(head) => head.GetOr(0)
    case _ => 0
  }

  ghost function Max(a: nat, b: nat): nat {
    if a <= b then b else a
  }

  /** From an empty map, every stored number is at most one above the highest head seen; so while
      heads stay below 2^64 - 101 the pruning window never wraps. */
  lemma {:induction false} NumbersFollowHeads(s: Node, es: seq<Event>, h: Hash)
    requires s.numbers == map[]
    ensures View(Run(s, es).numbers, h) <= Peak(es) + 1
    ensures Peak(es) < TWO_64 - 101 ==> View(Run(s, es).numbers, h) + UNEXECUTED_TX_RETENTION_BLOCKS < TWO_64
  {
    if es != [] {
      var front, e := es[..|es| - 1], es[|es| - 1];
      NumbersFollowHeads(s, front, h);
      if !e.Submit? {
        StepView(Run(s, front), e, h);
      }
    }
  }
}
