/** From payload to block in the engine, with the effects on the shared number map. */
module Validator {
  import opened Machine
  import opened Transactions
  import opened Numbers
  import opened Blocks

  datatype NewPayloadError = Malformed(error: PayloadError) | BlockHashMismatch(execution: Hash, consensus: Hash) | NoSigner

  /** Numbers of the block are read and stored back; the payload carries the block. */
  method BlockToPayload(c: Codec, mapping: TxMapping, b: Block) returns (p: ExecutionPayload)
    modifies mapping`mapping
    ensures p == V1(FromBlock(c, c.headerHash(b.header), b))
    ensures mapping.mapping == WrittenBack(old(mapping.mapping), Hashes(b.transactions))
  {
    var hashes := Hashes(b.transactions);
    var numbers := NumbersOf(mapping.mapping, hashes);
    var payload := FromBlock(c, c.headerHash(b.header), b);
    AssignedIsWriteBack(mapping.mapping, hashes);
    mapping.AssignAll(hashes, numbers);
    p := V1(payload);
  }

  /** Converting a block twice stores nothing new and reports the same numbers. */
  lemma ConversionIdempotent(m: NumberMap, hs: seq<Hash>)
    ensures WrittenBack(WrittenBack(m, hs), hs) == WrittenBack(m, hs)
    ensures NumbersOf(WrittenBack(m, hs), hs) == NumbersOf(m, hs)
  {
    assert forall h :: View(WrittenBack(m, hs), h) == View(m, h);
  }

  /** A decoded payload leaves the original map without exactly the block's hashes, whichever
      branch the sidecar's numbers took; a payload that does not decode leaves it alone. */
  method ProcessKasplexExecutionData(c: Codec, mapping: TxMapping, payload: ExecutionPayload, sidecar: Option<seq<U64>>)
    returns (r: Result<Block, PayloadError>)
    modifies mapping`mapping
    ensures r == RestoredBlock(c, payload)
    ensures r.Err? ==> mapping.mapping == old(mapping.mapping)
    ensures r.Ok? ==> mapping.mapping == Consumed(old(mapping.mapping), Hashes(r.value.transactions))
  {
    if payload.LaterVersion? {
      return Err(NotV1);
    }
    var converted := TryIntoBlock(c, payload.v1);
    if converted.Err? {
      return Err(converted.error);
    }
    var block := converted.value;
    if block.header.withdrawalsRoot.None? {
      block := block.(header := block.header.(withdrawalsRoot := Some(EMPTY_WITHDRAWALS)));
    }
    var hashes := Hashes(block.transactions);
    if sidecar.Some? {
      var numbers := sidecar.value;
      if numbers != [] && |numbers| == |hashes| {
        ConsumeAfterAssign(mapping.mapping, hashes, numbers, hashes);
        mapping.AssignAll(hashes, numbers);
      }
    }
    mapping.ConsumeAll(hashes);
    r := Ok(block);
  }

  /** The block a payload is accepted as. */
  ghost function AcceptedBlock(c: Codec, payload: ExecutionPayload): Result<Block, NewPayloadError> {
    match RestoredBlock(c, payload)
    case Err(e) => Err(Malformed(e))
    case Ok(b) =>
      var claimed := payload.v1.blockHash;
      var computed := c.headerHash(b.header);
      if claimed != 0 && claimed != computed then Err(BlockHashMismatch(computed, claimed))
      else if forall tx :: tx in b.transactions ==> c.signed(tx) then Ok(b)
      else Err(NoSigner)
  }

  /** The numbers are consumed before the hash is compared: a payload with a wrong hash is refused
      and its transactions' numbers are gone all the same. */
  method EnsureWellFormedPayload(c: Codec, mapping: TxMapping, payload: ExecutionPayload)
    returns (r: Result<Block, NewPayloadError>)
    modifies mapping`mapping
    ensures r == AcceptedBlock(c, payload)
    ensures match RestoredBlock(c, payload)
            case Err(e) => r == Err(Malformed(e))
            case Ok(b) =>
              var claimed, computed := payload.v1.blockHash, c.headerHash(b.header);
              var signed := forall tx :: tx in b.transactions ==> c.signed(tx);
              && (r == Ok(b) <==> (claimed == 0 || claimed == computed) && signed)
              && (r == Err(BlockHashMismatch(computed, claimed)) <==> claimed != 0 && claimed != computed)
              && (r == Err(NoSigner) <==> (claimed == 0 || claimed == computed) && !signed)
    ensures mapping.mapping == match RestoredBlock(c, payload)
                               case Ok(b) => Consumed(old(mapping.mapping), Hashes(b.transactions))
                               case Err(_) => old(mapping.mapping)
  {
    var claimed: Hash := if payload.V1? then payload.v1.blockHash else 0;
    var processed := ProcessKasplexExecutionData(c, mapping, payload, None);
    if processed.Err? {
      return Err(Malformed(processed.error));
    }
    var block := processed.value;
    var blockHash := c.headerHash(block.header);
    var expectedHash := if claimed == 0 then blockHash else claimed;
    if expectedHash != blockHash {
      return Err(BlockHashMismatch(blockHash, expectedHash));
    }
    var recovered := TryRecover(c, block);
    r := if recovered then Ok(block) else Err(NoSigner);
  }

  method TryRecover(c: Codec, b: Block) returns (ok: bool)
    ensures ok <==> forall tx :: tx in b.transactions ==> c.signed(tx)
  {
    for i := 0 to |b.transactions|
      invariant forall j :: 0 <= j < i ==> c.signed(b.transactions[j])
    {
      if !c.signed(b.transactions[i]) {
        return false;
      }
    }
    ok := true;
  }

  /** The payload made from a representable block passes the hash check and is accepted as that block
      without ommers and withdrawals. */
  lemma OwnPayloadAccepted(c: Codec, b: Block)
    requires RoundTrips(c) && b.header.transactionsRoot == c.transactionsRoot(EncodeAll(c, b.transactions))
    requires PayloadShaped(b.header) && forall tx :: tx in b.transactions ==> c.signed(tx)
    ensures AcceptedBlock(c, V1(FromBlock(c, c.headerHash(b.header), b))) == Ok(WithoutExtras(b))
  {
    PayloadRoundTrip(c, b, c.headerHash(b.header));
  }

  /** The same payload under another hash is accepted if and only if the hash is zero; otherwise the
      refusal names both hashes. */
  lemma ForeignHashRefused(c: Codec, b: Block, h: Hash)
    requires RoundTrips(c) && b.header.transactionsRoot == c.transactionsRoot(EncodeAll(c, b.transactions))
    requires PayloadShaped(b.header) && forall tx :: tx in b.transactions ==> c.signed(tx)
    ensures var r := AcceptedBlock(c, V1(FromBlock(c, h, b)));
      && (r == Ok(WithoutExtras(b)) <==> h == 0 || h == c.headerHash(b.header))
      && (r == Err(BlockHashMismatch(c.headerHash(b.header), h)) <==> h != 0 && h != c.headerHash(b.header))
  {
    PayloadRoundTrip(c, b, h);
  }
}
