/** Headers, blocks and execution payloads, and the functions that turn one into another. */
module Blocks {
  import opened Machine
  import opened Balances
  import opened Transactions

  type Bytes = seq<bv8>

  const EMPTY_OMMER_ROOT_HASH: Hash := 0x1dcc4de8dec75d7aab85b567b6ccd41ad312451b948a7413f0a142fd40d49347
  const EMPTY_WITHDRAWALS: Hash := 0x56e81f171bcc55a6ff8345e692c0f86e5b48e01b996cadc001622fb5e363b421
  const BEACON_NONCE: U64 := 0
  const MAXIMUM_EXTRA_DATA_SIZE: nat := 32

  datatype Header = Header(
    parentHash: Hash,
    ommersHash: Hash,
    beneficiary: Address,
    stateRoot: Hash,
    transactionsRoot: Hash,
    receiptsRoot: Hash,
    withdrawalsRoot: Option<Hash>,
    logsBloom: nat,
    timestamp: U64,
    mixHash: Hash,
    nonce: U64,
    baseFeePerGas: Option<U64>,
    number: U64,
    gasLimit: U64,
    difficulty: U256,
    gasUsed: U64,
    extraData: Bytes,
    parentBeaconBlockRoot: Option<Hash>,
    blobGasUsed: Option<U64>,
    excessBlobGas: Option<U64>,
    requestsHash: Option<Hash>)

  datatype Block = Block(header: Header, transactions: seq<Tx>, ommers: seq<Header>, withdrawals: Option<seq<nat>>)

  datatype ExecutionPayloadV1 = ExecutionPayloadV1(
    parentHash: Hash,
    feeRecipient: Address,
    stateRoot: Hash,
    receiptsRoot: Hash,
    logsBloom: nat,
    prevRandao: Hash,
    blockNumber: U64,
    gasLimit: U64,
    gasUsed: U64,
    timestamp: U64,
    extraData: Bytes,
    baseFeePerGas: U256,
    blockHash: Hash,
    transactions: seq<Bytes>)

  datatype ExecutionPayload = V1(v1: ExecutionPayloadV1) | LaterVersion

  datatype PayloadError = ExtraDataTooLong | BaseFeeTooLarge | Undecodable | NotV1

  /** Encodings and hashes are unknown functions; `signed` says whether a signer is recovered. */
  datatype Codec = Codec(
    encode: Tx -> Bytes,
    decode: Bytes -> Option<Tx>,
    transactionsRoot: seq<Bytes> -> Hash,
    headerHash: Header -> Hash,
    signed: Tx -> bool)

  /** All that is assumed of a codec. */
  ghost predicate RoundTrips(c: Codec) {
    forall tx: Tx :: c.decode(c.encode(tx)) == Some(tx)
  }

  function EncodeAll(c: Codec, txs: seq<Tx>): (bs: seq<Bytes>)
    ensures |bs| == |txs| && forall i :: 0 <= i < |txs| ==> bs[i] == c.encode(txs[i])
  {
    seq(|txs|, i requires 0 <= i < |txs| => c.encode(txs[i]))
  }

  function DecodeAll(c: Codec, bs: seq<Bytes>): Option<seq<Tx>> {
    if bs == [] then Some([])
    else
      match (DecodeAll(c, bs[..|bs| - 1]), c.decode(bs[|bs| - 1]))
      case (Some(front), Some(tx)) => Some(front + [tx])
      case _ => None
  }

  lemma {:induction false} DecodeEncodeAll(c: Codec, txs: seq<Tx>)
    requires RoundTrips(c)
    ensures DecodeAll(c, EncodeAll(c, txs)) == Some(txs)
  {
    if txs != [] {
      var n := |txs| - 1;
      DecodeEncodeAll(c, txs[..n]);
      assert EncodeAll(c, txs)[..n] == EncodeAll(c, txs[..n]);
      assert txs == txs[..n] + [txs[n]];
    }
  }

  // ---------------------------------------------------------------- assembling a block

  datatype BlockEnv = BlockEnv(
    number: U64,
    beneficiary: Address,
    timestamp: U64,
    gasLimit: U64,
    basefee: U64,
    difficulty: U256,
    prevrandao: Option<Hash>)

  datatype ExecutionCtx = ExecutionCtx(parentHash: Hash, parentBeaconBlockRoot: Option<Hash>, extraData: Bytes)

  /** Roots that execution computes. */
  datatype Output = Output(stateRoot: Hash, receiptsRoot: Hash, logsBloom: nat, gasUsed: U64)

  function AssembleBlock(c: Codec, env: BlockEnv, ctx: ExecutionCtx, transactions: seq<Tx>, output: Output): Block {
    var header := Header(
      ctx.parentHash,
      EMPTY_OMMER_ROOT_HASH,
      env.beneficiary,
      output.stateRoot,
      c.transactionsRoot(EncodeAll(c, transactions)),
      output.receiptsRoot,
      Some(EMPTY_WITHDRAWALS),
      output.logsBloom,
      env.timestamp,
      env.prevrandao.GetOr(0),
      BEACON_NONCE,
      Some(env.basefee),
      env.number,
      env.gasLimit,
      env.difficulty,
      output.gasUsed,
      ctx.extraData,
      ctx.parentBeaconBlockRoot,
      None, None, None);
    Block(header, transactions, [], Some([]))
  }

  // ---------------------------------------------------------------- blocks and payloads

  /** `ExecutionPayloadV1::from_block_unchecked`. */
  function FromBlock(c: Codec, blockHash: Hash, b: Block): ExecutionPayloadV1 {
    var h := b.header;
    ExecutionPayloadV1(
      h.parentHash, h.beneficiary, h.stateRoot, h.receiptsRoot, h.logsBloom, h.mixHash, h.number,
      h.gasLimit, h.gasUsed, h.timestamp, h.extraData, h.baseFeePerGas.GetOr(0), blockHash,
      EncodeAll(c, b.transactions))
  }

  /** `try_into_block`: fields a V1 payload does not carry get their post-merge constants. */
  function TryIntoBlock(c: Codec, p: ExecutionPayloadV1): Result<Block, PayloadError> {
    if |p.extraData| > MAXIMUM_EXTRA_DATA_SIZE then Err(ExtraDataTooLong)
    else if p.baseFeePerGas >= TWO_64 then Err(BaseFeeTooLarge)
    else
      match DecodeAll(c, p.transactions)
      case None => Err(Undecodable)
      case Some(txs) =>
        var header := Header(
          p.parentHash,
          EMPTY_OMMER_ROOT_HASH,
          p.feeRecipient,
          p.stateRoot,
          c.transactionsRoot(p.transactions),
          p.receiptsRoot,
          None,
          p.logsBloom,
          p.timestamp,
          p.prevRandao,
          0,
          Some(p.baseFeePerGas),
          p.blockNumber,
          p.gasLimit,
          0,
          p.gasUsed,
          p.extraData,
          None, None, None, None);
        Ok(Block(header, txs, [], None))
  }

  /** The block behind a payload, with the withdrawals root Kasplex blocks carry. */
  function RestoredBlock(c: Codec, p: ExecutionPayload): Result<Block, PayloadError> {
    match p
    case LaterVersion => Err(NotV1)
    case V1(v1) =>
      var b :- TryIntoBlock(c, v1);
      Ok(if b.header.withdrawalsRoot.None? then b.(header := b.header.(withdrawalsRoot := Some(EMPTY_WITHDRAWALS))) else b)
  }

  /** The headers that a V1 payload can represent. */
  ghost predicate PayloadShaped(h: Header) {
    && h.ommersHash == EMPTY_OMMER_ROOT_HASH
    && h.withdrawalsRoot == Some(EMPTY_WITHDRAWALS)
    && h.nonce == 0 && h.difficulty == 0
    && h.baseFeePerGas.Some?
    && |h.extraData| <= MAXIMUM_EXTRA_DATA_SIZE
    && h.parentBeaconBlockRoot.None? && h.blobGasUsed.None? && h.excessBlobGas.None? && h.requestsHash.None?
  }

  /** The header with the constants in the fields that a payload does not carry. */
  function Shaped(h: Header): Header {
    h.(ommersHash := EMPTY_OMMER_ROOT_HASH, withdrawalsRoot := Some(EMPTY_WITHDRAWALS), nonce := 0, difficulty := 0,
       baseFeePerGas := Some(h.baseFeePerGas.GetOr(0)), parentBeaconBlockRoot := None,
       blobGasUsed := None, excessBlobGas := None, requestsHash := None)
  }

  /** What a payload does not carry of a block's body: ommers and withdrawals. */
  function WithoutExtras(b: Block): Block {
    b.(ommers := [], withdrawals := None)
  }

  /** Converting a block to a payload and back gives the same header and transactions, with an empty
      ommer list and absent withdrawals, exactly for the representable headers; otherwise the
      payload is refused or the header has the constants in the fields the payload lacks. */
  lemma PayloadRoundTrip(c: Codec, b: Block, blockHash: Hash)
    requires RoundTrips(c) && b.header.transactionsRoot == c.transactionsRoot(EncodeAll(c, b.transactions))
    ensures var r := RestoredBlock(c, V1(FromBlock(c, blockHash, b)));
      && (r.Ok? <==> |b.header.extraData| <= MAXIMUM_EXTRA_DATA_SIZE)
      && (r.Ok? ==> r.value == WithoutExtras(b).(header := Shaped(b.header)))
      && (r == Ok(WithoutExtras(b)) <==> PayloadShaped(b.header))
  {
    DecodeEncodeAll(c, b.transactions);
  }

  /** Decoding gives exactly the entries decoded one by one. */
  lemma {:induction false} DecodeAllExact(c: Codec, bs: seq<Bytes>, txs: seq<Tx>)
    ensures DecodeAll(c, bs) == Some(txs) <==>
            |txs| == |bs| && forall i :: 0 <= i < |bs| ==> c.decode(bs[i]) == Some(txs[i])
  {
    if bs != [] {
      var n := |bs| - 1;
      if |txs| == |bs| {
        DecodeAllExact(c, bs[..n], txs[..n]);
        assert txs == txs[..n] + [txs[n]];
      } else if DecodeAll(c, bs[..n]).Some? {
        DecodeAllExact(c, bs[..n], DecodeAll(c, bs[..n]).value);
      }
    }
  }

  // It fails exactly when some entry does not decode.
  lemma {:induction false} DecodeAllFails(c: Codec, bs: seq<Bytes>)
    ensures DecodeAll(c, bs).None? <==> exists b :: b in bs && c.decode(b).None?
  {
    if bs != [] {
      var n := |bs| - 1;
      assert bs == bs[..n] + [bs[n]];
      DecodeAllFails(c, bs[..n]);
    }
  }

  /** What any payload is read back as: which one is refused and why, and a block whose own payload
      is the given one again, up to the encoding of its transactions. */
  lemma RestoredExactly(c: Codec, p: ExecutionPayloadV1)
    ensures RestoredBlock(c, LaterVersion) == Err(NotV1)
    ensures var r := RestoredBlock(c, V1(p));
      && (r == Err(ExtraDataTooLong) <==> |p.extraData| > 32)
      && (r == Err(BaseFeeTooLarge) <==> |p.extraData| <= 32 && p.baseFeePerGas >= TWO_64)
      && (r == Err(Undecodable) <==> |p.extraData| <= 32 && p.baseFeePerGas < TWO_64 && exists b :: b in p.transactions && c.decode(b).None?)
      && r != Err(NotV1)
      && (r.Ok? ==>
            && DecodeAll(c, p.transactions) == Some(r.value.transactions)
            && FromBlock(c, p.blockHash, r.value) == p.(transactions := EncodeAll(c, r.value.transactions))
            && PayloadShaped(r.value.header) && r.value == WithoutExtras(r.value)
            && r.value.header.transactionsRoot == c.transactionsRoot(p.transactions))
  {
    DecodeAllFails(c, p.transactions);
  }

  /** With one encoding for each transaction, payload to block and back is the identity. */
  lemma PayloadRestoresItself(c: Codec, p: ExecutionPayloadV1)
    requires forall b: Bytes :: c.decode(b).Some? ==> c.encode(c.decode(b).value) == b
    requires RestoredBlock(c, V1(p)).Ok?
    ensures FromBlock(c, p.blockHash, RestoredBlock(c, V1(p)).value) == p
  {
    var b := RestoredBlock(c, V1(p)).value;
    RestoredExactly(c, p);
    DecodeAllExact(c, p.transactions, b.transactions);
    assert EncodeAll(c, b.transactions) == p.transactions;
  }

  /** For an assembled block that is: no beacon root, zero difficulty and at most 32 bytes of extra
      data.  Its empty withdrawals list always comes back as an absent one.  The payload carries
      what execution produced and the job's environment asked for. */
  lemma AssembledRoundTrip(
    c: Codec, env: BlockEnv, ctx: ExecutionCtx, txs: seq<Tx>, output: Output, blockHash: Hash)
    requires RoundTrips(c)
    ensures var b := AssembleBlock(c, env, ctx, txs, output);
      var r := RestoredBlock(c, V1(FromBlock(c, blockHash, b)));
      && (r == Ok(b.(withdrawals := None))
          <==> ctx.parentBeaconBlockRoot.None? && env.difficulty == 0 && |ctx.extraData| <= MAXIMUM_EXTRA_DATA_SIZE)
      && r != Ok(b)
      && b.header.parentBeaconBlockRoot == ctx.parentBeaconBlockRoot && b.header.difficulty == env.difficulty
      && b.transactions == txs && b.ommers == [] && b.withdrawals == Some([])
    ensures var p := FromBlock(c, blockHash, AssembleBlock(c, env, ctx, txs, output));
      && p.parentHash == ctx.parentHash && p.extraData == ctx.extraData
      && p.stateRoot == output.stateRoot && p.receiptsRoot == output.receiptsRoot
      && p.logsBloom == output.logsBloom && p.gasUsed == output.gasUsed
      && p.feeRecipient == env.beneficiary && p.prevRandao == env.prevrandao.GetOr(0)
      && p.blockNumber == env.number && p.timestamp == env.timestamp
      && p.gasLimit == env.gasLimit && p.baseFeePerGas == env.basefee
      && p.blockHash == blockHash && DecodeAll(c, p.transactions) == Some(txs)
  {
    PayloadRoundTrip(c, AssembleBlock(c, env, ctx, txs, output), blockHash);
    DecodeEncodeAll(c, txs);
  }
}
