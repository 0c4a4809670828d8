/** Header rules, and what they give for a chain accepted link by link. */
module Consensus {
  import opened Machine
  import opened Transactions
  import opened Blocks

  const MAXIMUM_GAS_LIMIT_BLOCK: U64 := 0x7fff_ffff_ffff_ffff

  datatype ConsensusError =
    | DifficultyNotZero | NonceNotZero | OmmerRootNotEmpty | ExtraDataExceedsMax
    | GasUsedExceedsLimit | GasLimitTooHigh | BaseFeeMissing | BaseFeeDiff
    | ParentNumberMismatch | ParentHashMismatch | TimestampIsInPast

  function ValidateHeader(h: Header): Result<(), ConsensusError> {
    if h.difficulty != 0 then Err(DifficultyNotZero)
    else if h.nonce != 0 then Err(NonceNotZero)
    else if h.ommersHash != EMPTY_OMMER_ROOT_HASH then Err(OmmerRootNotEmpty)
    else if |h.extraData| > MAXIMUM_EXTRA_DATA_SIZE then Err(ExtraDataExceedsMax)
    else if h.gasUsed > h.gasLimit then Err(GasUsedExceedsLimit)
    else if h.gasLimit > MAXIMUM_GAS_LIMIT_BLOCK then Err(GasLimitTooHigh)
    else if h.baseFeePerGas.None? then Err(BaseFeeMissing)
    else if h.baseFeePerGas.value != KASPLEX_BASE_FEE then Err(BaseFeeDiff)
    else Ok(())
  }

  function ValidateHeaderAgainstParent(c: Codec, h: Header, parent: Header): Result<(), ConsensusError> {
    if WrapU64(parent.number + 1) != h.number then Err(ParentNumberMismatch)
    else if c.headerHash(parent) != h.parentHash then Err(ParentHashMismatch)
    else if h.baseFeePerGas.None? then Err(BaseFeeMissing)
    else if h.timestamp < parent.timestamp then Err(TimestampIsInPast)
    else if h.baseFeePerGas.value != KASPLEX_BASE_FEE then Err(BaseFeeDiff)
    else Ok(())
  }

  /** Every header after the first is accepted against its predecessor. */
  ghost predicate AcceptedChain(c: Codec, hs: seq<Header>) {
    forall i :: 0 < i < |hs| ==> ValidateHeaderAgainstParent(c, hs[i], hs[i - 1]).Ok?
  }

  /** The standalone rules, all of them and no other. */
  lemma HeaderExact(h: Header)
    ensures ValidateHeader(h).Ok? <==>
      && h.difficulty == 0 && h.nonce == 0 && h.ommersHash == EMPTY_OMMER_ROOT_HASH
      && |h.extraData| <= 32
      && h.gasUsed <= h.gasLimit < 0x8000_0000_0000_0000
      && h.baseFeePerGas == Some(2_000_000_000_000)
  {
  }

  /** `h` may follow `parent`: the next number (modulo 2^64), the parent's hash, the fixed base fee and
      no earlier timestamp. */
  ghost predicate Continues(c: Codec, h: Header, parent: Header) {
    && h.number == (parent.number + 1) % TWO_64
    && h.parentHash == c.headerHash(parent)
    && h.baseFeePerGas == Some(2_000_000_000_000)
    && h.timestamp >= parent.timestamp
  }

  /** Exactly these sequences of headers are accepted. */
  lemma AcceptedChainExact(c: Codec, hs: seq<Header>)
    ensures AcceptedChain(c, hs) <==> forall i :: 0 < i < |hs| ==> Continues(c, hs[i], hs[i - 1])
  {
    if AcceptedChain(c, hs) {
      forall i | 0 < i < |hs|
        ensures Continues(c, hs[i], hs[i - 1])
      {
        assert ValidateHeaderAgainstParent(c, hs[i], hs[i - 1]).Ok?;
      }
    }
    if forall i :: 0 < i < |hs| ==> Continues(c, hs[i], hs[i - 1]) {
      forall i | 0 < i < |hs|
        ensures ValidateHeaderAgainstParent(c, hs[i], hs[i - 1]).Ok?
      {
        assert Continues(c, hs[i], hs[i - 1]);
      }
    }
  }

  /** Unlike elsewhere, blocks may share one timestamp: a linked chain in which all do is accepted. */
  lemma EqualTimestampsAccepted(c: Codec, hs: seq<Header>, t: U64)
    requires forall i :: 0 <= i < |hs| ==> hs[i].timestamp == t
    requires forall i :: 0 < i < |hs| ==>
      && hs[i].number == (hs[i - 1].number + 1) % TWO_64
      && hs[i].parentHash == c.headerHash(hs[i - 1])
      && hs[i].baseFeePerGas == Some(2_000_000_000_000)
    ensures AcceptedChain(c, hs)
  {
    forall i | 0 < i < |hs|
      ensures Continues(c, hs[i], hs[i - 1])
    {
      assert hs[i].timestamp == hs[i - 1].timestamp;
    }
    AcceptedChainExact(c, hs);
  }

  /** A refusal names the first broken link rule, in the order number, hash, base fee present,
      timestamp, base fee value. */
  lemma LinkRefusals(c: Codec, h: Header, parent: Header)
    ensures var r := ValidateHeaderAgainstParent(c, h, parent);
      var next, linked := h.number == (parent.number + 1) % TWO_64, h.parentHash == c.headerHash(parent);
      && (r == Err(ParentNumberMismatch) <==> !next)
      && (r == Err(ParentHashMismatch) <==> next && !linked)
      && (r == Err(BaseFeeMissing) <==> next && linked && h.baseFeePerGas.None?)
      && (r == Err(TimestampIsInPast) <==>
            next && linked && h.baseFeePerGas.Some? && h.timestamp < parent.timestamp)
      && (r == Err(BaseFeeDiff) <==>
            next && linked && h.timestamp >= parent.timestamp
            && h.baseFeePerGas.Some? && h.baseFeePerGas != Some(2_000_000_000_000))
  {
  }

  /** Timestamps never decrease between any two headers, numbers count up from the first header
      (modulo 2^64), and the base fee is fixed from the second header on. */
  lemma {:induction false} ChainShape(c: Codec, hs: seq<Header>, i: nat, j: nat)
    requires AcceptedChain(c, hs) && i <= j < |hs|
    ensures hs[i].timestamp <= hs[j].timestamp
    ensures hs[j].number == WrapU64(hs[i].number + (j - i))
    ensures i < j ==> hs[j].parentHash == c.headerHash(hs[j - 1])
    ensures i < j ==> hs[j].baseFeePerGas == Some(KASPLEX_BASE_FEE)
    decreases j - i
  {
    if i < j {
      ChainShape(c, hs, i, j - 1);
      assert ValidateHeaderAgainstParent(c, hs[j], hs[j - 1]).Ok?;
      WrapAddU64(hs[i].number + (j - 1 - i), 1);
    }
  }

  /** A block whose header passes the standalone rules, has the Kasplex withdrawals root and none
      of the later forks' fields comes back from its payload as itself, without ommers and
      withdrawals. */
  lemma ValidHeaderSurvivesPayload(c: Codec, b: Block, blockHash: Hash)
    requires RoundTrips(c) && b.header.transactionsRoot == c.transactionsRoot(EncodeAll(c, b.transactions))
    requires ValidateHeader(b.header).Ok? && b.header.withdrawalsRoot == Some(EMPTY_WITHDRAWALS)
    requires b.header.parentBeaconBlockRoot.None? && b.header.requestsHash.None?
    requires b.header.blobGasUsed.None? && b.header.excessBlobGas.None?
    ensures RestoredBlock(c, V1(FromBlock(c, blockHash, b))) == Ok(WithoutExtras(b))
  {
    PayloadRoundTrip(c, b, blockHash);
  }
}
