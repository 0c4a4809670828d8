/** The two override cells through which a payload job hands its base fee and extra data to the
    construction of the next block.  Clones of a configuration share the cells. */
module Config {
  import opened Machine
  import opened Balances
  import opened Transactions
  import opened Blocks

  class OverrideCells {
    var extraData: Option<Bytes>
    var baseFee: Option<U64>

    constructor ()
      ensures extraData == None && baseFee == None
    {
      extraData, baseFee := None, None;
    }

    predicate Empty()
      reads this
    {
      extraData.None? && baseFee.None?
    }
  }

  /** What the library computes for the block after `parent` from the job's attributes. */
  datatype NextBlockAttributes = NextBlockAttributes(
    timestamp: U64,
    feeRecipient: Address,
    prevRandao: Hash,
    gasLimit: U64)

  datatype Parent = Parent(hash: Hash, number: U64, extraData: Bytes, nextBaseFee: U64)

  class EvmConfig {
    const cells: OverrideCells

    constructor New()
      ensures fresh(cells) && cells.extraData == None && cells.baseFee == None
    {
      cells := new OverrideCells();
    }

    constructor Clone(other: EvmConfig)
      ensures cells == other.cells
    {
      cells := other.cells;
    }

    method SetNextBlockExtraData(extraData: Bytes)
      modifies cells`extraData
      ensures cells.extraData == Some(extraData)
    {
      cells.extraData := Some(extraData);
    }

    method ClearNextBlockExtraData()
      modifies cells`extraData
      ensures cells.extraData == None
    {
      cells.extraData := None;
    }

    method SetNextBlockBaseFeePerGas(baseFee: U64)
      modifies cells`baseFee
      ensures cells.baseFee == Some(baseFee)
    {
      cells.baseFee := Some(baseFee);
    }

    method ClearNextBlockBaseFeePerGas()
      modifies cells`baseFee
      ensures cells.baseFee == None
    {
      cells.baseFee := None;
    }

    function NextEvmEnv(parent: Parent, attributes: NextBlockAttributes): BlockEnv
      reads cells
    {
      var env := BlockEnv(
        WrapU64(parent.number + 1), attributes.feeRecipient, attributes.timestamp,
        attributes.gasLimit, parent.nextBaseFee, 0, Some(attributes.prevRandao));
      if cells.baseFee.Some? then env.(basefee := cells.baseFee.value) else env
    }

    function ContextForNextBlock(parent: Parent): ExecutionCtx
      reads cells
    {
      ExecutionCtx(parent.hash, None, cells.extraData.GetOr(parent.extraData))
    }
  }

  /** The cells decide base fee and extra data where they are set, and the parent where they are not;
      everything else comes from the attributes and the parent whatever the cells hold. */
  lemma CellsDecide(config: EvmConfig, parent: Parent, a: NextBlockAttributes)
    ensures var env, ctx := config.NextEvmEnv(parent, a), config.ContextForNextBlock(parent);
      && env.basefee == (match config.cells.baseFee case Some(f) => f case None => parent.nextBaseFee)
      && ctx.extraData == (match config.cells.extraData case Some(d) => d case None => parent.extraData)
      && env.number == (parent.number + 1) % TWO_64 && env.beneficiary == a.feeRecipient
      && env.timestamp == a.timestamp && env.gasLimit == a.gasLimit
      && env.difficulty == 0 && env.prevrandao == Some(a.prevRandao)
      && ctx.parentHash == parent.hash && ctx.parentBeaconBlockRoot == None
  {
  }
}
