/** The Cosmos SDK's single-denomination validator, the shape legacy consumers
    (slashing, governance, queries) are written against. */
module CosmosStakingTypes {
  import opened StakingCommon

  /** A legacy validator view. `tokens` and `delegatorShares` are the scalar stake
      and shares of the single-denomination accounting model. */
  datatype Validator = Validator(
    operatorAddress: string,
    consensusPubkey: PubKeyAny,
    jailed: bool,
    status: BondStatus,
    tokens: int,
    delegatorShares: LegacyDec,
    description: Description,
    unbondingHeight: int64,
    unbondingTime: Timestamp,
    commission: CommissionRates,
    minSelfDelegation: int,
    unbondingOnHoldRefCount: int64,
    unbondingIds: seq<uint64>)
}
