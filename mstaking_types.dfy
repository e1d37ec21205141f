/** The native validator record of Initia's multi-asset staking module
    (the fields the compatibility adapter reads). */
module MstakingTypes {
  import opened StakingCommon

  /** The first unbonding id that stands for a real unbonding hold; every smaller
      id means "no hold". Its value is defined outside this model, so it is
      declared here without one: every property is proved for any value. */
  const DefaultUnbondingIdStart: uint64

  /** A commission: its rates and the time they were last changed. */
  datatype Commission = Commission(commissionRates: CommissionRates, updateTime: Timestamp)

  /** A validator as the multi-asset staking store holds it. `votingPower` is the
      single effective power computed from all bonded denominations. */
  datatype Validator = Validator(
    operatorAddress: string,
    consensusPubkey: PubKeyAny,
    jailed: bool,
    status: BondStatus,
    votingPower: int,
    description: Description,
    unbondingHeight: int64,
    unbondingTime: Timestamp,
    commission: Commission,
    unbondingId: uint64)
}
