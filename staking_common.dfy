/** Values shared by Initia's multi-asset staking records and the Cosmos SDK's
    single-denomination staking view: fixed-width integers, opaque identities,
    decimals, and the error and result wrappers used by the store lookups. */
module StakingCommon {

  /** Go's `uint64`. */
  newtype uint64 = x: int | 0 <= x < 0x1_0000_0000_0000_0000

  /** Go's `int64`. */
  newtype int64 = x: int | -0x8000_0000_0000_0000 <= x < 0x8000_0000_0000_0000

  /** Go's `int32`. */
  newtype int32 = x: int | -0x8000_0000 <= x < 0x8000_0000

  /** `sdk.ValAddress` and `sdk.ConsAddress`: raw address bytes. */
  type ValAddress = seq<bv8>
  type ConsAddress = seq<bv8>

  /** The consensus public key, carried as a protobuf `Any` and never decoded here. */
  datatype PubKeyAny = PubKeyAny(typeUrl: string, value: seq<bv8>)

  /** A bond status, by its enum number; the cast between the two staking
      modules' enums keeps the number. */
  datatype BondStatus = BondStatus(code: int32)

  /** A wall-clock instant (`time.Time`), copied and never interpreted. */
  datatype Timestamp = Timestamp(seconds: int64, nanos: int32)

  /** Free-form validator metadata; both modules' descriptions have these fields. */
  datatype Description = Description(
    moniker: string,
    identity: string,
    website: string,
    securityContact: string,
    details: string)

  /** `math.LegacyDec`: a fixed-point decimal, the value being `scaled / 10^18`. */
  datatype LegacyDec = LegacyDec(scaled: int)

  /** `math.LegacyZeroDec()`. */
  function LegacyZeroDec(): LegacyDec {
    LegacyDec(0)
  }

  /** The three commission rates, treated as opaque decimals. */
  datatype CommissionRates = CommissionRates(rate: LegacyDec, maxRate: LegacyDec, maxChangeRate: LegacyDec)

  /** Errors reported by the store collaborators; the adapter propagates them and
      never inspects them. */
  datatype Error = ErrNoValidatorFound | StoreError(message: string)

  datatype Option<T> = None | Some(value: T)

  /** A Go `(value, error)` pair in which exactly one side is meaningful. */
  datatype Result<T> = Ok(value: T) | Err(error: Error)
}
