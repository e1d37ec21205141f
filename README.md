# Initia multi-asset staking: compatibility keeper

Initia's `mstaking` module lets validators be bonded with several token
denominations, and keeps per validator a single effective *voting power*.
Slashing, governance and the legacy query layers are written against the
Cosmos SDK staking interface instead, which sees a validator as one scalar
amount of *tokens* plus *delegator shares*. The compatibility keeper
(`x/mstaking/keeper/compatibility_keeper.go`) bridges the two:

- `Validator` and `ValidatorByConsAddr` look a validator up (by operator or by
  consensus address) and translate the native record into a legacy view;
- `TotalBondedTokens` sums the powers of the last validator set.

This project models that file in Dafny:

- `staking_common.dfy` (module `StakingCommon`): Go's fixed-width integers,
  addresses, the opaque identity, metadata and decimal values both sides share,
  and the `Result`/`Option` wrappers for Go's `(value, error)` returns.
- `mstaking_types.dfy` (module `MstakingTypes`): the native validator record
  and the constant `DefaultUnbondingIdStart`. That constant's value is defined
  outside this model, so it is declared without a value and every property
  holds whatever it is.
- `cosmos_staking_types.dfy` (module `CosmosStakingTypes`): the legacy
  validator view.
- `compatibility_keeper.dfy` (module `CompatibilityKeeper`): the three keeper
  operations, the predicate `IsLegacyViewOf` that defines what a correct view of
  a record is, and the lemmas about both.

The store lookups are inputs: each view operation takes the lookup it calls
as a function from address to `Result`. The two operations write the mapping
out twice, as the keeper does. Both are proved against the one
`IsLegacyViewOf` predicate, and that is how `LookupKeySymmetry` shows they
cannot drift apart. The iteration over the last validator powers is an input
`Iteration`: the entries it visits, in its own order, and the error it ends
with, if any. `TotalBondedTokens` is a method whose loop does what the visit
callback does.

Two behaviours of the code are easy to misread:

- On an iteration error, `TotalBondedTokens` returns the error *and* the total
  accumulated so far (`return total, err`). It does not discard the partial sum.
- The commission is rebuilt with `cosmostypes.NewCommission`, which returns no
  error. So the translation has no validation-error path. The only errors are
  the lookup's, passed through unchanged.

## Model

| member | source | states |
|---|---|---|
| `CompatibilityKeeper.Validator` | x/mstaking/keeper/compatibility_keeper.go:21-49 | A lookup error is returned unchanged and no view is produced. On success the result is a legacy view of the record (`IsLegacyViewOf`): operator address, pubkey, jailed flag, status, description, unbonding height and time copied; tokens equal voting power exactly; commission rates passed through; min self-delegation 1; delegator shares 0; hold count equal to the number of unbonding ids, at most 1, and 1 exactly when the id is at or above `DefaultUnbondingIdStart`, each id being the record's |
| `CompatibilityKeeper.ValidatorByConsAddr` | x/mstaking/keeper/compatibility_keeper.go:51-78 | The same contract as `Validator`, for the consensus-address lookup |
| `CompatibilityKeeper.UnbondingHoldCases` | x/mstaking/keeper/compatibility_keeper.go:27-32 | For any view of a record: an id at or above the start gives ref count 1 and ids `[unbondingId]`; a smaller id gives ref count 0 and no ids |
| `CompatibilityKeeper.ViewDeterminedByRecord` | x/mstaking/keeper/compatibility_keeper.go:34-48 | Two legacy views of the same record are equal: the view is a function of the record alone |
| `CompatibilityKeeper.LookupKeySymmetry` | x/mstaking/keeper/compatibility_keeper.go:21-78 | When the operator lookup and the consensus lookup return the same record (or the same error), `Validator` and `ValidatorByConsAddr` return the same result |
| `CompatibilityKeeper.TotalBondedTokens` | x/mstaking/keeper/compatibility_keeper.go:80-89 | The total is the sum of every visited power (0 when nothing is visited). The callback never stops the walk and never errors, so the returned error is exactly the iteration's own. It is returned alongside the partial total |
| `CompatibilityKeeper.TotalPowerConcat` | x/mstaking/keeper/compatibility_keeper.go:82-85 | The running total is a fold: the sum over a concatenation is the sum of the sums of its parts |
| `CompatibilityKeeper.TotalPowerPermutation` | x/mstaking/keeper/compatibility_keeper.go:82-88 | The total does not depend on visit order: any two orderings of the same entries give the same sum |

## Left out

- `Keeper.GetValidator`, `Keeper.GetValidatorByConsAddr` and
  `Keeper.IterateLastValidatorPowers` read the store and are defined outside
  this file. The lookups are function inputs and the iteration is an
  `Iteration` value, so this model does not say when a lookup fails or which
  validators are visited.
- `context.Context`, the `CompatibilityKeeper` struct and
  `NewCompatibilityKeeper` hold no behaviour and are not modelled.
- The legacy commission is modelled by its three rates only. The update time
  that the Cosmos SDK's `NewCommission` constructor sets is library behaviour
  and is not part of this model.
- `math.LegacyDec` arithmetic is not modelled. The rates are opaque values
  that are only copied.
- The public key `Any` encoding, the `Description` conversion and the
  `BondStatus` cast are modelled as plain copies. This holds because both
  descriptions have the same fields and the cast keeps the enum number.
- The source copies the `*Any` public key pointer, so the view shares the
  record's key object. The model copies the key as a value, so that sharing
  is not captured.
- TotalBondedTokens: `math.Int` panics above 256 bits. The model's total is an
  unbounded integer. With `int64` powers, that bound would take more than 2^192
  validators to reach.
- The legacy view is returned through the `ValidatorI` interface. The model
  returns the struct itself.
