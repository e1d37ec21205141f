/** The compatibility keeper: presents multi-asset staking validators through the
    single-denomination Cosmos SDK staking interface. The store lookups and the
    iteration over the last validator powers are inputs to the model. */
module CompatibilityKeeper {
  import opened StakingCommon
  import Mstaking = MstakingTypes
  import Cosmos = CosmosStakingTypes

  // ---------------------------------------------------------------------------
  // Record -> legacy view
  // ---------------------------------------------------------------------------

  /** An unbonding id at or above the reserved start stands for a real hold. */
  predicate HasActiveUnbondingHold(unbondingId: uint64) {
    unbondingId >= Mstaking.DefaultUnbondingIdStart
  }

  /** What it means for `view` to be the legacy view of `val`: identity, status,
      metadata and commission rates carried over, voting power reported as the
      tokens, the two unsupported quantities fixed, and at most one unbonding
      hold, present exactly when the record's unbonding id is an active one. */
  predicate IsLegacyViewOf(val: Mstaking.Validator, view: Cosmos.Validator) {
    && view.operatorAddress == val.operatorAddress
    && view.consensusPubkey == val.consensusPubkey
    && view.jailed == val.jailed
    && view.status == val.status
    && view.tokens == val.votingPower
    && view.description == val.description
    && view.unbondingHeight == val.unbondingHeight
    && view.unbondingTime == val.unbondingTime
    && view.commission == val.commission.commissionRates
    && view.minSelfDelegation == 1
    && view.delegatorShares == LegacyZeroDec()
    && view.unbondingOnHoldRefCount as int == |view.unbondingIds| <= 1
    && (|view.unbondingIds| == 1 <==> HasActiveUnbondingHold(val.unbondingId))
    && (forall i :: 0 <= i < |view.unbondingIds| ==> view.unbondingIds[i] == val.unbondingId)
  }

  /** Looks a validator up by operator address and translates it to the legacy
      view; a lookup error is returned as it is and no view is produced. */
  function Validator(getValidator: ValAddress -> Result<Mstaking.Validator>, addr: ValAddress)
    : (r: Result<Cosmos.Validator>)
    ensures getValidator(addr).Err? ==> r == Err(getValidator(addr).error)
    ensures getValidator(addr).Ok? ==> r.Ok? && IsLegacyViewOf(getValidator(addr).value, r.value)
  {
    match getValidator(addr)
    case Err(err) => Err(err)
    case Ok(val) =>
      var onHold := HasActiveUnbondingHold(val.unbondingId);
      var unbondingOnHoldRefCount: int64 := if onHold then 1 else 0;
      var unbondingIds: seq<uint64> := if onHold then [val.unbondingId] else [];
      Ok(Cosmos.Validator(
        operatorAddress := val.operatorAddress,
        consensusPubkey := val.consensusPubkey,
        jailed := val.jailed,
        status := val.status,
        tokens := val.votingPower,
        description := val.description,
        unbondingHeight := val.unbondingHeight,
        unbondingTime := val.unbondingTime,
        commission := CommissionRates(
          val.commission.commissionRates.rate,
          val.commission.commissionRates.maxRate,
          val.commission.commissionRates.maxChangeRate),
        minSelfDelegation := 1,
        unbondingOnHoldRefCount := unbondingOnHoldRefCount,
        unbondingIds := unbondingIds,
        delegatorShares := LegacyZeroDec()))
  }

  /** The same translation, reached through the consensus-address lookup. Its
      mapping is written out a second time, as the keeper does. */
  function ValidatorByConsAddr(getValidatorByConsAddr: ConsAddress -> Result<Mstaking.Validator>, addr: ConsAddress)
    : (r: Result<Cosmos.Validator>)
    ensures getValidatorByConsAddr(addr).Err? ==> r == Err(getValidatorByConsAddr(addr).error)
    ensures getValidatorByConsAddr(addr).Ok? ==> r.Ok? && IsLegacyViewOf(getValidatorByConsAddr(addr).value, r.value)
  {
    match getValidatorByConsAddr(addr)
    case Err(err) => Err(err)
    case Ok(val) =>
      var onHold := HasActiveUnbondingHold(val.unbondingId);
      var unbondingOnHoldRefCount: int64 := if onHold then 1 else 0;
      var unbondingIds: seq<uint64> := if onHold then [val.unbondingId] else [];
      Ok(Cosmos.Validator(
        operatorAddress := val.operatorAddress,
        consensusPubkey := val.consensusPubkey,
        jailed := val.jailed,
        status := val.status,
        tokens := val.votingPower,
        description := val.description,
        unbondingHeight := val.unbondingHeight,
        unbondingTime := val.unbondingTime,
        commission := CommissionRates(
          val.commission.commissionRates.rate,
          val.commission.commissionRates.maxRate,
          val.commission.commissionRates.maxChangeRate),
        minSelfDelegation := 1,
        unbondingOnHoldRefCount := unbondingOnHoldRefCount,
        unbondingIds := unbondingIds,
        delegatorShares := LegacyZeroDec()))
  }

  /** The unbonding hold of a view, case by case: one hold carrying the record's
      id when that id is active, none otherwise. */
  lemma UnbondingHoldCases(val: Mstaking.Validator, view: Cosmos.Validator)
    requires IsLegacyViewOf(val, view)
    ensures HasActiveUnbondingHold(val.unbondingId) ==>
              view.unbondingOnHoldRefCount == 1 && view.unbondingIds == [val.unbondingId]
    ensures !HasActiveUnbondingHold(val.unbondingId) ==>
              view.unbondingOnHoldRefCount == 0 && view.unbondingIds == []
  {
  }

  /** The legacy view is a function of the record: two views of one record agree
      on every field. */
  lemma ViewDeterminedByRecord(val: Mstaking.Validator, v1: Cosmos.Validator, v2: Cosmos.Validator)
    requires IsLegacyViewOf(val, v1) && IsLegacyViewOf(val, v2)
    ensures v1 == v2
  {
  }

  /** Whichever key a validator is looked up by, the same record yields the same
      view, and the same error yields the same error. */
  lemma LookupKeySymmetry(
    getValidator: ValAddress -> Result<Mstaking.Validator>, valAddr: ValAddress,
    getValidatorByConsAddr: ConsAddress -> Result<Mstaking.Validator>, consAddr: ConsAddress)
    requires getValidator(valAddr) == getValidatorByConsAddr(consAddr)
    ensures Validator(getValidator, valAddr) == ValidatorByConsAddr(getValidatorByConsAddr, consAddr)
  {
    if getValidator(valAddr).Ok? {
      ViewDeterminedByRecord(
        getValidator(valAddr).value,
        Validator(getValidator, valAddr).value,
        ValidatorByConsAddr(getValidatorByConsAddr, consAddr).value);
    }
  }

  // ---------------------------------------------------------------------------
  // Total bonded tokens
  // ---------------------------------------------------------------------------

  /** One visit of the last-validator-powers iteration. */
  datatype PowerEntry = PowerEntry(operator: ValAddress, power: int64)

  /** What the iteration over the last validator powers does: the entries it
      visits, in its own order, and the error it ends with, if any. */
  datatype Iteration = Iteration(visited: seq<PowerEntry>, failure: Option<Error>)

  /** The sum of the visited powers. */
  function TotalPower(entries: seq<PowerEntry>): int {
    if entries == [] then 0 else entries[0].power as int + TotalPower(entries[1..])
  }

  lemma {:induction false} TotalPowerConcat(a: seq<PowerEntry>, b: seq<PowerEntry>)
    ensures TotalPower(a + b) == TotalPower(a) + TotalPower(b)
  {
    if a == [] {
      assert a + b == b;
    } else {
      assert (a + b)[1..] == a[1..] + b;
      TotalPowerConcat(a[1..], b);
    }
  }

  /** Taking one entry out of a walk lowers the total by exactly its power. */
  lemma TotalPowerRemove(b: seq<PowerEntry>, j: nat)
    requires j < |b|
    ensures TotalPower(b) == b[j].power as int + TotalPower(b[..j] + b[j + 1..])
  {
    assert b == b[..j] + ([b[j]] + b[j + 1..]);
    TotalPowerConcat(b[..j], [b[j]] + b[j + 1..]);
    TotalPowerConcat([b[j]], b[j + 1..]);
    TotalPowerConcat(b[..j], b[j + 1..]);
    assert [b[j]][1..] == [];
  }

  /** Taking one entry out of a walk removes one copy of it from its multiset. */
  lemma MultisetRemove(b: seq<PowerEntry>, j: nat)
    requires j < |b|
    ensures multiset(b[..j] + b[j + 1..]) == multiset(b) - multiset{b[j]}
  {
    assert b == b[..j] + [b[j]] + b[j + 1..];
  }

  /** The total does not depend on the order in which validators are visited. */
  lemma {:induction false} TotalPowerPermutation(a: seq<PowerEntry>, b: seq<PowerEntry>)
    requires multiset(a) == multiset(b)
    ensures TotalPower(a) == TotalPower(b)
    decreases |a|
  {
    if a == [] {
      assert b == [] by {
        assert |b| == |multiset(b)|;
      }
    } else {
      var j := IndexInWalk(b, a[0]);
      var rest := b[..j] + b[j + 1..];
      assert multiset(a[1..]) == multiset(rest) by {
        MultisetRemove(b, j);
        MultisetRemove(a, 0);
        assert a[..0] + a[1..] == a[1..];
      }
      calc {
        TotalPower(a);
        a[0].power as int + TotalPower(a[1..]);
        { TotalPowerPermutation(a[1..], rest); }
        b[j].power as int + TotalPower(rest);
        { TotalPowerRemove(b, j); }
        TotalPower(b);
      }
    }
  }

  /** An entry of a walk's multiset is at some position of the walk. */
  lemma IndexInWalk(b: seq<PowerEntry>, e: PowerEntry) returns (j: nat)
    requires e in multiset(b)
    ensures j < |b| && b[j] == e
  {
    assert e in b;
    j :| 0 <= j < |b| && b[j] == e;
  }

  /** Sums the power of every validator the iteration visits. The visit callback
      adds the power to the running total and never stops the walk or reports an
      error, so every visited entry is counted and the only possible error is the
      iteration's own, returned together with the total accumulated so far. */
  method TotalBondedTokens(iteration: Iteration) returns (total: int, err: Option<Error>)
    ensures total == TotalPower(iteration.visited)
    ensures err == iteration.failure
  {
    total := 0;
    var i := 0;
    while i < |iteration.visited|
      invariant 0 <= i <= |iteration.visited|
      invariant total == TotalPower(iteration.visited[..i])
    {
      var entry := iteration.visited[i];
      total := total + entry.power as int;
      TotalPowerConcat(iteration.visited[..i], [entry]);
      assert iteration.visited[..i + 1] == iteration.visited[..i] + [entry];
      i := i + 1;
    }
    assert iteration.visited[..i] == iteration.visited;
    err := iteration.failure;
  }
}
