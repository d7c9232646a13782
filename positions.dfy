/** The vault's positions in the liquidation queue: the paginated loops of
    src/contract.rs that sum what the bids hold, and the scans behind the
    `activatable` and `claimable` queries. Each loop walks the whole snapshot of bids
    once, in index order (module Pagination shows that the paging does exactly that). */
module Positions {
  import opened ContractErrors
  import opened Uint
  import opened Msg

  /** Running totals of a valuation loop: `usd_balance` and `b_luna_balance`. */
  datatype Totals = Totals(ust: nat, bLuna: nat)

  /** Σ amount: the `uusd` still waiting in the bids. */
  function TotalAmount(bids: seq<Bid>): nat {
    if bids == [] then 0 else bids[0].amount + TotalAmount(bids[1..])
  }

  /** Σ pending_liquidated_collateral: bLuna bought by the bids, not yet claimed. */
  function TotalPending(bids: seq<Bid>): nat {
    if bids == [] then 0 else bids[0].pendingLiquidatedCollateral + TotalPending(bids[1..])
  }

  /** The valuation loop body by body: each bid's amount and then its pending collateral
      is narrowed to Uint128 (`try_from ?`) and added with a panicking `+=`. */
  function SumPositions(bids: seq<Bid>, acc: Totals): Result<Totals>
    decreases |bids|
  {
    if bids == [] then Ok(acc)
    else
      var amount :- TryFrom256(bids[0].amount);
      var ust :- Add128(acc.ust, amount);
      var pending :- TryFrom256(bids[0].pendingLiquidatedCollateral);
      var bLuna :- Add128(acc.bLuna, pending);
      SumPositions(bids[1..], Totals(ust, bLuna))
  }

  /** The loop of `claim_liquidation`, which sums only the pending collateral. */
  function SumPending(bids: seq<Bid>, acc: nat): Result<nat>
    decreases |bids|
  {
    if bids == [] then Ok(acc)
    else
      var pending :- TryFrom256(bids[0].pendingLiquidatedCollateral);
      var sum :- Add128(acc, pending);
      SumPending(bids[1..], sum)
  }

  /** The valuation loop succeeds exactly when both grand totals fit Uint128, and then
      it yields the starting balances plus everything the bids hold. */
  lemma {:induction false} SumPositionsValue(bids: seq<Bid>, acc: Totals)
    requires acc.ust < U128 && acc.bLuna < U128
    ensures SumPositions(bids, acc).Ok? <==>
              acc.ust + TotalAmount(bids) < U128 && acc.bLuna + TotalPending(bids) < U128
    ensures SumPositions(bids, acc).Ok? ==>
              SumPositions(bids, acc).value ==
              Totals(acc.ust + TotalAmount(bids), acc.bLuna + TotalPending(bids))
  {
    if bids != [] {
      var b := bids[0];
      if acc.ust + b.amount < U128 && acc.bLuna + b.pendingLiquidatedCollateral < U128 {
        SumPositionsValue(bids[1..], Totals(acc.ust + b.amount, acc.bLuna + b.pendingLiquidatedCollateral));
      }
    }
  }

  /** The pending-collateral loop succeeds exactly when the total fits Uint128. */
  lemma {:induction false} SumPendingValue(bids: seq<Bid>, acc: nat)
    requires acc < U128
    ensures SumPending(bids, acc).Ok? <==> acc + TotalPending(bids) < U128
    ensures SumPending(bids, acc).Ok? ==> SumPending(bids, acc).value == acc + TotalPending(bids)
  {
    if bids != [] && acc + bids[0].pendingLiquidatedCollateral < U128 {
      SumPendingValue(bids[1..], acc + bids[0].pendingLiquidatedCollateral);
    }
  }

  /** The valuation loop shared by `deposit`, `withdraw_ust`, `withdraw_b_luna` and
      `query_total_cap`, starting from the directly held balances. */
  method Aggregate(bids: seq<Bid>, ust: nat, bLuna: nat) returns (r: Result<Totals>)
    ensures r == SumPositions(bids, Totals(ust, bLuna))
  {
    var usdBalance: nat, bLunaBalance: nat := ust, bLuna;
    var i := 0;
    while i < |bids|
      invariant 0 <= i <= |bids|
      invariant SumPositions(bids[i..], Totals(usdBalance, bLunaBalance)) == SumPositions(bids, Totals(ust, bLuna))
    {
      var item := bids[i];
      if U128 <= item.amount { return Err(ConversionOverflow); }
      if U128 <= usdBalance + item.amount { return Err(Panic); }
      usdBalance := usdBalance + item.amount;
      if U128 <= item.pendingLiquidatedCollateral { return Err(ConversionOverflow); }
      if U128 <= bLunaBalance + item.pendingLiquidatedCollateral { return Err(Panic); }
      bLunaBalance := bLunaBalance + item.pendingLiquidatedCollateral;
      assert bids[i..][1..] == bids[i + 1..];
      i := i + 1;
    }
    return Ok(Totals(usdBalance, bLunaBalance));
  }

  /** The loop of `claim_liquidation` (src/contract.rs:615-635). */
  method PendingCollateral(bids: seq<Bid>) returns (r: Result<nat>)
    ensures r == SumPending(bids, 0)
  {
    var bLunaBalance: nat := 0;
    var i := 0;
    while i < |bids|
      invariant 0 <= i <= |bids|
      invariant SumPending(bids[i..], bLunaBalance) == SumPending(bids, 0)
    {
      var pending := bids[i].pendingLiquidatedCollateral;
      if U128 <= pending { return Err(ConversionOverflow); }
      if U128 <= bLunaBalance + pending { return Err(Panic); }
      bLunaBalance := bLunaBalance + pending;
      assert bids[i..][1..] == bids[i + 1..];
      i := i + 1;
    }
    return Ok(bLunaBalance);
  }

  /** A bid whose wait period ended before the current block second (`wait_end` is in
      seconds, the block time in nanoseconds). */
  predicate ActivationDue(b: Bid, now: nat) {
    b.waitEnd.Some? && b.waitEnd.value < now / NANOS_PER_SECOND
  }

  /** `query_activatable`: true as soon as one bid is due. */
  method QueryActivatable(bids: seq<Bid>, now: nat) returns (activatable: bool)
    ensures activatable <==> exists i :: 0 <= i < |bids| && ActivationDue(bids[i], now)
  {
    var i := 0;
    while i < |bids|
      invariant 0 <= i <= |bids|
      invariant forall k :: 0 <= k < i ==> !ActivationDue(bids[k], now)
    {
      if bids[i].waitEnd.Some? && bids[i].waitEnd.value < now / NANOS_PER_SECOND {
        return true;
      }
      i := i + 1;
    }
    return false;
  }

  /** `query_claimable`: true as soon as one bid holds pending collateral. */
  method QueryClaimable(bids: seq<Bid>) returns (claimable: bool)
    ensures claimable <==> exists i :: 0 <= i < |bids| && bids[i].pendingLiquidatedCollateral != 0
  {
    var i := 0;
    while i < |bids|
      invariant 0 <= i <= |bids|
      invariant forall k :: 0 <= k < i ==> bids[k].pendingLiquidatedCollateral == 0
    {
      if bids[i].pendingLiquidatedCollateral != 0 {
        return true;
      }
      i := i + 1;
    }
    return false;
  }
}
