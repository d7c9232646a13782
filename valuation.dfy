/** The single-expression formulas of src/contract.rs: the two total caps, the shares
    minted on deposit and the payout of a withdrawal, and the pro-rata bLuna amount of
    an unfilled withdrawal. */
module Valuation {
  import opened ContractErrors
  import opened Uint
  import opened Msg
  import opened Positions

  /** `Uint128::try_from(Uint256::from(b_luna) * price)? + usd` (:192, :364, :956):
      the vault's worth in `uusd`. */
  function UstTotalCap(bLuna: nat, ust: nat, price: nat): Result<nat> {
    var value :- MulDecimal(bLuna, price);
    var narrowed :- TryFrom256(value);
    Add128(narrowed, ust)
  }

  /** `b_luna + Uint128::try_from(Uint256::from(usd) * price.inv().unwrap())?` (:581-582):
      the vault's worth in bLuna. */
  function BLunaTotalCap(bLuna: nat, ust: nat, price: nat): Result<nat> {
    var inverse :- Inverse(price);
    var value :- MulDecimal(ust, inverse);
    var narrowed :- TryFrom256(value);
    Add128(bLuna, narrowed)
  }

  /** Shares minted for a deposit of `amount` (:193-198), with `cap` the worth before it. */
  function Mint(amount: nat, supply: nat, cap: nat): Result<nat> {
    if supply == 0 then Ok(amount)
    else if cap == 0 then Err(DivideByZero)
    else
      var product :- CheckedMul128(amount, supply);
      Ok(product / cap)
  }

  /** `total_cap * share / total_supply` (:367, :584). */
  function Payout(cap: nat, share: nat, supply: nat): Result<nat> {
    var product :- Mul128(cap, share);
    Div(product, supply)
  }

  /** `b_luna * share * usd / withdraw_cap / (total_supply - share * (withdraw_cap - usd)
      / withdraw_cap)` (:446-448), with `left` the `uusd` still missing. */
  function CollateralWithdraw(bLuna: nat, share: nat, left: nat, withdrawCap: nat, supply: nat): Result<nat> {
    var a :- Mul128(bLuna, share);
    var b :- Mul128(a, left);
    var owed :- Div(b, withdrawCap);
    var paid :- Sub(withdrawCap, left);
    var c :- Mul128(share, paid);
    var settled :- Div(c, withdrawCap);
    var divisor :- Sub(supply, settled);
    Div(owed, divisor)
  }

  /** The same formula evaluated without intermediate overflow, as a wide intermediate
      (Uint256/Uint512, as the caps use) would give it. */
  function ExactCollateralWithdraw(bLuna: nat, share: nat, left: nat, withdrawCap: nat, supply: nat): (r: nat)
    requires 0 < left <= withdrawCap && 0 < share <= supply
    ensures r <= bLuna
  {
    ProRataBound(bLuna, share, left, withdrawCap, supply);
    var pair: nat := bLuna * share;
    ProductNonNegative(pair, left, withdrawCap);
    var owed := bLuna * share * left / withdrawCap;
    var settled := share * (withdrawCap - left) / withdrawCap;
    owed / (supply - settled)
  }

  // ----- arithmetic helpers -----

  lemma MulMonotone(x: nat, y: nat, m: nat)
    requires x <= y
    ensures x * m <= y * m
  {
  }

  lemma FloorBounds(n: nat, d: nat)
    requires 0 < d
    ensures (n / d) * d <= n < (n / d + 1) * d
  {
  }

  lemma MulCancel(a: nat, b: nat, w: nat)
    requires 0 < w && a * w <= b * w
    ensures a <= b
  {
    if a > b {
      MulMonotone(b + 1, a, w);
    }
  }

  lemma DivMonotone(a: nat, b: nat, d: nat)
    requires a <= b && 0 < d
    ensures a / d <= b / d
  {
    FloorBounds(a, d);
    FloorBounds(b, d);
    if a / d > b / d {
      MulMonotone(b / d + 1, a / d, d);
    }
  }

  lemma DivOfMul(x: nat, q: nat)
    requires 0 < q
    ensures (x * q) / q == x
  {
    var d := (x * q) / q;
    FloorBounds(x * q, q);
    if d < x {
      MulMonotone(d + 1, x, q);
    } else if d > x {
      MulMonotone(x + 1, d, q);
    }
  }

  /** Under the divisor of (:448) lies at least `total_supply - share + 1`. */
  lemma DivisorPositive(share: nat, left: nat, withdrawCap: nat, supply: nat)
    requires 0 < left <= withdrawCap && 0 < share <= supply
    ensures share * (withdrawCap - left) / withdrawCap < share
  {
    var w := withdrawCap;
    var settled := share * (w - left) / w;
    FloorBounds(share * (w - left), w);
    MulMonotone(w - left, w - 1, share);
    assert (w - 1) * share == w * share - share;
    if settled >= share {
      MulMonotone(share, settled, w);
    }
  }

  /** share·left ≤ divisor·withdraw_cap: the divisor covers the unpaid part of the share. */
  lemma DivisorCovers(share: nat, left: nat, w: nat, supply: nat, settled: nat)
    requires 0 < left <= w && 0 < share <= supply
    requires settled == share * (w - left) / w && settled < share
    ensures share * left <= (supply - settled) * w
  {
    FloorBounds(share * (w - left), w);
    assert settled * w <= share * (w - left);
    assert (supply - settled) * w == supply * w - settled * w;
    MulMonotone(share, supply, w);
    assert share * (w - left) == share * w - share * left;
  }

  /** ⌊⌊x·p/w⌋/q⌋ ≤ x whenever p ≤ q·w. */
  lemma ScaledFloor(x: nat, p: nat, q: nat, w: nat)
    requires 0 < w && 0 < q && p <= q * w
    ensures (x * p / w) / q <= x
  {
    var owed := x * p / w;
    FloorBounds(x * p, w);
    MulMonotone(p, q * w, x);
    assert p * x == x * p && (q * w) * x == (x * q) * w;
    MulCancel(owed, x * q, w);
    DivMonotone(owed, x * q, q);
    DivOfMul(x, q);
  }

  lemma ProRataBound(bLuna: nat, share: nat, left: nat, withdrawCap: nat, supply: nat)
    requires 0 < left <= withdrawCap && 0 < share <= supply
    ensures share * (withdrawCap - left) / withdrawCap < share
    ensures (bLuna * share * left / withdrawCap) / (supply - share * (withdrawCap - left) / withdrawCap) <= bLuna
  {
    DivisorPositive(share, left, withdrawCap, supply);
    var settled := share * (withdrawCap - left) / withdrawCap;
    DivisorCovers(share, left, withdrawCap, supply, settled);
    var scaled := share * left;
    assert bLuna * share * left == bLuna * scaled;
    ScaledFloor(bLuna, scaled, supply - settled, withdrawCap);
  }

  // ----- properties -----

  /** The `uusd` cap is the floored bLuna worth plus the `uusd` held, and it fails
      exactly when that sum leaves Uint128. */
  lemma UstTotalCapValue(bLuna: nat, ust: nat, price: nat)
    requires ust < U128
    ensures UstTotalCap(bLuna, ust, price).Ok? <==> bLuna * price / DECIMAL_FRACTIONAL + ust < U128
    ensures UstTotalCap(bLuna, ust, price).Ok? ==>
              UstTotalCap(bLuna, ust, price).value == bLuna * price / DECIMAL_FRACTIONAL + ust
  {
  }

  /** The bLuna cap is the bLuna held plus the `uusd` converted at the inverse price; a
      zero price panics. */
  lemma BLunaTotalCapValue(bLuna: nat, ust: nat, price: nat)
    requires bLuna < U128
    ensures price == 0 ==> BLunaTotalCap(bLuna, ust, price) == Err(Panic)
    ensures 0 < price ==>
              var converted := ust * (DECIMAL_FRACTIONAL * DECIMAL_FRACTIONAL / price) / DECIMAL_FRACTIONAL;
              (BLunaTotalCap(bLuna, ust, price).Ok? <==> bLuna + converted < U128) &&
              (BLunaTotalCap(bLuna, ust, price).Ok? ==> BLunaTotalCap(bLuna, ust, price).value == bLuna + converted)
  {
  }

  /** Minting: one share per `uusd` into an empty vault; otherwise the floor of
      amount·supply/cap, an overflow error when amount·supply leaves Uint128, and a
      divide-by-zero error when shares exist but the vault is worth nothing. */
  lemma MintProRata(amount: nat, supply: nat, cap: nat)
    ensures supply == 0 ==> Mint(amount, supply, cap) == Ok(amount)
    ensures 0 < supply && cap == 0 ==> Mint(amount, supply, cap) == Err(DivideByZero)
    ensures 0 < supply && 0 < cap ==>
              (Mint(amount, supply, cap).Ok? <==> amount * supply < U128) &&
              (Mint(amount, supply, cap).Ok? ==>
                 var m := Mint(amount, supply, cap).value;
                 m * cap <= amount * supply < (m + 1) * cap)
  {
  }

  /** A larger deposit never mints fewer shares. */
  lemma MintMonotone(a1: nat, a2: nat, supply: nat, cap: nat)
    requires a1 <= a2
    requires Mint(a2, supply, cap).Ok?
    ensures Mint(a1, supply, cap).Ok?
    ensures Mint(a1, supply, cap).value <= Mint(a2, supply, cap).value
  {
    if 0 < supply && 0 < cap {
      MulMonotone(a1, a2, supply);
      DivMonotone(a1 * supply, a2 * supply, cap);
    }
  }

  /** The payout is the floor of the holder's fraction of the cap: it never exceeds the
      cap, and it panics only on a product beyond Uint128 or an empty supply. */
  lemma PayoutFloor(cap: nat, share: nat, supply: nat)
    ensures Payout(cap, share, supply).Ok? <==> cap * share < U128 && 0 < supply
    ensures Payout(cap, share, supply).Ok? ==>
              var p := Payout(cap, share, supply).value;
              p * supply <= cap * share < (p + 1) * supply &&
              (share <= supply ==> p <= cap)
  {
    if cap * share < U128 && 0 < supply {
      FloorBounds(cap * share, supply);
      if share <= supply {
        MulMonotone(share, supply, cap);
        assert share * cap == cap * share;
        DivMonotone(cap * share, supply * cap, supply);
        DivOfMul(cap, supply);
      }
    }
  }

  /** Redeeming more shares of the same snapshot never pays less. */
  lemma PayoutMonotone(cap: nat, s1: nat, s2: nat, supply: nat)
    requires s1 <= s2
    requires Payout(cap, s2, supply).Ok?
    ensures Payout(cap, s1, supply).Ok?
    ensures Payout(cap, s1, supply).value <= Payout(cap, s2, supply).value
  {
    MulMonotone(s1, s2, cap);
    assert cap * s1 <= cap * s2;
    DivMonotone(cap * s1, cap * s2, supply);
  }

  /** Monotone but not strictly: flooring gives two different share amounts one payout. */
  lemma PayoutNotStrictlyMonotone()
    ensures Payout(1, 1, 10) == Payout(1, 2, 10) == Ok(0)
  {
  }

  /** Depositing and at once redeeming the minted shares never returns more than was put
      in: with the deposit added to the cap, the minted shares are worth at most it. */
  lemma DepositThenRedeemNoProfit(amount: nat, supply: nat, cap: nat)
    requires 0 < supply && 0 < cap
    requires Mint(amount, supply, cap).Ok?
    ensures var m := Mint(amount, supply, cap).value;
            (cap + amount) * m / (supply + m) <= amount
  {
    var m := Mint(amount, supply, cap).value;
    FloorBounds(amount * supply, cap);
    NoProfitAlgebra(amount, supply, cap, m);
    DivMonotone((cap + amount) * m, amount * (supply + m), supply + m);
    DivOfMul(amount, supply + m);
  }

  /** With no shares outstanding the first depositor gets one share per `uusd` and with
      them everything the vault already holds: redeeming them at once returns the
      deposit plus that worth. */
  lemma FirstDepositorTakesAll(amount: nat, cap: nat)
    requires 0 < amount
    ensures Mint(amount, 0, cap) == Ok(amount)
    ensures (cap + amount) * amount < U128 ==> Payout(cap + amount, amount, amount) == Ok(cap + amount)
  {
    DivOfMul(cap + amount, amount);
  }

  lemma NoProfitAlgebra(a: nat, supply: nat, cap: nat, m: nat)
    requires m * cap <= a * supply
    ensures (cap + a) * m <= a * (supply + m)
  {
    assert (cap + a) * m == m * cap + a * m;
    assert a * (supply + m) == a * supply + a * m;
  }

  /** On the shortfall path (0 < left ≤ withdraw_cap, 0 < share ≤ supply) the formula
      never divides by zero: it fails exactly when one of its Uint128 products overflows,
      and otherwise it asks for at most the bLuna counted in the cap. */
  lemma CollateralWithdrawSafe(bLuna: nat, share: nat, left: nat, withdrawCap: nat, supply: nat)
    requires 0 < left <= withdrawCap && 0 < share <= supply
    ensures CollateralWithdraw(bLuna, share, left, withdrawCap, supply).Ok? <==>
              bLuna * share * left < U128 && share * (withdrawCap - left) < U128
    ensures CollateralWithdraw(bLuna, share, left, withdrawCap, supply).Ok? ==>
              CollateralWithdraw(bLuna, share, left, withdrawCap, supply).value ==
              ExactCollateralWithdraw(bLuna, share, left, withdrawCap, supply) &&
              CollateralWithdraw(bLuna, share, left, withdrawCap, supply).value <= bLuna
  {
    ProRataBound(bLuna, share, left, withdrawCap, supply);
    MulMonotone(1, left, bLuna * share);
  }

  /** The discrepancy: for a vault of 10^13 bLuna units (10 million bLuna) a holder of a
      fifth of 5·10^14 shares, short 5·10^13 `uusd` of a 10^14 payout, makes the
      Uint128 product bLuna·share·usd overflow and the withdrawal panic, although the
      amount it computes is far below the bLuna held. */
  lemma CollateralWithdrawOverflows()
    ensures CollateralWithdraw(10_000_000_000_000, 100_000_000_000_000, 50_000_000_000_000,
                               100_000_000_000_000, 500_000_000_000_000) == Err(Panic)
    ensures ExactCollateralWithdraw(10_000_000_000_000, 100_000_000_000_000, 50_000_000_000_000,
                                    100_000_000_000_000, 500_000_000_000_000) == 1_111_111_111_111
  {
  }
  // ----- the valuation of a snapshot -----

  /** The vault's worth in `uusd` in exact arithmetic: the floored worth of the bLuna held
      and pending in bids, plus the `uusd` held and waiting in bids. */
  function UstValue(ust: nat, bLuna: nat, bids: seq<Bid>, price: nat): nat {
    (bLuna + TotalPending(bids)) * price / DECIMAL_FRACTIONAL + ust + TotalAmount(bids)
  }

  /** The vault's worth in bLuna in exact arithmetic, at the inverse price. */
  function BLunaValue(ust: nat, bLuna: nat, bids: seq<Bid>, price: nat): nat
    requires 0 < price
  {
    bLuna + TotalPending(bids) +
    (ust + TotalAmount(bids)) * (DECIMAL_FRACTIONAL * DECIMAL_FRACTIONAL / price) / DECIMAL_FRACTIONAL
  }

  /** The aggregation loop followed by the `uusd` cap, as in `deposit`, `withdraw_ust`
      and `query_total_cap`. */
  function SnapshotUstCap(ust: nat, bLuna: nat, bids: seq<Bid>, price: nat): Result<nat> {
    var t :- SumPositions(bids, Totals(ust, bLuna));
    UstTotalCap(t.bLuna, t.ust, price)
  }

  /** The aggregation loop followed by the bLuna cap, as in `withdraw_b_luna`. */
  function SnapshotBLunaCap(ust: nat, bLuna: nat, bids: seq<Bid>, price: nat): Result<nat> {
    var t :- SumPositions(bids, Totals(ust, bLuna));
    BLunaTotalCap(t.bLuna, t.ust, price)
  }

  /** The computed `uusd` cap is the exact worth, and it is computed exactly when the
      bLuna total and the worth fit Uint128. */
  lemma SnapshotUstCapValue(ust: nat, bLuna: nat, bids: seq<Bid>, price: nat)
    requires ust < U128 && bLuna < U128
    ensures SnapshotUstCap(ust, bLuna, bids, price).Ok? <==>
              bLuna + TotalPending(bids) < U128 && UstValue(ust, bLuna, bids, price) < U128
    ensures SnapshotUstCap(ust, bLuna, bids, price).Ok? ==>
              SnapshotUstCap(ust, bLuna, bids, price).value == UstValue(ust, bLuna, bids, price)
  {
    var b, u := bLuna + TotalPending(bids), ust + TotalAmount(bids);
    SumPositionsValue(bids, Totals(ust, bLuna));
    if b < U128 && u < U128 {
      assert SumPositions(bids, Totals(ust, bLuna)) == Ok(Totals(u, b));
      assert SnapshotUstCap(ust, bLuna, bids, price) == UstTotalCap(b, u, price);
      UstTotalCapValue(b, u, price);
      assert UstValue(ust, bLuna, bids, price) == b * price / DECIMAL_FRACTIONAL + u;
    } else {
      assert SnapshotUstCap(ust, bLuna, bids, price).Err?;
      assert u <= UstValue(ust, bLuna, bids, price);
    }
  }

  /** The computed bLuna cap is the exact worth at the inverse price; a zero price panics. */
  lemma SnapshotBLunaCapValue(ust: nat, bLuna: nat, bids: seq<Bid>, price: nat)
    requires ust < U128 && bLuna < U128
    ensures price == 0 ==> SnapshotBLunaCap(ust, bLuna, bids, price).Err?
    ensures 0 < price ==>
              (SnapshotBLunaCap(ust, bLuna, bids, price).Ok? <==>
                 ust + TotalAmount(bids) < U128 && BLunaValue(ust, bLuna, bids, price) < U128) &&
              (SnapshotBLunaCap(ust, bLuna, bids, price).Ok? ==>
                 SnapshotBLunaCap(ust, bLuna, bids, price).value == BLunaValue(ust, bLuna, bids, price))
  {
    var b, u := bLuna + TotalPending(bids), ust + TotalAmount(bids);
    SumPositionsValue(bids, Totals(ust, bLuna));
    var inBounds := b < U128 && u < U128;
    var snap := SnapshotBLunaCap(ust, bLuna, bids, price);
    if inBounds {
      assert SumPositions(bids, Totals(ust, bLuna)) == Ok(Totals(u, b));
      assert snap == BLunaTotalCap(b, u, price);
      BLunaTotalCapValue(b, u, price);
    }
    if 0 < price {
      var inv := DECIMAL_FRACTIONAL * DECIMAL_FRACTIONAL / price;
      ProductNonNegative(u, inv, DECIMAL_FRACTIONAL);
      var converted := u * inv / DECIMAL_FRACTIONAL;
      assert BLunaValue(ust, bLuna, bids, price) == b + converted;
      BoundsCases(inBounds, b, u, converted, snap.Ok?);
    }
  }

  /** Kept as a separate lemma so that the nonlinear product does not enter the caller's
      own proof. */
  lemma ProductNonNegative(x: nat, y: nat, d: nat)
    requires 0 < d
    ensures 0 <= x * y / d
  {
  }

  lemma BoundsCases(inBounds: bool, b: nat, u: nat, converted: nat, ok: bool)
    requires inBounds == (b < U128 && u < U128)
    requires inBounds ==> (ok <==> b + converted < U128)
    requires !inBounds ==> !ok
    ensures ok <==> u < U128 && b + converted < U128
  {
  }
}
