/** The contract's storage (src/state.rs): the `STATE` item and the four maps keyed by
    address or claim key, as one value; and the invariant every reachable storage keeps. */
module Ledger {
  import opened ContractErrors
  import opened Uint
  import opened Msg
  import opened ClaimQueue

  datatype Storage = Storage(
    owner: Addr,
    totalSupply: nat,
    lockedBLuna: nat,
    swapWallet: Addr,
    paused: bool,
    anchorLiquidationQueue: Addr,
    collateralToken: Addr,
    priceOracle: Addr,
    astroportRouter: Addr,
    lockPeriod: nat,        // seconds
    withdrawLock: nat,      // seconds
    balances: map<Addr, nat>,
    lastDeposit: map<Addr, nat>,     // nanoseconds
    permissions: map<Addr, bool>,    // `Permission { submit_bid }`
    claims: seq<Claim>)

  /** A missing balance reads as zero (`unwrap_or_default`). */
  function BalanceOf(s: Storage, a: Addr): nat {
    if a in s.balances then s.balances[a] else 0
  }

  /** A missing permission reads as `submit_bid: false`. */
  predicate Permitted(permissions: map<Addr, bool>, a: Addr) {
    a in permissions && permissions[a]
  }

  ghost function SumMap(m: map<Addr, nat>): nat
    decreases |m|
  {
    if m == map[] then 0 else var k :| k in m; m[k] + SumMap(m - {k})
  }

  lemma {:induction false} SumMapRemove(m: map<Addr, nat>, k: Addr)
    requires k in m
    ensures SumMap(m) == m[k] + SumMap(m - {k})
    decreases |m|
  {
    var k' :| k' in m && SumMap(m) == m[k'] + SumMap(m - {k'});
    if k' != k {
      SumMapRemove(m - {k'}, k);
      SumMapRemove(m - {k}, k');
      assert m - {k'} - {k} == m - {k} - {k'};
    }
  }

  /** Writing one entry changes the sum by exactly the difference at that entry. */
  lemma SumMapUpdate(m: map<Addr, nat>, k: Addr, v: nat)
    ensures SumMap(m[k := v]) + (if k in m then m[k] else 0) == SumMap(m) + v
  {
    SumMapRemove(m[k := v], k);
    assert m[k := v] - {k} == m - {k};
    if k in m {
      SumMapRemove(m, k);
    } else {
      assert m - {k} == m;
    }
  }

  lemma EntryAtMostSum(m: map<Addr, nat>, k: Addr)
    requires k in m
    ensures m[k] <= SumMap(m)
  {
    SumMapRemove(m, k);
  }

  /** The invariant the entry points keep:
      - shares: the supply is the sum of all balances and fits Uint128;
      - claims: the list is well formed and sums to `locked_b_luna`, which fits Uint128;
      - the owner holds the submit-bid permission;
      - the u64 settings and the stored deposit times fit u64. */
  ghost predicate Wf(s: Storage) {
    s.totalSupply == SumMap(s.balances) && s.totalSupply < U128 &&
    WellFormed(s.claims) && Sum(s.claims) == s.lockedBLuna && s.lockedBLuna < U128 &&
    Permitted(s.permissions, s.owner) &&
    s.lockPeriod < U64 && s.withdrawLock < U64 &&
    (forall a :: a in s.lastDeposit ==> s.lastDeposit[a] < U64)
  }

  /** No single holder owns more than the supply. */
  lemma BalanceAtMostSupply(s: Storage, a: Addr)
    requires Wf(s)
    ensures BalanceOf(s, a) <= s.totalSupply
  {
    if a in s.balances {
      EntryAtMostSum(s.balances, a);
    }
  }

  /** A successful call: the storage it leaves and the response it returns. */
  datatype Outcome = Outcome(state: Storage, response: Response)

  function ResponseOf(r: Result<Outcome>): Result<Response> {
    if r.Ok? then Ok(r.value.response) else Err(r.error)
  }

  /** A failed call, panic included, leaves the storage as it was. */
  function StateAfter(s: Storage, r: Result<Outcome>): Storage {
    if r.Ok? then r.value.state else s
  }
}
