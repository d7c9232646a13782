/** The contract as one object: `class Vault` holds what src/state.rs stores (the `STATE`
    item and the `BALANCES`, `LAST_DEPOSIT`, `PERMISSIONS` and `CLAIM_LIST` maps) and each
    entry point of src/contract.rs is a method that updates it in place, running the same
    loops over the snapshot of its queries. Each method is proved to return what the
    matching pure definition (modules Execute and Withdraw) returns and to leave the
    storage that definition describes, the storage untouched on an error, and to keep
    the invariant Ledger.Wf. The query readers are functions of the fields. */
module Contract {
  import opened ContractErrors
  import opened Uint
  import opened Msg
  import opened Positions
  import opened Pagination
  import opened Valuation
  import opened ClaimQueue
  import opened Retraction
  import opened Ledger
  import Execute
  import Withdraw

  /** `InfoResponse` and `ConfigResponse`. */
  datatype Info = Info(totalSupply: nat, lockedBLuna: nat)

  datatype Config = Config(owner: Addr, paused: bool, swapWallet: Addr, anchorLiquidationQueue: Addr,
                           collateralToken: Addr, priceOracle: Addr, astroportRouter: Addr,
                           lockPeriod: nat, withdrawLock: nat)

  /** The `STATE` item (src/state.rs), stored as one value as the source stores it. */
  datatype State = State(owner: Addr, totalSupply: nat, lockedBLuna: nat, swapWallet: Addr, paused: bool,
                         anchorLiquidationQueue: Addr, collateralToken: Addr, priceOracle: Addr,
                         astroportRouter: Addr, lockPeriod: nat, withdrawLock: nat)

  class Vault {
    var state: State
    var balances: map<Addr, nat>
    var lastDeposit: map<Addr, nat>
    var permissions: map<Addr, bool>
    var claims: seq<Claim>

    /** The storage as one value. */
    function Model(): Storage
      reads this
    {
      Storage(state.owner, state.totalSupply, state.lockedBLuna, state.swapWallet, state.paused,
              state.anchorLiquidationQueue, state.collateralToken, state.priceOracle, state.astroportRouter,
              state.lockPeriod, state.withdrawLock, balances, lastDeposit, permissions, claims)
    }

    ghost predicate Valid()
      reads this
    {
      Wf(Model())
    }

    /** `instantiate`: configured addresses, the defaults for the ones not given, no shares
        and no claims, and the owner's submit-bid permission. */
    constructor (msg: InstantiateMsg)
      ensures Model() == Execute.Instantiate(msg).state
      ensures ((msg.lockPeriod.Some? ==> msg.lockPeriod.value < U64) &&
               (msg.withdrawLock.Some? ==> msg.withdrawLock.value < U64)) ==> Valid()
    {
      state := State(msg.owner, 0, 0, msg.swapWallet, false,
                     Execute.OrElse(msg.anchorLiquidationQueue, Execute.DEFAULT_ANCHOR_LIQUIDATION_QUEUE),
                     Execute.OrElse(msg.collateralToken, Execute.DEFAULT_COLLATERAL_TOKEN),
                     Execute.OrElse(msg.priceOracle, Execute.DEFAULT_PRICE_ORACLE),
                     Execute.OrElse(msg.astroportRouter, Execute.DEFAULT_ASTROPORT_ROUTER),
                     Execute.OrElse(msg.lockPeriod, Execute.DEFAULT_LOCK_PERIOD),
                     Execute.OrElse(msg.withdrawLock, Execute.DEFAULT_WITHDRAW_LOCK));
      balances := map[];
      lastDeposit := map[];
      permissions := map[msg.owner := true];
      claims := [];
      new;
      if (msg.lockPeriod.Some? ==> msg.lockPeriod.value < U64) &&
         (msg.withdrawLock.Some? ==> msg.withdrawLock.value < U64) {
        Execute.InstantiateWf(msg);
      }
    }

    /** Writes a whole storage value back. */
    method Save(t: Storage)
      modifies this
      ensures Model() == t
    {
      state := State(t.owner, t.totalSupply, t.lockedBLuna, t.swapWallet, t.paused, t.anchorLiquidationQueue,
                     t.collateralToken, t.priceOracle, t.astroportRouter, t.lockPeriod, t.withdrawLock);
      balances := t.balances;
      lastDeposit := t.lastDeposit;
      permissions := t.permissions;
      claims := t.claims;
    }

    method Deposit(e: Env, sender: Addr, funds: seq<Coin>) returns (r: Result<Response>)
      modifies this
      ensures r == ResponseOf(Execute.Deposit(old(Model()), e, sender, funds))
      ensures Model() == StateAfter(old(Model()), Execute.Deposit(old(Model()), e, sender, funds))
      ensures old(Valid()) && ValidEnv(e) ==> Valid()
    {
      if |funds| != 1 || funds[0].denom != "uusd" || funds[0].amount == 0 {
        return Err(Invalidate);
      }
      if state.paused {
        return Err(Paused);
      }
      var amount := funds[0].amount;
      var ust :- Sub(e.ust, amount);
      var totals :- Aggregate(e.bids, ust, e.bLuna);
      var cap :- UstTotalCap(totals.bLuna, totals.ust, e.price);
      var share :- Mint(amount, state.totalSupply, cap);
      var supply :- Add128(state.totalSupply, share);
      var balance :- Add128(BalanceOf(Model(), sender), share);
      ghost var s := Model();
      Save(Model().(totalSupply := supply, balances := balances[sender := balance],
                    lastDeposit := lastDeposit[sender := e.now]));
      r := Ok(Response([], [Attribute("action", Text("deposit")), Attribute("from", Text(sender)),
                            Attribute("amount", Num(amount)), Attribute("share", Num(share))]));
      if Wf(s) && ValidEnv(e) {
        Execute.DepositPreservesWf(s, e, sender, funds);
      }
    }

    method WithdrawUst(e: Env, sender: Addr, share: nat) returns (r: Result<Response>)
      modifies this
      ensures r == ResponseOf(Withdraw.WithdrawUst(old(Model()), e, sender, share))
      ensures Model() == StateAfter(old(Model()), Withdraw.WithdrawUst(old(Model()), e, sender, share))
      ensures old(Valid()) && ValidEnv(e) ==> Valid()
    {
      if share == 0 {
        return Err(Invalidate);
      }
      if sender in lastDeposit {
        var until :- PlusSeconds(lastDeposit[sender], state.withdrawLock);
        if until >= e.now {
          return Err(Locked);
        }
      }
      var held := BalanceOf(Model(), sender);
      if held < share {
        return Err(StdOverflow);
      }
      var totals :- Aggregate(e.bids, e.ust, e.bLuna);
      var cap :- UstTotalCap(totals.bLuna, totals.ust, e.price);
      var withdrawCap :- Payout(cap, share, state.totalSupply);
      if withdrawCap == 0 {
        return Err(Insufficient);
      }
      var settlement :- Settle(e, sender, share, totals.bLuna, withdrawCap);
      var supply :- Sub(state.totalSupply, share);
      ghost var s := Model();
      Save(Model().(totalSupply := supply, balances := balances[sender := held - share],
                    claims := settlement.fallback.claims, lockedBLuna := settlement.fallback.locked));
      r := Ok(Response(settlement.messages,
                       Withdraw.WithdrawAttributes(sender, share, withdrawCap, settlement.fallback.unlocked)));
      if Wf(s) && ValidEnv(e) {
        Withdraw.WithdrawUstPreservesWf(s, e, sender, share);
      }
    }

    /** How `withdraw_ust` settles a payout, without storing anything: the direct send,
        or the retraction loop, the covered send and the collateral fallback. */
    method Settle(e: Env, sender: Addr, share: nat, bLunaTotal: nat, withdrawCap: nat)
      returns (r: Result<Withdraw.Settlement>)
      ensures r == Withdraw.Settle(Model(), e, sender, share, bLunaTotal, withdrawCap)
    {
      if e.ust >= withdrawCap {
        return Ok(Withdraw.Settlement([BankSend(sender, withdrawCap)], Withdraw.NoFallback(Model())));
      }
      var messages, left := RetractionLoop(state.anchorLiquidationQueue, e.bids, withdrawCap - e.ust);
      if withdrawCap > left {
        messages := messages + [BankSend(sender, withdrawCap - left)];
      }
      var fallback := Withdraw.NoFallback(Model());
      if left != 0 {
        fallback :- CollateralFallback(e.bLuna, sender, share, bLunaTotal, left, withdrawCap);
      }
      r := Ok(Withdraw.Settlement(messages + fallback.messages, fallback));
      ghost var plan := PlanRetraction(state.anchorLiquidationQueue, e.bids, withdrawCap - e.ust);
      assert plan.left == left;
      assert messages == plan.messages + (if withdrawCap > plan.left then [BankSend(sender, withdrawCap - plan.left)] else []);
    }

    /** The collateral fallback of `withdraw_ust`: the pro-rata bLuna for the uncovered
        `left`, and the early release of claims when the unlocked float is short. It
        computes the new claim list and locked total without storing them. */
    method CollateralFallback(bLunaHeld: nat, sender: Addr, share: nat, bLunaTotal: nat, left: nat, withdrawCap: nat)
      returns (r: Result<Withdraw.Fallback>)
      ensures r == Withdraw.CollateralFallback(Model(), bLunaHeld, sender, share, bLunaTotal, left, withdrawCap)
    {
      var amount :- CollateralWithdraw(bLunaTotal, share, left, withdrawCap, state.totalSupply);
      if amount == 0 {
        return Ok(Withdraw.NoFallback(Model()));
      }
      var send := WasmExecute(state.collateralToken, Send(state.swapWallet, amount, Beneficiary(sender)), 0);
      var free :- Sub(bLunaHeld, state.lockedBLuna);
      if free < amount {
        var release :- ReleaseClaims(claims, amount - free);
        var locked := state.lockedBLuna;
        if release.released != 0 {
          locked :- Sub(state.lockedBLuna, release.released);
        }
        r := Ok(Withdraw.Fallback([send], release.claims, locked, release.released));
      } else {
        r := Ok(Withdraw.Fallback([send], claims, state.lockedBLuna, 0));
      }
    }

    method WithdrawBLuna(e: Env, sender: Addr, share: nat) returns (r: Result<Response>)
      modifies this
      ensures r == ResponseOf(Withdraw.WithdrawBLuna(old(Model()), e, sender, share))
      ensures Model() == StateAfter(old(Model()), Withdraw.WithdrawBLuna(old(Model()), e, sender, share))
      ensures old(Valid()) ==> Valid()
    {
      if share == 0 {
        return Err(Invalidate);
      }
      if sender in lastDeposit {
        var until :- PlusSeconds(lastDeposit[sender], state.withdrawLock);
        if until >= e.now {
          return Err(Locked);
        }
      }
      var held := BalanceOf(Model(), sender);
      if held < share {
        return Err(StdOverflow);
      }
      var totals :- Aggregate(e.bids, e.ust, e.bLuna);
      var cap :- BLunaTotalCap(totals.bLuna, totals.ust, e.price);
      var withdrawCap :- Payout(cap, share, state.totalSupply);
      var supply :- Sub(state.totalSupply, share);
      var free :- Sub(e.bLuna, state.lockedBLuna);
      if free < withdrawCap {
        return Err(Locked);
      }
      ghost var s := Model();
      Save(Model().(totalSupply := supply, balances := balances[sender := held - share]));
      r := Ok(Response([WasmExecute(state.collateralToken, Transfer(sender, withdrawCap), 0)],
                       Withdraw.WithdrawAttributes(sender, share, withdrawCap, 0)));
      if Wf(s) {
        Withdraw.WithdrawBLunaPreservesWf(s, e, sender, share);
      }
    }

    method ClaimLiquidation(e: Env, sender: Addr) returns (r: Result<Response>)
      modifies this
      ensures r == ResponseOf(Execute.ClaimLiquidation(old(Model()), e, sender))
      ensures Model() == StateAfter(old(Model()), Execute.ClaimLiquidation(old(Model()), e, sender))
      ensures old(Valid()) && ValidEnv(e) ==> Valid()
    {
      var pending :- PendingCollateral(e.bids);
      if pending == 0 {
        return Err(Insufficient);
      }
      var key :- NextKey(claims);
      var locked :- Add128(state.lockedBLuna, pending);
      ghost var s := Model();
      Save(Model().(claims := claims + [Claim(key, pending, e.now)], lockedBLuna := locked));
      r := Ok(Response([WasmExecute(state.anchorLiquidationQueue, ClaimLiquidations(state.collateralToken, None), 0)],
                       [Attribute("action", Text("liquidate")), Attribute("from", Text(sender)),
                        Attribute("amount", Num(pending))]));
      if Wf(s) && ValidEnv(e) {
        Execute.ClaimLiquidationPreservesWf(s, e, sender);
      }
    }

    method Unlock(e: Env, sender: Addr) returns (r: Result<Response>)
      modifies this
      ensures r == ResponseOf(Execute.Unlock(old(Model()), e, sender))
      ensures Model() == StateAfter(old(Model()), Execute.Unlock(old(Model()), e, sender))
      ensures old(Valid()) ==> Valid()
    {
      var u :- UnlockScan(claims, state.lockPeriod, e.now);
      if u.total == 0 {
        return Err(Insufficient);
      }
      var locked :- Sub(state.lockedBLuna, u.total);
      ghost var s := Model();
      Save(Model().(claims := claims[u.count..], lockedBLuna := locked));
      r := Ok(Response([], [Attribute("action", Text("unlock")), Attribute("from", Text(sender)),
                            Attribute("amount", Num(u.total))]));
      if Wf(s) {
        Execute.UnlockPreservesWf(s, e, sender);
      }
    }

    /** `swap` changes no storage. */
    method Swap(e: Env, sender: Addr) returns (r: Result<Response>)
      ensures r == ResponseOf(Execute.Swap(Model(), e, sender))
    {
      var amount :- Sub(e.bLuna, state.lockedBLuna);
      if amount == 0 {
        return Err(Insufficient);
      }
      var route := ExecuteSwapOperations(Execute.SwapOperations(state.collateralToken), None, None, Some(Execute.MAX_SPREAD));
      r := Ok(Response([WasmExecute(state.collateralToken, Send(state.astroportRouter, amount, route), 0)],
                       [Attribute("action", Text("swap")), Attribute("from", Text(sender)),
                        Attribute("amount", Num(amount))]));
    }

    /** `submit_bid` changes no storage. */
    method SubmitBid(e: Env, sender: Addr, amount: nat, premiumSlot: nat) returns (r: Result<Response>)
      ensures r == ResponseOf(Execute.SubmitBid(Model(), e, sender, amount, premiumSlot))
    {
      if !(sender in permissions && permissions[sender]) {
        return Err(Unauthorized);
      }
      if amount == 0 || e.ust < amount {
        return Err(Insufficient);
      }
      var bid := ExternalMsg.SubmitBid(state.collateralToken, premiumSlot);
      r := Ok(Response([WasmExecute(state.anchorLiquidationQueue, bid, amount)],
                       [Attribute("action", Text("submit_bid")), Attribute("from", Text(sender)),
                        Attribute("amount", Num(amount)), Attribute("premium_slot", Num(premiumSlot))]));
    }

    /** `activate_bid` changes no storage and cannot fail. */
    method ActivateBid(e: Env, sender: Addr) returns (r: Response)
      ensures r == Execute.ActivateBid(Model(), e, sender).response
    {
      var bidsIdx := SelectActivations(e.bids, e.now);
      r := Response([WasmExecute(state.anchorLiquidationQueue, ActivateBids(state.collateralToken, Some(bidsIdx)), 0)],
                    [Attribute("action", Text("activate")), Attribute("from", Text(sender))]);
    }

    /** `set_permission` as written. */
    method SetPermission(sender: Addr, address: Addr, newPermission: bool) returns (r: Result<Response>)
      modifies this
      ensures r == ResponseOf(Execute.SetPermission(old(Model()), sender, address, newPermission))
      ensures Model() == StateAfter(old(Model()), Execute.SetPermission(old(Model()), sender, address, newPermission))
      ensures old(Valid()) ==> Valid()
    {
      if state.owner != sender {
        return Err(Unauthorized);
      }
      var permission := address in permissions && permissions[address];
      if permission == newPermission {
        return Err(Invalidate);
      }
      ghost var s := Model();
      if !permission {
        permissions := permissions - {address};
      } else {
        permissions := permissions[address := permission];
      }
      r := Ok(Execute.SetPermissionResponse(sender, address, newPermission));
      if Wf(s) {
        Execute.SetPermissionPreservesWf(s, sender, address, newPermission);
      }
    }

    method UpdateConfig(sender: Addr, newOwner: Option<Addr>, newPaused: Option<bool>, newSwapWallet: Option<Addr>,
                        newLockPeriod: Option<nat>, newWithdrawLock: Option<nat>) returns (r: Result<Response>)
      modifies this
      ensures r == ResponseOf(Execute.UpdateConfig(old(Model()), sender, newOwner, newPaused, newSwapWallet,
                                                   newLockPeriod, newWithdrawLock))
      ensures Model() == StateAfter(old(Model()), Execute.UpdateConfig(old(Model()), sender, newOwner, newPaused,
                                                                       newSwapWallet, newLockPeriod, newWithdrawLock))
      ensures (old(Valid()) && (newLockPeriod.Some? ==> newLockPeriod.value < U64) &&
               (newWithdrawLock.Some? ==> newWithdrawLock.value < U64)) ==> Valid()
    {
      if state.owner != sender {
        return Err(Unauthorized);
      }
      ghost var s := Model();
      var start := Execute.Update(Model(), [Execute.Attr("action", Text("update_config")), Execute.Attr("from", Text(sender))]);
      var next := Execute.SetWithdrawLock(Execute.SetLockPeriod(Execute.SetSwapWallet(Execute.SetPaused(
                    Execute.SetOwner(start, newOwner), newPaused), newSwapWallet), newLockPeriod), newWithdrawLock);
      if |next.attributes| <= 2 {
        return Err(Invalidate);
      }
      Save(next.state);
      r := Ok(Response([], next.attributes));
      if Wf(s) && (newLockPeriod.Some? ==> newLockPeriod.value < U64) &&
         (newWithdrawLock.Some? ==> newWithdrawLock.value < U64) {
        Execute.UpdateConfigPreservesWf(s, sender, newOwner, newPaused, newSwapWallet, newLockPeriod, newWithdrawLock);
      }
    }

    // ----- queries -----

    /** `query_info`: in a valid vault the locked bLuna is what the claim list owes. */
    function QueryInfo(): (r: Info)
      reads this
      ensures Valid() ==> r.lockedBLuna == Sum(claims) && r.totalSupply == SumMap(balances)
    {
      Info(state.totalSupply, state.lockedBLuna)
    }

    function QueryConfig(): Config
      reads this
    {
      Config(state.owner, state.paused, state.swapWallet, state.anchorLiquidationQueue, state.collateralToken,
             state.priceOracle, state.astroportRouter, state.lockPeriod, state.withdrawLock)
    }

    /** `query_balance`: an unknown address holds nothing. */
    function QueryBalance(address: Addr): (r: nat)
      reads this
      ensures address !in balances ==> r == 0
    {
      BalanceOf(Model(), address)
    }

    /** In a valid vault nobody holds more than the supply. */
    lemma BalanceBounded(address: Addr)
      requires Valid()
      ensures QueryBalance(address) <= state.totalSupply
    {
      BalanceAtMostSupply(Model(), address);
    }

    /** `query_permission`: the owner of a valid vault can always submit bids. */
    function QueryPermission(address: Addr): (r: bool)
      reads this
      ensures Valid() && address == state.owner ==> r
      ensures address !in permissions ==> !r
    {
      address in permissions && permissions[address]
    }

    /** `query_last_deposit_timestamp`: the default timestamp, zero, for an address that
        never deposited; a stored time fits u64 in a valid vault. */
    function QueryLastDepositTimestamp(address: Addr): (r: nat)
      reads this
      ensures address !in lastDeposit ==> r == 0
      ensures Valid() ==> r < U64
    {
      if address in lastDeposit then lastDeposit[address] else 0
    }

    /** `query_unlockable`: looks at the oldest claim only; with no claims the answer is no. */
    function QueryUnlockable(now: nat): (r: Result<bool>)
      reads this
      ensures claims == [] ==> r == Ok(false)
      ensures r.Ok? && r.value ==> claims != [] && Releasable(claims[0], state.lockPeriod, now)
    {
      Unlockable(claims, state.lockPeriod, now)
    }

    /** In a valid vault the query answers exactly whether `unlock` would release
        something now. */
    lemma UnlockableMeansUnlock(now: nat)
      requires Valid() && ScanUnlock(claims, state.lockPeriod, now, 0).Ok?
      ensures QueryUnlockable(now) == Ok(ScanUnlock(claims, state.lockPeriod, now, 0).value.total > 0)
    {
      UnlockableAgrees(claims, state.lockPeriod, now);
    }

    /** `query_total_cap`: the aggregation loop and the `uusd` cap, which is the exact worth
        of the snapshot whenever it is computed. */
    method QueryTotalCap(e: Env) returns (r: Result<nat>)
      ensures r == SnapshotUstCap(e.ust, e.bLuna, e.bids, e.price)
      ensures ValidEnv(e) ==>
                (r.Ok? <==> e.bLuna + TotalPending(e.bids) < U128 && UstValue(e.ust, e.bLuna, e.bids, e.price) < U128) &&
                (r.Ok? ==> r.value == UstValue(e.ust, e.bLuna, e.bids, e.price))
    {
      if ValidEnv(e) {
        SnapshotUstCapValue(e.ust, e.bLuna, e.bids, e.price);
      }
      var totals :- Aggregate(e.bids, e.ust, e.bLuna);
      r := UstTotalCap(totals.bLuna, totals.ust, e.price);
    }
  }
}
