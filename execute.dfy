/** The entry points of src/contract.rs other than the two withdrawals, each as a function
    from the storage, the snapshot of what its queries return, and its arguments to a new
    storage and a response, or to an error. An error, panic included, aborts the call, so
    the storage is left as it was (Ledger.StateAfter). */
module Execute {
  import opened ContractErrors
  import opened Uint
  import opened Msg
  import opened Positions
  import opened Pagination
  import opened Valuation
  import opened ClaimQueue
  import opened Ledger

  const DEFAULT_ANCHOR_LIQUIDATION_QUEUE: Addr := "terra1e25zllgag7j9xsun3me4stnye2pcg66234je3u"
  const DEFAULT_COLLATERAL_TOKEN: Addr := "terra1kc87mu460fwkqte29rquh4hc20m54fxwtsx7gp"
  const DEFAULT_PRICE_ORACLE: Addr := "terra1cgg6yef7qcdm070qftghfulaxmllgmvk77nc7t"
  const DEFAULT_ASTROPORT_ROUTER: Addr := "terra16t7dpwwgx9n3lq6l6te3753lsjqwhxwpday9zx"
  const DEFAULT_LOCK_PERIOD: nat := 14 * 24 * 60 * 60
  const DEFAULT_WITHDRAW_LOCK: nat := 60 * 60
  /** `Decimal::from_str("0.5")`, as an 18-decimal numerator. */
  const MAX_SPREAD: nat := DECIMAL_FRACTIONAL / 2

  function OrElse<T>(o: Option<T>, default: T): T {
    if o.Some? then o.value else default
  }

  function Attr(key: string, value: Value): Attribute { Attribute(key, value) }

  // ----- instantiate -----

  function Instantiate(msg: InstantiateMsg): Outcome {
    var s := Storage(
      msg.owner, 0, 0, msg.swapWallet, false,
      OrElse(msg.anchorLiquidationQueue, DEFAULT_ANCHOR_LIQUIDATION_QUEUE),
      OrElse(msg.collateralToken, DEFAULT_COLLATERAL_TOKEN),
      OrElse(msg.priceOracle, DEFAULT_PRICE_ORACLE),
      OrElse(msg.astroportRouter, DEFAULT_ASTROPORT_ROUTER),
      OrElse(msg.lockPeriod, DEFAULT_LOCK_PERIOD),
      OrElse(msg.withdrawLock, DEFAULT_WITHDRAW_LOCK),
      map[], map[], map[msg.owner := true], []);
    Outcome(s, Response([], [Attr("method", Text("instantiate")), Attr("owner", Text(msg.owner)),
                             Attr("swap_wallet", Text(msg.swapWallet))]))
  }

  /** A fresh vault has no shares and no claims, only the owner may submit bids, and the
      invariant holds from the start. */
  lemma InstantiateWf(msg: InstantiateMsg)
    requires msg.lockPeriod.Some? ==> msg.lockPeriod.value < U64
    requires msg.withdrawLock.Some? ==> msg.withdrawLock.value < U64
    ensures var s := Instantiate(msg).state;
            Wf(s) && s.totalSupply == 0 && s.lockedBLuna == 0 && s.claims == [] && !s.paused &&
            s.lockPeriod == (if msg.lockPeriod.Some? then msg.lockPeriod.value else 1_209_600) &&
            s.withdrawLock == (if msg.withdrawLock.Some? then msg.withdrawLock.value else 3_600) &&
            forall a :: Permitted(s.permissions, a) <==> a == msg.owner
  {
    var s := Instantiate(msg).state;
    assert SumMap(s.balances) == 0;
  }

  // ----- deposit -----

  function Deposit(s: Storage, e: Env, sender: Addr, funds: seq<Coin>): Result<Outcome> {
    if |funds| != 1 then Err(Invalidate)
    else if funds[0].denom != "uusd" || funds[0].amount == 0 then Err(Invalidate)
    else if s.paused then Err(Paused)
    else
      var amount := funds[0].amount;
      var ust :- Sub(e.ust, amount);
      var cap :- SnapshotUstCap(ust, e.bLuna, e.bids, e.price);
      var share :- Mint(amount, s.totalSupply, cap);
      var supply :- Add128(s.totalSupply, share);
      var balance :- Add128(BalanceOf(s, sender), share);
      Ok(Outcome(
        s.(totalSupply := supply, balances := s.balances[sender := balance],
           lastDeposit := s.lastDeposit[sender := e.now]),
        Response([], [Attr("action", Text("deposit")), Attr("from", Text(sender)),
                      Attr("amount", Num(amount)), Attr("share", Num(share))])))
  }

  /** The shares minted for a deposit: the amount itself into an empty vault, otherwise
      the floor of amount·supply over the vault's worth without the deposit. */
  function Minted(s: Storage, e: Env, amount: nat): nat
    requires amount <= e.ust
  {
    var cap := UstValue(e.ust - amount, e.bLuna, e.bids, e.price);
    if s.totalSupply == 0 then amount else if cap == 0 then 0 else amount * s.totalSupply / cap
  }

  ghost predicate SingleUusd(funds: seq<Coin>) {
    |funds| == 1 && funds[0].denom == "uusd" && 0 < funds[0].amount
  }

  /** Anything but one non-zero `uusd` coin is refused, then a paused vault; a vault with
      shares but no worth cannot price a deposit, and an amount·supply beyond Uint128 is
      an overflow error. */
  lemma DepositRejects(s: Storage, e: Env, sender: Addr, funds: seq<Coin>)
    requires ValidEnv(e)
    ensures !SingleUusd(funds) ==> Deposit(s, e, sender, funds) == Err(Invalidate)
    ensures SingleUusd(funds) && s.paused ==> Deposit(s, e, sender, funds) == Err(Paused)
    ensures SingleUusd(funds) && !s.paused && funds[0].amount <= e.ust && 0 < s.totalSupply &&
            e.bLuna + TotalPending(e.bids) < U128 &&
            UstValue(e.ust - funds[0].amount, e.bLuna, e.bids, e.price) < U128 ==>
              var cap := UstValue(e.ust - funds[0].amount, e.bLuna, e.bids, e.price);
              (cap == 0 ==> Deposit(s, e, sender, funds) == Err(DivideByZero)) &&
              (0 < cap && U128 <= funds[0].amount * s.totalSupply ==> Deposit(s, e, sender, funds) == Err(Overflow))
  {
    if SingleUusd(funds) && !s.paused && funds[0].amount <= e.ust {
      var amount := funds[0].amount;
      SnapshotUstCapValue(e.ust - amount, e.bLuna, e.bids, e.price);
      var cap := UstValue(e.ust - amount, e.bLuna, e.bids, e.price);
      if 0 < s.totalSupply && e.bLuna + TotalPending(e.bids) < U128 && cap < U128 {
        MintProRata(amount, s.totalSupply, cap);
      }
    }
  }

  /** A successful deposit took exactly one non-zero `uusd` coin into an unpaused vault and
      raised the supply and the sender's balance by the same minted amount, recording the
      block time as the sender's last deposit; nothing else changed. */
  lemma DepositMints(s: Storage, e: Env, sender: Addr, funds: seq<Coin>)
    requires ValidEnv(e)
    requires Deposit(s, e, sender, funds).Ok?
    ensures SingleUusd(funds) && !s.paused && funds[0].amount <= e.ust
    ensures var amount := funds[0].amount;
            var m := Minted(s, e, amount);
            (0 < s.totalSupply ==> 0 < UstValue(e.ust - amount, e.bLuna, e.bids, e.price)) &&
            Deposit(s, e, sender, funds).value.state ==
              s.(totalSupply := s.totalSupply + m,
                 balances := s.balances[sender := BalanceOf(s, sender) + m],
                 lastDeposit := s.lastDeposit[sender := e.now])
  {
    var amount := funds[0].amount;
    SnapshotUstCapValue(e.ust - amount, e.bLuna, e.bids, e.price);
    MintProRata(amount, s.totalSupply, UstValue(e.ust - amount, e.bLuna, e.bids, e.price));
  }

  lemma DepositPreservesWf(s: Storage, e: Env, sender: Addr, funds: seq<Coin>)
    requires Wf(s) && ValidEnv(e)
    ensures Deposit(s, e, sender, funds).Ok? ==> Wf(Deposit(s, e, sender, funds).value.state)
  {
    if Deposit(s, e, sender, funds).Ok? {
      var t := Deposit(s, e, sender, funds).value.state;
      SumMapUpdate(s.balances, sender, t.balances[sender]);
    }
  }

  // ----- claim_liquidation -----

  function ClaimLiquidation(s: Storage, e: Env, sender: Addr): Result<Outcome> {
    var pending :- SumPending(e.bids, 0);
    if pending == 0 then Err(Insufficient)
    else
      var key :- NextKey(s.claims);
      var locked :- Add128(s.lockedBLuna, pending);
      Ok(Outcome(
        s.(claims := s.claims + [Claim(key, pending, e.now)], lockedBLuna := locked),
        Response([WasmExecute(s.anchorLiquidationQueue, ClaimLiquidations(s.collateralToken, None), 0)],
                 [Attr("action", Text("liquidate")), Attr("from", Text(sender)), Attr("amount", Num(pending))])))
  }

  /** Nothing pending is refused; otherwise a record of everything pending, stamped with
      the block time, is appended under the next key and locked. */
  lemma ClaimLiquidationAppends(s: Storage, e: Env, sender: Addr)
    ensures TotalPending(e.bids) == 0 ==> ClaimLiquidation(s, e, sender) == Err(Insufficient)
    ensures ClaimLiquidation(s, e, sender).Ok? ==>
              var pending := TotalPending(e.bids);
              var key := if s.claims == [] then 0 else s.claims[|s.claims| - 1].key + 1;
              0 < pending &&
              ClaimLiquidation(s, e, sender).value.state ==
                s.(claims := s.claims + [Claim(key, pending, e.now)], lockedBLuna := s.lockedBLuna + pending) &&
              ClaimLiquidation(s, e, sender).value.response.messages ==
                [WasmExecute(s.anchorLiquidationQueue, ClaimLiquidations(s.collateralToken, None), 0)]
  {
    SumPendingValue(e.bids, 0);
  }

  /** Claiming at a block time no earlier than the newest record keeps the claim list in
      timestamp order, the premise under which `unlock` releases exactly the due records. */
  lemma ClaimLiquidationKeepsOrder(s: Storage, e: Env, sender: Addr)
    requires TimestampsOrdered(s.claims)
    requires s.claims != [] ==> s.claims[|s.claims| - 1].timestamp <= e.now
    ensures ClaimLiquidation(s, e, sender).Ok? ==> TimestampsOrdered(ClaimLiquidation(s, e, sender).value.state.claims)
  {
    if ClaimLiquidation(s, e, sender).Ok? {
      var pending := SumPending(e.bids, 0).value;
      var key := NextKey(s.claims).value;
      AppendKeepsOrder(s.claims, Claim(key, pending, e.now));
    }
  }

  lemma ClaimLiquidationPreservesWf(s: Storage, e: Env, sender: Addr)
    requires Wf(s) && ValidEnv(e)
    ensures ClaimLiquidation(s, e, sender).Ok? ==> Wf(ClaimLiquidation(s, e, sender).value.state)
  {
    if ClaimLiquidation(s, e, sender).Ok? {
      SumPendingValue(e.bids, 0);
      AppendPreserves(s.claims, TotalPending(e.bids), e.now);
    }
  }

  // ----- unlock -----

  function Unlock(s: Storage, e: Env, sender: Addr): Result<Outcome> {
    var u :- ScanUnlock(s.claims, s.lockPeriod, e.now, 0);
    if u.total == 0 then Err(Insufficient)
    else
      var locked :- Sub(s.lockedBLuna, u.total);
      Ok(Outcome(
        s.(claims := s.claims[u.count..], lockedBLuna := locked),
        Response([], [Attr("action", Text("unlock")), Attr("from", Text(sender)), Attr("amount", Num(u.total))])))
  }

  /** A successful unlock removed a non-empty prefix of due records, up to the first record
      still locked, and unlocked exactly their total; an empty or not yet due front
      record is refused. */
  lemma UnlockReleasesPrefix(s: Storage, e: Env, sender: Addr)
    requires AmountsPositive(s.claims)
    ensures s.claims == [] ==> Unlock(s, e, sender) == Err(Insufficient)
    ensures (s.claims != [] && s.claims[0].timestamp + s.lockPeriod * NANOS_PER_SECOND < U64 &&
             !Releasable(s.claims[0], s.lockPeriod, e.now)) ==> Unlock(s, e, sender) == Err(Insufficient)
    ensures Unlock(s, e, sender).Ok? ==>
              var t := Unlock(s, e, sender).value.state;
              var n := |s.claims| - |t.claims|;
              0 < n && t.claims == s.claims[n..] &&
              (forall k :: 0 <= k < n ==> Releasable(s.claims[k], s.lockPeriod, e.now)) &&
              (n < |s.claims| ==> !Releasable(s.claims[n], s.lockPeriod, e.now)) &&
              t.lockedBLuna + Sum(s.claims[..n]) == s.lockedBLuna &&
              t == s.(claims := s.claims[n..], lockedBLuna := t.lockedBLuna)
  {
    if ScanUnlock(s.claims, s.lockPeriod, e.now, 0).Ok? {
      ScanUnlockPrefix(s.claims, s.lockPeriod, e.now, 0);
      var u := ScanUnlock(s.claims, s.lockPeriod, e.now, 0).value;
      if u.count == 0 {
        assert s.claims[..0] == [];
      }
    }
  }

  lemma SuffixWellFormed(cs: seq<Claim>, n: nat)
    requires WellFormed(cs) && n <= |cs|
    ensures WellFormed(cs[n..])
  {
    assert forall i :: 0 <= i < |cs[n..]| ==> cs[n..][i] == cs[n + i];
  }

  lemma UnlockPreservesWf(s: Storage, e: Env, sender: Addr)
    requires Wf(s)
    ensures Unlock(s, e, sender).Ok? ==> Wf(Unlock(s, e, sender).value.state)
  {
    if Unlock(s, e, sender).Ok? {
      var u := ScanUnlock(s.claims, s.lockPeriod, e.now, 0).value;
      ScanUnlockPrefix(s.claims, s.lockPeriod, e.now, 0);
      SumSplit(s.claims, u.count);
      SuffixWellFormed(s.claims, u.count);
    }
  }

  /** Unlocking keeps the claim list in timestamp order. */
  lemma UnlockKeepsOrder(s: Storage, e: Env, sender: Addr)
    requires TimestampsOrdered(s.claims)
    ensures Unlock(s, e, sender).Ok? ==> TimestampsOrdered(Unlock(s, e, sender).value.state.claims)
  {
    if Unlock(s, e, sender).Ok? {
      var u := ScanUnlock(s.claims, s.lockPeriod, e.now, 0).value;
      SuffixKeepsOrder(s.claims, u.count);
    }
  }

  // ----- swap -----

  function SwapOperations(collateralToken: Addr): seq<SwapOperation> {
    [AstroSwap(Token(collateralToken), NativeToken("uluna")), NativeSwap("uluna", "uusd")]
  }

  function Swap(s: Storage, e: Env, sender: Addr): Result<Outcome> {
    var amount :- Sub(e.bLuna, s.lockedBLuna);
    if amount == 0 then Err(Insufficient)
    else
      Ok(Outcome(s, Response(
        [WasmExecute(s.collateralToken,
                     Send(s.astroportRouter, amount,
                          ExecuteSwapOperations(SwapOperations(s.collateralToken), None, None, Some(MAX_SPREAD))),
                     0)],
        [Attr("action", Text("swap")), Attr("from", Text(sender)), Attr("amount", Num(amount))])))
  }

  /** Only the unlocked surplus of bLuna is ever sent to the router, all of it and in one
      message; with no surplus the call is refused. */
  lemma SwapSendsSurplus(s: Storage, e: Env, sender: Addr)
    ensures e.bLuna < s.lockedBLuna ==> Swap(s, e, sender) == Err(Panic)
    ensures e.bLuna == s.lockedBLuna ==> Swap(s, e, sender) == Err(Insufficient)
    ensures s.lockedBLuna < e.bLuna ==>
              Swap(s, e, sender).Ok? && Swap(s, e, sender).value.state == s &&
              var ms := Swap(s, e, sender).value.response.messages;
              |ms| == 1 && ms[0].contractAddr == s.collateralToken &&
              ms[0].msg.Send? && ms[0].msg.contract == s.astroportRouter &&
              ms[0].msg.amount + s.lockedBLuna == e.bLuna
  {
  }

  // ----- submit_bid -----

  function SubmitBid(s: Storage, e: Env, sender: Addr, amount: nat, premiumSlot: nat): Result<Outcome> {
    if !Permitted(s.permissions, sender) then Err(Unauthorized)
    else if amount != 0 && e.ust >= amount then
      Ok(Outcome(s, Response(
        [WasmExecute(s.anchorLiquidationQueue, ExternalMsg.SubmitBid(s.collateralToken, premiumSlot), amount)],
        [Attr("action", Text("submit_bid")), Attr("from", Text(sender)), Attr("amount", Num(amount)),
         Attr("premium_slot", Num(premiumSlot))])))
    else Err(Insufficient)
  }

  /** A bid is placed exactly when the sender holds the permission and the vault holds
      the non-zero amount; it carries exactly that amount and changes no storage. */
  lemma SubmitBidGate(s: Storage, e: Env, sender: Addr, amount: nat, premiumSlot: nat)
    ensures var r := SubmitBid(s, e, sender, amount, premiumSlot);
            (r == Err(Unauthorized) <==> !Permitted(s.permissions, sender)) &&
            (r.Ok? <==> Permitted(s.permissions, sender) && 0 < amount <= e.ust) &&
            (r.Ok? ==> r.value.state == s && |r.value.response.messages| == 1 &&
                       r.value.response.messages[0].uusdFunds == amount)
  {
  }

  // ----- activate_bid -----

  function ActivateBid(s: Storage, e: Env, sender: Addr): Outcome {
    Outcome(s, Response(
      [WasmExecute(s.anchorLiquidationQueue, ActivateBids(s.collateralToken, Some(ActivationAsWritten(e.bids, e.now))), 0)],
      [Attr("action", Text("activate")), Attr("from", Text(sender))]))
  }

  /** Activation changes no storage and asks only for bids whose wait has ended. */
  lemma ActivateBidSound(s: Storage, e: Env, sender: Addr)
    ensures var o := ActivateBid(s, e, sender);
            o.state == s && |o.response.messages| == 1 &&
            var m := o.response.messages[0].msg;
            m.ActivateBids? && m.bidsIdx.Some? &&
            forall x :: x in m.bidsIdx.value ==> IsDueIdx(e.bids, x, e.now)
  {
    forall x | x in ActivationAsWritten(e.bids, e.now) ensures IsDueIdx(e.bids, x, e.now) {
      ActivationAsWrittenSound(e.bids, x, e.now);
    }
  }

  // ----- set_permission -----

  /** As written: the permission stored back is the one read, not `new_permission`. */
  function SetPermission(s: Storage, sender: Addr, address: Addr, newPermission: bool): Result<Outcome> {
    if s.owner != sender then Err(Unauthorized)
    else
      var permission := Permitted(s.permissions, address);
      if permission == newPermission then Err(Invalidate)
      else
        var permissions := if !permission then s.permissions - {address} else s.permissions[address := permission];
        Ok(Outcome(s.(permissions := permissions), SetPermissionResponse(sender, address, newPermission)))
  }

  function SetPermissionResponse(sender: Addr, address: Addr, newPermission: bool): Response {
    Response([], [Attr("action", Text("set_permission")), Attr("from", Text(sender)),
                  Attr("to", Text(address)), Attr("submit_bid", Flag(newPermission))])
  }

  /** The discrepancy: a successful call never changes who may submit bids. */
  lemma SetPermissionNeverChanges(s: Storage, sender: Addr, address: Addr, newPermission: bool)
    requires SetPermission(s, sender, address, newPermission).Ok?
    ensures var t := SetPermission(s, sender, address, newPermission).value.state;
            forall a :: Permitted(t.permissions, a) <==> Permitted(s.permissions, a)
  {
  }

  /** The input that shows it: the owner grants an address that lacks the permission; the
      call succeeds, reports `submit_bid: true`, and the address still lacks it. */
  lemma GrantIsLost(s: Storage, address: Addr)
    requires !Permitted(s.permissions, address)
    ensures var r := SetPermission(s, s.owner, address, true);
            r.Ok? && r.value.response.attributes[3] == Attr("submit_bid", Flag(true)) &&
            !Permitted(r.value.state.permissions, address)
  {
  }

  /** The evidently intended behaviour: store `new_permission` (removing the entry for
      `false`). */
  function IntendedSetPermission(s: Storage, sender: Addr, address: Addr, newPermission: bool): Result<Outcome> {
    if s.owner != sender then Err(Unauthorized)
    else if Permitted(s.permissions, address) == newPermission then Err(Invalidate)
    else
      var permissions := if !newPermission then s.permissions - {address} else s.permissions[address := true];
      Ok(Outcome(s.(permissions := permissions), SetPermissionResponse(sender, address, newPermission)))
  }

  /** The corrected call succeeds exactly for the owner asking for a change, and then the
      address holds the new permission and nobody else's changes. */
  lemma IntendedSetPermissionSets(s: Storage, sender: Addr, address: Addr, newPermission: bool)
    ensures var r := IntendedSetPermission(s, sender, address, newPermission);
            (r.Ok? <==> s.owner == sender && Permitted(s.permissions, address) != newPermission) &&
            (r.Ok? ==>
               Permitted(r.value.state.permissions, address) == newPermission &&
               (forall a :: a != address ==> (Permitted(r.value.state.permissions, a) <==> Permitted(s.permissions, a))) &&
               r.value.state == s.(permissions := r.value.state.permissions))
  {
  }

  lemma SetPermissionPreservesWf(s: Storage, sender: Addr, address: Addr, newPermission: bool)
    requires Wf(s)
    ensures SetPermission(s, sender, address, newPermission).Ok? ==>
              Wf(SetPermission(s, sender, address, newPermission).value.state)
  {
  }

  // ----- update_config -----

  /** The storage and attribute list as `update_config` builds them field by field. */
  datatype Update = Update(state: Storage, attributes: seq<Attribute>)

  function SetOwner(u: Update, owner: Option<Addr>): Update {
    if owner.Some? && owner.value != u.state.owner then
      var s := u.state;
      Update(s.(owner := owner.value, permissions := (s.permissions - {s.owner})[owner.value := true]),
             u.attributes + [Attr("owner", Text(owner.value))])
    else u
  }

  function SetPaused(u: Update, paused: Option<bool>): Update {
    if paused.Some? && paused.value != u.state.paused then
      Update(u.state.(paused := paused.value), u.attributes + [Attr("paused", Flag(paused.value))])
    else u
  }

  function SetSwapWallet(u: Update, swapWallet: Option<Addr>): Update {
    if swapWallet.Some? && swapWallet.value != u.state.swapWallet then
      Update(u.state.(swapWallet := swapWallet.value), u.attributes + [Attr("swap_wallet", Text(swapWallet.value))])
    else u
  }

  function SetLockPeriod(u: Update, lockPeriod: Option<nat>): Update {
    if lockPeriod.Some? && lockPeriod.value != u.state.lockPeriod then
      Update(u.state.(lockPeriod := lockPeriod.value), u.attributes + [Attr("lock_period", Num(lockPeriod.value))])
    else u
  }

  function SetWithdrawLock(u: Update, withdrawLock: Option<nat>): Update {
    if withdrawLock.Some? && withdrawLock.value != u.state.withdrawLock then
      Update(u.state.(withdrawLock := withdrawLock.value), u.attributes + [Attr("withdraw_lock", Num(withdrawLock.value))])
    else u
  }

  function UpdateConfig(s: Storage, sender: Addr, owner: Option<Addr>, paused: Option<bool>,
                        swapWallet: Option<Addr>, lockPeriod: Option<nat>, withdrawLock: Option<nat>): Result<Outcome>
  {
    if s.owner != sender then Err(Unauthorized)
    else
      var start := Update(s, [Attr("action", Text("update_config")), Attr("from", Text(sender))]);
      var u := SetWithdrawLock(SetLockPeriod(SetSwapWallet(SetPaused(SetOwner(start, owner), paused), swapWallet), lockPeriod), withdrawLock);
      if |u.attributes| <= 2 then Err(Invalidate)
      else Ok(Outcome(u.state, Response([], u.attributes)))
  }

  /** A field is left alone when its argument is absent or equal to the stored value. */
  predicate Keeps<T(==)>(arg: Option<T>, current: T) {
    arg.None? || arg.value == current
  }

  function Changed<T(==)>(arg: Option<T>, current: T): nat {
    if Keeps(arg, current) then 0 else 1
  }

  /** What the five field steps do together: each given, different value is stored and
      adds one attribute. */
  lemma {:induction false} UpdateSteps(s: Storage, base: seq<Attribute>, owner: Option<Addr>, paused: Option<bool>,
                                       swapWallet: Option<Addr>, lockPeriod: Option<nat>, withdrawLock: Option<nat>)
    ensures var u := SetWithdrawLock(SetLockPeriod(SetSwapWallet(SetPaused(SetOwner(Update(s, base), owner), paused), swapWallet), lockPeriod), withdrawLock);
            var permissions := if Keeps(owner, s.owner) then s.permissions else (s.permissions - {s.owner})[owner.value := true];
            |u.attributes| == |base| + Changed(owner, s.owner) + Changed(paused, s.paused) + Changed(swapWallet, s.swapWallet) +
                              Changed(lockPeriod, s.lockPeriod) + Changed(withdrawLock, s.withdrawLock) &&
            u.state == s.(owner := OrElse(owner, s.owner), paused := OrElse(paused, s.paused),
                          swapWallet := OrElse(swapWallet, s.swapWallet), lockPeriod := OrElse(lockPeriod, s.lockPeriod),
                          withdrawLock := OrElse(withdrawLock, s.withdrawLock), permissions := permissions)
  {
    var permissions := if Keeps(owner, s.owner) then s.permissions else (s.permissions - {s.owner})[owner.value := true];
    var u1 := SetOwner(Update(s, base), owner);
    var t1 := s.(owner := OrElse(owner, s.owner), permissions := permissions);
    assert u1.state == t1;
    var u2 := SetPaused(u1, paused);
    SetPausedStep(u1, paused);
    var t2 := t1.(paused := OrElse(paused, s.paused));
    assert u2.state == t2;
    var u3 := SetSwapWallet(u2, swapWallet);
    SetSwapWalletStep(u2, swapWallet);
    var t3 := t2.(swapWallet := OrElse(swapWallet, s.swapWallet));
    assert u3.state == t3;
    var u4 := SetLockPeriod(u3, lockPeriod);
    SetLockPeriodStep(u3, lockPeriod);
    var t4 := t3.(lockPeriod := OrElse(lockPeriod, s.lockPeriod));
    assert u4.state == t4;
    SetWithdrawLockStep(u4, withdrawLock);
  }

  lemma SetPausedStep(u: Update, paused: Option<bool>)
    ensures SetPaused(u, paused) ==
            Update(u.state.(paused := OrElse(paused, u.state.paused)),
                   SetPaused(u, paused).attributes) &&
            |SetPaused(u, paused).attributes| == |u.attributes| + Changed(paused, u.state.paused)
  {
  }

  lemma SetSwapWalletStep(u: Update, swapWallet: Option<Addr>)
    ensures SetSwapWallet(u, swapWallet) ==
            Update(u.state.(swapWallet := OrElse(swapWallet, u.state.swapWallet)),
                   SetSwapWallet(u, swapWallet).attributes) &&
            |SetSwapWallet(u, swapWallet).attributes| == |u.attributes| + Changed(swapWallet, u.state.swapWallet)
  {
  }

  lemma SetLockPeriodStep(u: Update, lockPeriod: Option<nat>)
    ensures SetLockPeriod(u, lockPeriod) ==
            Update(u.state.(lockPeriod := OrElse(lockPeriod, u.state.lockPeriod)),
                   SetLockPeriod(u, lockPeriod).attributes) &&
            |SetLockPeriod(u, lockPeriod).attributes| == |u.attributes| + Changed(lockPeriod, u.state.lockPeriod)
  {
  }

  lemma SetWithdrawLockStep(u: Update, withdrawLock: Option<nat>)
    ensures SetWithdrawLock(u, withdrawLock) ==
            Update(u.state.(withdrawLock := OrElse(withdrawLock, u.state.withdrawLock)),
                   SetWithdrawLock(u, withdrawLock).attributes) &&
            |SetWithdrawLock(u, withdrawLock).attributes| == |u.attributes| + Changed(withdrawLock, u.state.withdrawLock)
  {
  }

  /** Change detection: the owner's call is refused exactly when it would change nothing;
      otherwise every given field is stored, the submit-bid permission moves from the old
      owner to the new one, and nothing else changes. */
  lemma UpdateConfigDetectsChange(s: Storage, sender: Addr, owner: Option<Addr>, paused: Option<bool>,
                                  swapWallet: Option<Addr>, lockPeriod: Option<nat>, withdrawLock: Option<nat>)
    ensures var r := UpdateConfig(s, sender, owner, paused, swapWallet, lockPeriod, withdrawLock);
            (sender != s.owner ==> r == Err(Unauthorized)) &&
            (sender == s.owner ==>
               (r == Err(Invalidate) <==>
                  Keeps(owner, s.owner) && Keeps(paused, s.paused) && Keeps(swapWallet, s.swapWallet) &&
                  Keeps(lockPeriod, s.lockPeriod) && Keeps(withdrawLock, s.withdrawLock))) &&
            (r.Ok? ==>
               var t := r.value.state;
               t != s &&
               t == s.(owner := OrElse(owner, s.owner), paused := OrElse(paused, s.paused),
                       swapWallet := OrElse(swapWallet, s.swapWallet), lockPeriod := OrElse(lockPeriod, s.lockPeriod),
                       withdrawLock := OrElse(withdrawLock, s.withdrawLock), permissions := t.permissions) &&
               (Keeps(owner, s.owner) ==> t.permissions == s.permissions) &&
               (!Keeps(owner, s.owner) ==>
                  Permitted(t.permissions, owner.value) && !Permitted(t.permissions, s.owner) &&
                  forall a :: a != s.owner && a != owner.value ==> (Permitted(t.permissions, a) <==> Permitted(s.permissions, a))))
  {
    if sender == s.owner {
      var base := [Attr("action", Text("update_config")), Attr("from", Text(sender))];
      UpdateSteps(s, base, owner, paused, swapWallet, lockPeriod, withdrawLock);
      var r := UpdateConfig(s, sender, owner, paused, swapWallet, lockPeriod, withdrawLock);
      if r.Ok? {
        var t := r.value.state;
        if !Keeps(owner, s.owner) {
          assert t.owner != s.owner;
        } else if !Keeps(paused, s.paused) {
          assert t.paused != s.paused;
        } else if !Keeps(swapWallet, s.swapWallet) {
          assert t.swapWallet != s.swapWallet;
        } else if !Keeps(lockPeriod, s.lockPeriod) {
          assert t.lockPeriod != s.lockPeriod;
        } else {
          assert t.withdrawLock != s.withdrawLock;
        }
      }
    }
  }

  lemma UpdateConfigPreservesWf(s: Storage, sender: Addr, owner: Option<Addr>, paused: Option<bool>,
                                swapWallet: Option<Addr>, lockPeriod: Option<nat>, withdrawLock: Option<nat>)
    requires Wf(s)
    requires lockPeriod.Some? ==> lockPeriod.value < U64
    requires withdrawLock.Some? ==> withdrawLock.value < U64
    ensures var r := UpdateConfig(s, sender, owner, paused, swapWallet, lockPeriod, withdrawLock);
            r.Ok? ==> Wf(r.value.state)
  {
    if sender == s.owner {
      var base := [Attr("action", Text("update_config")), Attr("from", Text(sender))];
      UpdateSteps(s, base, owner, paused, swapWallet, lockPeriod, withdrawLock);
      var permissions := if Keeps(owner, s.owner) then s.permissions else (s.permissions - {s.owner})[owner.value := true];
      ConfigKeepsWf(s, OrElse(owner, s.owner), OrElse(paused, s.paused), OrElse(swapWallet, s.swapWallet),
                    OrElse(lockPeriod, s.lockPeriod), OrElse(withdrawLock, s.withdrawLock), permissions);
    }
  }

  /** Changing only configuration fields keeps the storage well formed, provided the owner
      stays permitted and the periods fit in a u64. */
  lemma ConfigKeepsWf(s: Storage, owner: Addr, paused: bool, swapWallet: Addr, lockPeriod: nat, withdrawLock: nat,
                      permissions: map<Addr, bool>)
    requires Wf(s) && Permitted(permissions, owner) && lockPeriod < U64 && withdrawLock < U64
    ensures Wf(s.(owner := owner, paused := paused, swapWallet := swapWallet, lockPeriod := lockPeriod,
                  withdrawLock := withdrawLock, permissions := permissions))
  {
  }
}
