/** The two withdrawals of src/contract.rs: `withdraw_ust` (:298-512), which pays `uusd`
    and falls back to retracting bids, sending bLuna to the swap wallet and releasing
    locked claims early; and `withdraw_b_luna` (:514-608), which pays bLuna from the
    unlocked float or not at all. */
module Withdraw {
  import opened ContractErrors
  import opened Uint
  import opened Msg
  import opened Positions
  import opened Valuation
  import opened ClaimQueue
  import opened Retraction
  import opened Ledger

  /** The cooldown: a holder is locked while `last_deposit + withdraw_lock >= now`;
      a holder without a deposit record never is. */
  function CooldownActive(s: Storage, sender: Addr, now: nat): Result<bool> {
    if sender !in s.lastDeposit then Ok(false)
    else
      var until :- PlusSeconds(s.lastDeposit[sender], s.withdrawLock);
      Ok(until >= now)
  }

  /** `BALANCES.update` with `checked_sub`, whose error surfaces as a `StdError`. */
  function DebitShares(s: Storage, sender: Addr, share: nat): Result<nat> {
    if share <= BalanceOf(s, sender) then Ok(BalanceOf(s, sender) - share) else Err(StdOverflow)
  }

  function WithdrawAttributes(sender: Addr, share: nat, amount: nat, unlocked: nat): seq<Attribute> {
    [Attribute("action", Text("withdraw")), Attribute("to", Text(sender)),
     Attribute("share", Num(share)), Attribute("amount", Num(amount))] +
    (if unlocked != 0 then [Attribute("unlocked", Num(unlocked))] else [])
  }

  /** What the collateral fallback adds: its messages, the claim list and locked total it
      leaves, and how much it released early. */
  datatype Fallback = Fallback(messages: seq<Instruction>, claims: seq<Claim>, locked: nat, unlocked: nat)

  function NoFallback(s: Storage): Fallback {
    Fallback([], s.claims, s.lockedBLuna, 0)
  }

  /** (:444-497): the holder's pro-rata bLuna for the uncovered `left`, sent to the swap
      wallet on the holder's behalf; what the unlocked float cannot supply is released
      early from the claim list. `bLunaHeld` is the contract's own cw20 balance,
      `bLunaTotal` that balance plus the collateral pending in bids. */
  function CollateralFallback(s: Storage, bLunaHeld: nat, sender: Addr, share: nat, bLunaTotal: nat,
                              left: nat, withdrawCap: nat): Result<Fallback>
  {
    var amount :- CollateralWithdraw(bLunaTotal, share, left, withdrawCap, s.totalSupply);
    if amount == 0 then Ok(NoFallback(s))
    else
      var send := WasmExecute(s.collateralToken, Send(s.swapWallet, amount, Beneficiary(sender)), 0);
      var free :- Sub(bLunaHeld, s.lockedBLuna);
      if free < amount then
        var release :- ForcedRelease(s.claims, amount - free, 0);
        var locked :- if release.released != 0 then Sub(s.lockedBLuna, release.released) else Ok(s.lockedBLuna);
        Ok(Fallback([send], release.claims, locked, release.released))
      else Ok(Fallback([send], s.claims, s.lockedBLuna, 0))
  }

  function WithdrawUst(s: Storage, e: Env, sender: Addr, share: nat): Result<Outcome> {
    if share == 0 then Err(Invalidate)
    else
      var locked :- CooldownActive(s, sender, e.now);
      if locked then Err(Locked)
      else
        var balance :- DebitShares(s, sender, share);
        var totals :- SumPositions(e.bids, Totals(e.ust, e.bLuna));
        var cap :- UstTotalCap(totals.bLuna, totals.ust, e.price);
        var withdrawCap :- Payout(cap, share, s.totalSupply);
        if withdrawCap == 0 then Err(Insufficient)
        else
          var settlement :- Settle(s, e, sender, share, totals.bLuna, withdrawCap);
          var supply :- Sub(s.totalSupply, share);
          Ok(Outcome(s.(totalSupply := supply, balances := s.balances[sender := balance],
                        claims := settlement.fallback.claims, lockedBLuna := settlement.fallback.locked),
                     Response(settlement.messages,
                              WithdrawAttributes(sender, share, withdrawCap, settlement.fallback.unlocked))))
  }

  /** How a payout is settled: its messages and the collateral fallback taken. */
  datatype Settlement = Settlement(messages: seq<Instruction>, fallback: Fallback)

  /** (:367-497): a direct bank send when the `uusd` held covers the payout; otherwise
      retractions, the covered part as a bank send, and the collateral fallback for the
      rest. */
  function Settle(s: Storage, e: Env, sender: Addr, share: nat, bLunaTotal: nat, withdrawCap: nat): Result<Settlement> {
    if e.ust >= withdrawCap then Ok(Settlement([BankSend(sender, withdrawCap)], NoFallback(s)))
    else
      var plan := PlanRetraction(s.anchorLiquidationQueue, e.bids, withdrawCap - e.ust);
      var paid := if withdrawCap > plan.left then [BankSend(sender, withdrawCap - plan.left)] else [];
      var fallback :- if plan.left != 0
                      then CollateralFallback(s, e.bLuna, sender, share, bLunaTotal, plan.left, withdrawCap)
                      else Ok(NoFallback(s));
      Ok(Settlement(plan.messages + paid + fallback.messages, fallback))
  }

  function WithdrawBLuna(s: Storage, e: Env, sender: Addr, share: nat): Result<Outcome> {
    if share == 0 then Err(Invalidate)
    else
      var locked :- CooldownActive(s, sender, e.now);
      if locked then Err(Locked)
      else
        var balance :- DebitShares(s, sender, share);
        var cap :- SnapshotBLunaCap(e.ust, e.bLuna, e.bids, e.price);
        var withdrawCap :- Payout(cap, share, s.totalSupply);
        var supply :- Sub(s.totalSupply, share);
        var free :- Sub(e.bLuna, s.lockedBLuna);
        if free >= withdrawCap then
          Ok(Outcome(s.(totalSupply := supply, balances := s.balances[sender := balance]),
                     Response([WasmExecute(s.collateralToken, Transfer(sender, withdrawCap), 0)],
                              WithdrawAttributes(sender, share, withdrawCap, 0))))
        else Err(Locked)
  }

  // ----- cooldown and share conservation -----

  /** A zero share is refused before anything else; a holder whose last deposit plus the
      withdraw lock reaches the block time (boundary included) is refused; a holder with
      no deposit record is never held back by the cooldown. */
  lemma WithdrawCooldown(s: Storage, e: Env, sender: Addr, share: nat)
    ensures share == 0 ==> WithdrawUst(s, e, sender, share) == Err(Invalidate) &&
                           WithdrawBLuna(s, e, sender, share) == Err(Invalidate)
    ensures sender !in s.lastDeposit ==> CooldownActive(s, sender, e.now) == Ok(false)
    ensures sender in s.lastDeposit && s.lastDeposit[sender] + s.withdrawLock * NANOS_PER_SECOND < U64 ==>
              CooldownActive(s, sender, e.now) == Ok(e.now <= s.lastDeposit[sender] + s.withdrawLock * NANOS_PER_SECOND)
    ensures 0 < share && CooldownActive(s, sender, e.now) == Ok(true) ==>
              WithdrawUst(s, e, sender, share) == Err(Locked) && WithdrawBLuna(s, e, sender, share) == Err(Locked)
  {
  }

  /** Both withdrawals take `share` from the caller and from the supply and from nowhere
      else among the holders; a caller holding less is refused. */
  lemma WithdrawDebitsShares(s: Storage, e: Env, sender: Addr, share: nat)
    ensures 0 < share && CooldownActive(s, sender, e.now) == Ok(false) && BalanceOf(s, sender) < share ==>
              WithdrawUst(s, e, sender, share) == Err(StdOverflow) &&
              WithdrawBLuna(s, e, sender, share) == Err(StdOverflow)
    ensures WithdrawUst(s, e, sender, share).Ok? ==>
              var t := WithdrawUst(s, e, sender, share).value.state;
              0 < share <= BalanceOf(s, sender) && share <= s.totalSupply &&
              t.totalSupply == s.totalSupply - share &&
              t.balances == s.balances[sender := BalanceOf(s, sender) - share]
    ensures WithdrawBLuna(s, e, sender, share).Ok? ==>
              var t := WithdrawBLuna(s, e, sender, share).value.state;
              0 < share <= BalanceOf(s, sender) && share <= s.totalSupply &&
              t == s.(totalSupply := s.totalSupply - share,
                      balances := s.balances[sender := BalanceOf(s, sender) - share])
  {
  }

  // ----- withdraw_ust -----

  /** The payout in `uusd` in exact arithmetic: the holder's fraction of the vault's worth. */
  function UstPayout(s: Storage, e: Env, share: nat): nat
    requires 0 < s.totalSupply
  {
    UstValue(e.ust, e.bLuna, e.bids, e.price) * share / s.totalSupply
  }

  /** The payout of a successful withdrawal is the exact floor of share/supply of the
      vault's worth, never zero and never more than the worth. */
  lemma WithdrawUstPayout(s: Storage, e: Env, sender: Addr, share: nat)
    requires ValidEnv(e)
    requires WithdrawUst(s, e, sender, share).Ok?
    ensures 0 < s.totalSupply && 0 < UstPayout(s, e, share) <= UstValue(e.ust, e.bLuna, e.bids, e.price)
    ensures WithdrawUst(s, e, sender, share).value.response.attributes[3] == Attribute("amount", Num(UstPayout(s, e, share)))
  {
    SnapshotUstCapValue(e.ust, e.bLuna, e.bids, e.price);
    SumPositionsValue(e.bids, Totals(e.ust, e.bLuna));
    PayoutFloor(UstValue(e.ust, e.bLuna, e.bids, e.price), share, s.totalSupply);
  }

  /** A holder past the cooldown, with the shares and a computable valuation, whose
      exact payout floors to zero is refused with `Insufficient`. */
  lemma ZeroPayoutInsufficient(s: Storage, e: Env, sender: Addr, share: nat)
    requires ValidEnv(e)
    requires 0 < share && CooldownActive(s, sender, e.now) == Ok(false) && share <= BalanceOf(s, sender)
    requires 0 < s.totalSupply && e.bLuna + TotalPending(e.bids) < U128
    requires UstValue(e.ust, e.bLuna, e.bids, e.price) * share < U128
    requires UstPayout(s, e, share) == 0
    ensures WithdrawUst(s, e, sender, share) == Err(Insufficient)
  {
    var value := UstValue(e.ust, e.bLuna, e.bids, e.price);
    MulMonotone(1, share, value);
    SnapshotUstCapValue(e.ust, e.bLuna, e.bids, e.price);
    SumPositionsValue(e.bids, Totals(e.ust, e.bLuna));
    PayoutFloor(value, share, s.totalSupply);
  }

  /** Direct fill: when the `uusd` held covers the payout, one bank send of exactly the
      payout is all that happens, and the bLuna lock and the claims are untouched. */
  lemma DirectFill(s: Storage, e: Env, sender: Addr, share: nat)
    requires ValidEnv(e)
    requires WithdrawUst(s, e, sender, share).Ok?
    requires 0 < s.totalSupply && UstPayout(s, e, share) <= e.ust
    ensures var o := WithdrawUst(s, e, sender, share).value;
            o.response.messages == [BankSend(sender, UstPayout(s, e, share))] &&
            o.state == s.(totalSupply := s.totalSupply - share,
                          balances := s.balances[sender := BalanceOf(s, sender) - share])
  {
    WithdrawUstPayout(s, e, sender, share);
  }

  /** Shortfall: the retraction messages come first, then one bank send of what the held
      `uusd` and the retracted bids cover (none if that is zero), then at most the one
      message of the collateral fallback. */
  lemma Shortfall(s: Storage, e: Env, sender: Addr, share: nat)
    requires ValidEnv(e)
    requires WithdrawUst(s, e, sender, share).Ok?
    requires 0 < s.totalSupply && e.ust < UstPayout(s, e, share)
    ensures var o := WithdrawUst(s, e, sender, share).value;
            var payout := UstPayout(s, e, share);
            var remaining := payout - e.ust;
            var plan := PlanRetraction(s.anchorLiquidationQueue, e.bids, remaining);
            var left := if TotalAmount(e.bids) < remaining then remaining - TotalAmount(e.bids) else 0;
            var paid := payout - left;
            var totals := SumPositions(e.bids, Totals(e.ust, e.bLuna)).value;
            var r := Settle(s, e, sender, share, totals.bLuna, payout);
            paid == e.ust + (remaining - left) && r.Ok? && |r.value.fallback.messages| <= 1 &&
            o.response.messages == plan.messages + (if paid > 0 then [BankSend(sender, paid)] else []) + r.value.fallback.messages
  {
    WithdrawUstSettles(s, e, sender, share);
    var totals := SumPositions(e.bids, Totals(e.ust, e.bLuna)).value;
    SettleShortfall(s, e, sender, share, totals.bLuna, UstPayout(s, e, share));
  }

  /** When the retracted bids cover the shortfall, the retractions and one bank send of
      the whole payout are all that happens: claims, the bLuna lock and the attributes
      are as in a direct fill. */
  lemma ShortfallCovered(s: Storage, e: Env, sender: Addr, share: nat)
    requires ValidEnv(e)
    requires WithdrawUst(s, e, sender, share).Ok?
    requires 0 < s.totalSupply && e.ust < UstPayout(s, e, share)
    requires UstPayout(s, e, share) - e.ust <= TotalAmount(e.bids)
    ensures var o := WithdrawUst(s, e, sender, share).value;
            var plan := PlanRetraction(s.anchorLiquidationQueue, e.bids, UstPayout(s, e, share) - e.ust);
            o.response.messages == plan.messages + [BankSend(sender, UstPayout(s, e, share))] &&
            o.state.claims == s.claims && o.state.lockedBLuna == s.lockedBLuna && |o.response.attributes| == 4
  {
    WithdrawUstSettles(s, e, sender, share);
    var totals := SumPositions(e.bids, Totals(e.ust, e.bLuna)).value;
    SettleShortfall(s, e, sender, share, totals.bLuna, UstPayout(s, e, share));
  }

  /** A successful `withdraw_ust` is the settlement of its exact payout: the settlement's
      messages, its claims and lock, and the `unlocked` attribute only when something
      was released. */
  lemma WithdrawUstSettles(s: Storage, e: Env, sender: Addr, share: nat)
    requires ValidEnv(e)
    requires WithdrawUst(s, e, sender, share).Ok?
    ensures 0 < s.totalSupply
    ensures var o := WithdrawUst(s, e, sender, share).value;
            var totals := SumPositions(e.bids, Totals(e.ust, e.bLuna)).value;
            var r := Settle(s, e, sender, share, totals.bLuna, UstPayout(s, e, share));
            r.Ok? && o.response.messages == r.value.messages &&
            o.state.claims == r.value.fallback.claims && o.state.lockedBLuna == r.value.fallback.locked &&
            |o.response.attributes| == if r.value.fallback.unlocked != 0 then 5 else 4
  {
    WithdrawUstPayout(s, e, sender, share);
  }

  /** The whole storage and attribute list a successful `withdraw_ust` leaves, on every
      path: the share debited from the caller and the supply, the claims and lock of the
      settlement, nothing else changed; the attributes name the exact payout and, when
      claims were released early, the amount unlocked. */
  lemma WithdrawUstState(s: Storage, e: Env, sender: Addr, share: nat)
    requires ValidEnv(e)
    requires WithdrawUst(s, e, sender, share).Ok?
    ensures 0 < s.totalSupply
    ensures var o := WithdrawUst(s, e, sender, share).value;
            var totals := SumPositions(e.bids, Totals(e.ust, e.bLuna)).value;
            var r := Settle(s, e, sender, share, totals.bLuna, UstPayout(s, e, share));
            r.Ok? &&
            o.response.attributes == WithdrawAttributes(sender, share, UstPayout(s, e, share), r.value.fallback.unlocked) &&
            o.state == s.(totalSupply := s.totalSupply - share,
                          balances := s.balances[sender := BalanceOf(s, sender) - share],
                          claims := r.value.fallback.claims, lockedBLuna := r.value.fallback.locked)
  {
    WithdrawUstPayout(s, e, sender, share);
  }

  /** The settlement of a payout the held `uusd` does not cover: the plan's retractions,
      then the covered part as one bank send, then at most the collateral message; with
      nothing left uncovered there is no fallback. */
  lemma SettleShortfall(s: Storage, e: Env, sender: Addr, share: nat, bLunaTotal: nat, withdrawCap: nat)
    requires e.ust < withdrawCap
    requires Settle(s, e, sender, share, bLunaTotal, withdrawCap).Ok?
    ensures var st := Settle(s, e, sender, share, bLunaTotal, withdrawCap).value;
            var remaining := withdrawCap - e.ust;
            var plan := PlanRetraction(s.anchorLiquidationQueue, e.bids, remaining);
            var left := if TotalAmount(e.bids) < remaining then remaining - TotalAmount(e.bids) else 0;
            var paid := withdrawCap - left;
            var ms := st.messages;
            var k := |plan.messages|;
            plan.left == left && |st.fallback.messages| <= 1 &&
            ms == plan.messages + (if paid > 0 then [BankSend(sender, paid)] else []) + st.fallback.messages &&
            (left == 0 ==> st.fallback == NoFallback(s))
  {
    PlanLeft(s.anchorLiquidationQueue, e.bids, withdrawCap - e.ust);
  }

  /** The collateral fallback, for 0 < left ≤ payout and 0 < share ≤ supply, fails only by
      a panic; it sends the exact pro-rata amount (at most the bLuna counted in the cap)
      and, when the unlocked float is short by `excess`, releases min(excess, locked) from
      the front of the claim list and lowers the lock by the same amount. */
  lemma CollateralFallbackSpec(s: Storage, bLunaHeld: nat, sender: Addr, share: nat, bLunaTotal: nat,
                               left: nat, withdrawCap: nat)
    requires Wf(s)
    requires 0 < left <= withdrawCap && 0 < share <= s.totalSupply
    ensures var r := CollateralFallback(s, bLunaHeld, sender, share, bLunaTotal, left, withdrawCap);
            (r.Err? ==> r.error == Panic) &&
            (r.Ok? ==>
               var amount := ExactCollateralWithdraw(bLunaTotal, share, left, withdrawCap, s.totalSupply);
               var f := r.value;
               amount <= bLunaTotal &&
               (amount == 0 ==> f == NoFallback(s)) &&
               (amount > 0 ==>
                  s.lockedBLuna <= bLunaHeld &&
                  f.messages == [WasmExecute(s.collateralToken, Send(s.swapWallet, amount, Beneficiary(sender)), 0)] &&
                  (amount <= bLunaHeld - s.lockedBLuna ==>
                     f.claims == s.claims && f.locked == s.lockedBLuna && f.unlocked == 0) &&
                  (bLunaHeld - s.lockedBLuna < amount ==>
                     f.unlocked == Min(amount - (bLunaHeld - s.lockedBLuna), s.lockedBLuna) &&
                     f.locked + f.unlocked == s.lockedBLuna &&
                     Sum(f.claims) == f.locked && TrimmedFrom(f.claims, s.claims) && WellFormed(f.claims))))
  {
    var r := CollateralFallback(s, bLunaHeld, sender, share, bLunaTotal, left, withdrawCap);
    CollateralWithdrawSafe(bLunaTotal, share, left, withdrawCap, s.totalSupply);
    if CollateralWithdraw(bLunaTotal, share, left, withdrawCap, s.totalSupply).Ok? {
      var amount := ExactCollateralWithdraw(bLunaTotal, share, left, withdrawCap, s.totalSupply);
      if amount > 0 && s.lockedBLuna <= bLunaHeld && bLunaHeld - s.lockedBLuna < amount {
        ForcedReleaseSpec(s.claims, amount - (bLunaHeld - s.lockedBLuna), 0);
        var release := ForcedRelease(s.claims, amount - (bLunaHeld - s.lockedBLuna), 0).value;
        TrimmedWellFormed(release.claims, s.claims);
      }
    }
  }

  lemma WithdrawUstPreservesWf(s: Storage, e: Env, sender: Addr, share: nat)
    requires Wf(s)
    ensures WithdrawUst(s, e, sender, share).Ok? ==> Wf(WithdrawUst(s, e, sender, share).value.state)
  {
    if WithdrawUst(s, e, sender, share).Ok? {
      var t := WithdrawUst(s, e, sender, share).value.state;
      SumMapUpdate(s.balances, sender, t.balances[sender]);
      BalanceAtMostSupply(s, sender);
      var totals := SumPositions(e.bids, Totals(e.ust, e.bLuna)).value;
      var cap := UstTotalCap(totals.bLuna, totals.ust, e.price).value;
      var withdrawCap := Payout(cap, share, s.totalSupply).value;
      SettleKeepsClaims(s, e, sender, share, totals.bLuna, withdrawCap);
    }
  }

  /** A settlement leaves a well-formed claim list summing to the new lock, which is at
      most the old one. */
  lemma SettleKeepsClaims(s: Storage, e: Env, sender: Addr, share: nat, bLunaTotal: nat, withdrawCap: nat)
    requires Wf(s) && 0 < share <= s.totalSupply
    ensures var r := Settle(s, e, sender, share, bLunaTotal, withdrawCap);
            r.Ok? ==>
              WellFormed(r.value.fallback.claims) && Sum(r.value.fallback.claims) == r.value.fallback.locked &&
              r.value.fallback.locked <= s.lockedBLuna &&
              (r.value.fallback.claims == s.claims || TrimmedFrom(r.value.fallback.claims, s.claims))
  {
    if e.ust < withdrawCap {
      var plan := PlanRetraction(s.anchorLiquidationQueue, e.bids, withdrawCap - e.ust);
      PlanExhausts(s.anchorLiquidationQueue, e.bids, withdrawCap - e.ust);
      if plan.left != 0 {
        CollateralFallbackSpec(s, e.bLuna, sender, share, bLunaTotal, plan.left, withdrawCap);
      }
    }
  }

  /** The early release of `withdraw_ust` keeps the claim list in timestamp order. */
  lemma WithdrawUstKeepsOrder(s: Storage, e: Env, sender: Addr, share: nat)
    requires Wf(s) && TimestampsOrdered(s.claims)
    ensures WithdrawUst(s, e, sender, share).Ok? ==> TimestampsOrdered(WithdrawUst(s, e, sender, share).value.state.claims)
  {
    if WithdrawUst(s, e, sender, share).Ok? {
      BalanceAtMostSupply(s, sender);
      var totals := SumPositions(e.bids, Totals(e.ust, e.bLuna)).value;
      var cap := UstTotalCap(totals.bLuna, totals.ust, e.price).value;
      var withdrawCap := Payout(cap, share, s.totalSupply).value;
      SettleKeepsClaims(s, e, sender, share, totals.bLuna, withdrawCap);
      var f := Settle(s, e, sender, share, totals.bLuna, withdrawCap).value.fallback;
      if f.claims != s.claims {
        TrimmedKeepsOrder(f.claims, s.claims);
      }
    }
  }

  // ----- withdraw_b_luna -----

  /** The payout in bLuna in exact arithmetic. */
  function BLunaPayout(s: Storage, e: Env, share: nat): nat
    requires 0 < s.totalSupply && 0 < e.price
  {
    BLunaValue(e.ust, e.bLuna, e.bids, e.price) * share / s.totalSupply
  }

  /** All or nothing: a successful call transfers exactly the pro-rata bLuna payout in one
      message, and only out of the unlocked float; a payout the float cannot cover is
      refused with `Locked` (a zero payout is not refused). */
  lemma WithdrawBLunaAllOrNothing(s: Storage, e: Env, sender: Addr, share: nat)
    requires ValidEnv(e)
    ensures var r := WithdrawBLuna(s, e, sender, share);
            r.Ok? ==>
              0 < s.totalSupply && 0 < e.price &&
              s.lockedBLuna + BLunaPayout(s, e, share) <= e.bLuna &&
              r.value.response.messages == [WasmExecute(s.collateralToken, Transfer(sender, BLunaPayout(s, e, share)), 0)]
    ensures var r := WithdrawBLuna(s, e, sender, share);
            0 < share && CooldownActive(s, sender, e.now) == Ok(false) && share <= BalanceOf(s, sender) &&
            0 < e.price && e.ust + TotalAmount(e.bids) < U128 &&
            BLunaValue(e.ust, e.bLuna, e.bids, e.price) * share < U128 &&
            0 < s.totalSupply && share <= s.totalSupply && s.lockedBLuna <= e.bLuna ==>
              (r.Ok? <==> s.lockedBLuna + BLunaPayout(s, e, share) <= e.bLuna) &&
              (r.Err? ==> r.error == Locked)
  {
    SnapshotBLunaCapValue(e.ust, e.bLuna, e.bids, e.price);
    if 0 < e.price && 0 < s.totalSupply {
      var value := BLunaValue(e.ust, e.bLuna, e.bids, e.price);
      PayoutFloor(value, share, s.totalSupply);
      if 0 < share && value * share < U128 {
        MulMonotone(1, share, value);
      }
    }
  }

  lemma WithdrawBLunaPreservesWf(s: Storage, e: Env, sender: Addr, share: nat)
    requires Wf(s)
    ensures WithdrawBLuna(s, e, sender, share).Ok? ==> Wf(WithdrawBLuna(s, e, sender, share).value.state)
  {
    if WithdrawBLuna(s, e, sender, share).Ok? {
      var t := WithdrawBLuna(s, e, sender, share).value.state;
      SumMapUpdate(s.balances, sender, t.balances[sender]);
    }
  }
}
