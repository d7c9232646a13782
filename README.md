# Kujira aUST vault: a Dafny model of `src/contract.rs`

The vault is a CosmWasm contract.
- Holders deposit UST (`uusd`) and receive shares.
- With the pooled UST, the owner and the permitted addresses place bids in Anchor's bLuna liquidation queue.
- Liquidated bLuna is claimed into a time-locked claim list and unlocked after `lock_period`.
- The unlocked surplus is swapped back to UST, or withdrawn pro rata.
- A withdrawal pays UST in one of three ways:
  - directly, when the UST held covers it;
  - by retracting bid UST, when it does not;
  - from the holder's share of the bLuna, for what stays uncovered. This can release claims before their lock ends.

The model is pure Dafny, one module per concern:

| module | file | what it holds |
|---|---|---|
| `ContractErrors` | errors.dfy | the contract's errors, `Panic` for a Rust panic, a `Result` with `:-` |
| `Uint` | uint.dfy | Uint128/u64 widths, panicking and checked operations, Decimal256 multiplication, `plus_seconds` |
| `Msg` | msg.dfy | bids, coins, the query snapshot `Env`, responses and the outgoing instructions |
| `Positions` | positions.dfy | the bid aggregation loops, `query_activatable`, `query_claimable` |
| `Pagination` | pagination.dfy | paging by 31, and the `activate_bid` selection, which depends on page ends |
| `Valuation` | valuation.dfy | total caps, minting, payout, the collateral formula, exact-arithmetic worth |
| `ClaimQueue` | claims.dfy | the claim list, the `unlock` scan, the forced release, `query_unlockable` |
| `Retraction` | retraction.dfy | the shortfall scan over the bids in `withdraw_ust` |
| `Ledger` | ledger.dfy | the storage value, the invariant `Wf`, the outcome of a call |
| `Execute` | execute.dfy | one pure definition per entry point except the withdrawals, with its lemmas |
| `Withdraw` | withdraw.dfy | `withdraw_ust` and `withdraw_b_luna` as pure definitions, with their lemmas |
| `Contract` | contract.dfy | `class Vault`: the fields of `STATE` and the four maps, one method per entry point, the query readers |

`Contract.Vault` holds the `State` record and the `BALANCES`, `LAST_DEPOSIT`, `PERMISSIONS` and `CLAIM_LIST` stores. Each entry point is a method:
- It runs the source's loops over the query snapshot and writes the storage in place.
- It is proved to return what the matching pure definition returns.
- It is proved to leave the storage that definition describes, and the old storage on any error.
- It is proved to keep `Ledger.Wf`: the supply is the sum of the balances and fits Uint128; the claim list is well formed and sums to `locked_b_luna`; the owner may submit bids; the u64 settings fit.

The properties are proved about the pure definitions.

The model makes these assumptions:
- Every outside answer is a parameter `Env`: the `uusd` balance, the bLuna balance, the vault's bids, the oracle price and the block time in nanoseconds.
- `Decimal256` is taken as 18-decimal fixed point, and Uint128 values as naturals below 2^128.
- A Rust panic (plain Uint128 arithmetic, `unwrap`, u64 `plus_seconds` overflow) aborts the call. It is modelled as `Error.Panic`.

## Model

| member | source | states |
|---|---|---|
| Positions.SumPositionsValue | src/contract.rs:160-182 | the valuation loop succeeds iff the UST total and the bLuna total fit Uint128, and then yields the held balances plus every bid's amount and pending collateral |
| Positions.SumPendingValue | src/contract.rs:615-635 | the pending-collateral loop succeeds iff the total fits Uint128, and then yields the sum of pending collateral |
| Positions.Aggregate | src/contract.rs:172-177 | the per-bid loop of the valuations computes exactly SumPositions, conversion overflow and panic included |
| Positions.PendingCollateral | src/contract.rs:615-635 | the `claim_liquidation` loop computes exactly SumPending |
| Positions.QueryActivatable | src/contract.rs:960-984 | true iff some bid has a wait end before the current block second |
| Positions.QueryClaimable | src/contract.rs:986-1010 | true iff some bid holds pending liquidated collateral |
| Pagination.After | src/contract.rs:163-171 | the queue's `start_after` answer is never longer than the bid list |
| Pagination.AfterFrom | src/contract.rs:163-171 | with increasing indices, continuing after a cursor returns exactly the suffix past it |
| Pagination.CollectPages | src/contract.rs:160-182 | paging by 31 from `start_after = 0`, stopping on a short page, visits every bid once and in order |
| Pagination.DueBidsExact | src/contract.rs:960-984 | an index is in the reference selection iff its bid's wait has ended |
| Pagination.PageActivationsSound | src/contract.rs:272-280 | a page's selection holds only due bids |
| Pagination.ActivationAsWrittenSound | src/contract.rs:258-285 | `activate_bid` asks only for due bids |
| Pagination.ActivationMissesDueBid | src/contract.rs:272-280 | a due bid after a still-waiting bid on the same page is not selected, though `query_activatable` reports it |
| Pagination.ScanPage | src/contract.rs:272-280 | the per-page loop with its `break` computes the page's selection |
| Pagination.SelectActivations | src/contract.rs:258-285 | the paged scan computes the as-written selection over all bids |
| Valuation.UstTotalCapValue | src/contract.rs:192 | the UST cap is the floored bLuna worth plus the UST, and fails iff that exceeds Uint128 |
| Valuation.BLunaTotalCapValue | src/contract.rs:581-582 | a zero price panics (`inv().unwrap()`); otherwise the cap is bLuna plus the UST at the inverse price, within Uint128 |
| Valuation.MintProRata | src/contract.rs:193-198 | one share per uusd into an empty vault; a zero cap with shares outstanding is DivideByZero; otherwise the floor of amount·supply/cap |
| Valuation.MintMonotone | src/contract.rs:193-198 | a larger deposit never mints fewer shares |
| Valuation.PayoutFloor | src/contract.rs:367 | the payout succeeds iff cap·share fits Uint128 and the supply is not zero; it is the floor of cap·share/supply |
| Valuation.PayoutMonotone | src/contract.rs:367 | redeeming more shares against the same snapshot never pays less |
| Valuation.PayoutNotStrictlyMonotone | src/contract.rs:367 | two different share amounts can be paid the same: payout is not strictly monotone |
| Valuation.DepositThenRedeemNoProfit | src/contract.rs:193-198 | with shares outstanding, depositing and then redeeming the minted shares against the grown vault returns at most the deposit |
| Valuation.FirstDepositorTakesAll | src/contract.rs:193-198 | with no shares outstanding a deposit mints one share per uusd, and redeeming them returns the deposit plus everything the vault already held |
| Valuation.ExactCollateralWithdraw | src/contract.rs:446-448 | the collateral formula in exact arithmetic never exceeds the bLuna total |
| Valuation.CollateralWithdrawSafe | src/contract.rs:446-448 | on the shortfall path the formula fails only by Uint128 overflow of bLuna·share·left, and otherwise equals the exact value |
| Valuation.CollateralWithdrawOverflows | src/contract.rs:446-448 | a vault of 10^13 bLuna units and a holder of 10^14 of 5·10^14 shares make the formula panic while its exact value is 1111111111111 |
| Valuation.SnapshotUstCapValue | src/contract.rs:915-957 | aggregation plus UST cap is the exact UST worth of the snapshot, computed iff the bLuna total and that worth fit |
| Valuation.SnapshotBLunaCapValue | src/contract.rs:552-582 | aggregation plus bLuna cap is the exact bLuna worth; a zero price is an error |
| ClaimQueue.SumAppend | src/contract.rs:645-654 | appending a record adds its amount to the total |
| ClaimQueue.SumSplit | src/contract.rs:677-693 | the total of a list is the total of any prefix plus the rest |
| ClaimQueue.AppendPreserves | src/contract.rs:639-654 | a record under the next key keeps keys increasing within u32 and amounts positive, and grows the sum by its amount |
| ClaimQueue.ScanUnlock | src/contract.rs:677-685 | the scan never releases more records than there are |
| ClaimQueue.UnlockScan | src/contract.rs:673-688 | the `unlock` loop computes exactly ScanUnlock |
| ClaimQueue.ScanUnlockPrefix | src/contract.rs:677-685 | unlock releases the longest prefix of due records, and the released total is that prefix's sum |
| ClaimQueue.ScanUnlockSucceeds | src/contract.rs:677-685 | the scan cannot panic while due dates fit u64 and the total fits Uint128 |
| ClaimQueue.UnlockReleasesExactlyDue | src/contract.rs:677-685 | with timestamp-ordered records, unlock releases exactly the due ones |
| ClaimQueue.AppendKeepsOrder | src/contract.rs:645-652 | a record stamped no earlier than the newest one keeps the list in timestamp order |
| ClaimQueue.SuffixKeepsOrder | src/contract.rs:687 | dropping released records from the front keeps timestamp order |
| ClaimQueue.FifoScenario | src/contract.rs:677-685 | of records at T1 < T2 < T3, unlocking at T2 + lock period releases the first two |
| ClaimQueue.UnlockableAgrees | src/contract.rs:1020-1030 | looking only at the oldest record answers whether unlock would release something |
| ClaimQueue.ForcedReleaseSpec | src/contract.rs:461-496 | the forced release draws min(excess, total) from the front, dropping exhausted records and reducing the first remaining one |
| ClaimQueue.TrimmedWellFormed | src/contract.rs:470-492 | trimming the front keeps a well-formed list well formed |
| ClaimQueue.TrimmedKeepsOrder | src/contract.rs:470-492 | trimming the front keeps timestamp order |
| ClaimQueue.ReleaseClaims | src/contract.rs:463-496 | the forced-release loop computes exactly ForcedRelease |
| Retraction.PlanExhausts | src/contract.rs:390-434 | when the bids do not cover the shortfall, every non-empty bid is retracted whole and the uncovered rest remains |
| Retraction.PlanCovers | src/contract.rs:390-434 | when covered, the scan stops at the first bid where the running total reaches the shortfall: whole retractions before it, one partial retraction of exactly the rest |
| Retraction.PlanLeft | src/contract.rs:390-434 | what stays uncovered is the shortfall minus all bid UST, or nothing |
| Retraction.PlanShape | src/contract.rs:390-434 | the two outcomes together: at most one partial retraction, always the last message |
| Retraction.RetractionLoop | src/contract.rs:392-433 | the loop computes exactly PlanRetraction |
| Ledger.SumMapRemove | src/state.rs:33 | the balance sum is one entry plus the sum of the rest |
| Ledger.SumMapUpdate | src/contract.rs:201-205 | writing a balance changes the sum by exactly the difference at that entry |
| Ledger.EntryAtMostSum | src/state.rs:33 | no entry exceeds the sum |
| Ledger.BalanceAtMostSupply | src/contract.rs:318-322 | in a valid vault no holder owns more than the supply |
| Execute.InstantiateWf | src/contract.rs:36-77 | a new vault has no shares and no claims, the owner's permission, the default settings, and is valid |
| Execute.DepositRejects | src/contract.rs:128-198 | anything but one non-zero uusd coin is Invalidate, then a paused vault is Paused; with shares outstanding, a zero cap is DivideByZero and an oversized amount·supply is Overflow |
| Execute.DepositMints | src/contract.rs:126-212 | a successful deposit took one uusd coin into an unpaused vault, minted the shares of Minted to the sender and the supply, and stamped the block time |
| Execute.DepositPreservesWf | src/contract.rs:199-205 | deposit keeps the invariant |
| Execute.ClaimLiquidationAppends | src/contract.rs:610-670 | nothing pending is Insufficient; otherwise one record of everything pending, at the block time under the next key, added to the lock, and the one `ClaimLiquidations` message to the queue |
| Execute.ClaimLiquidationKeepsOrder | src/contract.rs:645-652 | claiming at a block time no earlier than the newest record keeps the claims in timestamp order |
| Execute.ClaimLiquidationPreservesWf | src/contract.rs:639-654 | claiming keeps the invariant |
| Execute.UnlockReleasesPrefix | src/contract.rs:672-700 | no claims is Insufficient; success removes a non-empty prefix of due records and lowers the lock by its sum |
| Execute.SuffixWellFormed | src/contract.rs:687 | removing a prefix keeps a claim list well formed |
| Execute.UnlockPreservesWf | src/contract.rs:672-700 | unlock keeps the invariant |
| Execute.UnlockKeepsOrder | src/contract.rs:672-700 | unlock keeps the claims in timestamp order |
| Execute.SwapSendsSurplus | src/contract.rs:747-793 | no surplus is Insufficient, a lock above the bLuna held panics; otherwise the whole unlocked surplus goes to the router in one message, storage unchanged |
| Execute.SubmitBidGate | src/contract.rs:214-256 | a bid is placed iff the sender is permitted and the amount is non-zero and at most the UST held |
| Execute.ActivateBidSound | src/contract.rs:258-296 | activation changes no storage and asks for due bids only |
| Execute.SetPermissionNeverChanges | src/contract.rs:702-745 | as written, a successful call leaves every permission as it was |
| Execute.GrantIsLost | src/contract.rs:712-737 | the owner granting an unpermitted address succeeds and the address is still not permitted |
| Execute.IntendedSetPermissionSets | src/contract.rs:702-745 | the corrected call succeeds iff the owner asks for a change, and then stores exactly the new permission |
| Execute.SetPermissionPreservesWf | src/contract.rs:702-745 | set_permission keeps the invariant |
| Execute.UpdateSteps | src/contract.rs:808-855 | the five field steps store each given, different value and add one attribute per change |
| Execute.UpdateConfigDetectsChange | src/contract.rs:795-861 | a non-owner is Unauthorized; the owner's call fails iff nothing changes, and otherwise stores the changes |
| Execute.UpdateConfigPreservesWf | src/contract.rs:795-861 | update_config keeps the invariant, moving the submit-bid permission with the owner |
| Withdraw.WithdrawCooldown | src/contract.rs:304-317 | zero shares is Invalidate; a holder is locked while last deposit + withdraw lock ≥ now, and is then refused |
| Withdraw.WithdrawDebitsShares | src/contract.rs:318-322 | a short balance is StdOverflow; success takes the share from the sender and from the supply only |
| Withdraw.WithdrawUstPayout | src/contract.rs:335-370 | the payout is the non-zero exact floor of share/supply of the vault's UST worth |
| Withdraw.ZeroPayoutInsufficient | src/contract.rs:367-370 | a holder past the cooldown with enough shares and a computable valuation whose exact payout floors to zero is refused with Insufficient |
| Withdraw.DirectFill | src/contract.rs:372-388 | when the UST held covers the payout: one bank send of it, claims untouched |
| Withdraw.Shortfall | src/contract.rs:390-497 | otherwise the retractions first, then one bank send of UST held plus covered, then at most one collateral send |
| Withdraw.ShortfallCovered | src/contract.rs:390-443 | when the bids cover the shortfall: the retractions and one send of the whole payout, claims untouched |
| Withdraw.WithdrawUstSettles | src/contract.rs:367-510 | a successful withdrawal is the settlement of its exact payout, with the attributes it names |
| Withdraw.WithdrawUstState | src/contract.rs:318-322 | on every path the new storage is the share debited from the caller and the supply plus the settlement's claims and lock, nothing else; the attributes name the exact payout and any early-unlocked amount |
| Withdraw.SettleShortfall | src/contract.rs:390-497 | the settlement's messages are the plan, the covered send and the fallback's messages |
| Withdraw.CollateralFallbackSpec | src/contract.rs:444-497 | the fallback fails only by a panic; it sends the exact pro-rata bLuna in one message, and when the unlocked float is short it releases min(shortage, locked) from the front of the claims and lowers the lock by as much |
| Withdraw.SettleKeepsClaims | src/contract.rs:444-497 | a settlement leaves a well-formed claim list summing to a lock no larger than before, either unchanged or trimmed from the front |
| Withdraw.WithdrawUstPreservesWf | src/contract.rs:298-512 | withdraw_ust keeps the invariant |
| Withdraw.WithdrawUstKeepsOrder | src/contract.rs:461-496 | the early release keeps the claims in timestamp order |
| Withdraw.WithdrawBLunaAllOrNothing | src/contract.rs:584-607 | success sends exactly the pro-rata bLuna in one transfer, out of the unlocked float; in range, the call succeeds iff the float covers the payout and otherwise fails with Locked |
| Withdraw.WithdrawBLunaPreservesWf | src/contract.rs:514-608 | withdraw_b_luna keeps the invariant |
| Contract.Vault.constructor | src/contract.rs:36-77 | the fields are the instantiated storage, valid when the u64 settings fit |
| Contract.Vault.Save | src/contract.rs:200 | the fields become the given storage |
| Contract.Vault.Deposit | src/contract.rs:126-212 | returns and stores what Execute.Deposit describes, nothing on error, and keeps validity |
| Contract.Vault.WithdrawUst | src/contract.rs:298-512 | returns and stores what Withdraw.WithdrawUst describes, nothing on error, and keeps validity |
| Contract.Vault.Settle | src/contract.rs:367-497 | computes Withdraw.Settle with the retraction loop and the fallback |
| Contract.Vault.CollateralFallback | src/contract.rs:444-497 | computes Withdraw.CollateralFallback with the forced-release loop |
| Contract.Vault.WithdrawBLuna | src/contract.rs:514-608 | returns and stores what Withdraw.WithdrawBLuna describes, nothing on error, and keeps validity |
| Contract.Vault.ClaimLiquidation | src/contract.rs:610-670 | returns and stores what Execute.ClaimLiquidation describes, and keeps validity |
| Contract.Vault.Unlock | src/contract.rs:672-700 | returns and stores what Execute.Unlock describes, and keeps validity |
| Contract.Vault.Swap | src/contract.rs:747-793 | returns what Execute.Swap describes and changes nothing |
| Contract.Vault.SubmitBid | src/contract.rs:214-256 | returns what Execute.SubmitBid describes and changes nothing |
| Contract.Vault.ActivateBid | src/contract.rs:258-296 | returns what Execute.ActivateBid describes, with the paged selection, and changes nothing |
| Contract.Vault.SetPermission | src/contract.rs:702-745 | returns and stores what the as-written Execute.SetPermission describes, and keeps validity |
| Contract.Vault.UpdateConfig | src/contract.rs:795-861 | returns and stores what Execute.UpdateConfig describes, and keeps validity |
| Contract.Vault.QueryInfo | src/contract.rs:884-890 | in a valid vault the locked bLuna is the claims' sum and the supply the balances' sum |
| Contract.Vault.QueryBalance | src/contract.rs:907-913 | an unknown address holds nothing |
| Contract.Vault.BalanceBounded | src/contract.rs:907-913 | in a valid vault no balance exceeds the supply |
| Contract.Vault.QueryPermission | src/contract.rs:1012-1018 | the owner of a valid vault is permitted; an unknown address is not |
| Contract.Vault.QueryLastDepositTimestamp | src/contract.rs:1032-1042 | zero for an address that never deposited; below 2^64 in a valid vault |
| Contract.Vault.QueryUnlockable | src/contract.rs:1020-1030 | no claims answers no; yes means the oldest claim is due |
| Contract.Vault.UnlockableMeansUnlock | src/contract.rs:1020-1030 | in a valid vault the query answers exactly whether unlock would release something |
| Contract.Vault.QueryTotalCap | src/contract.rs:915-958 | computed iff the totals fit, and then the exact UST worth of the snapshot |

## Left out

- Message dispatch (src/contract.rs:79-124, 864-882) and JSON (de)serialisation: each entry point is called directly.
- Address validation, canonicalisation and lower-casing: addresses are opaque strings. Holders are assumed to be already canonical.
- `set_contract_version` and the schema: they are not part of this model.
- Outside queries (bank balance, cw20 balance, `BidsByUser`, oracle price) are one consistent snapshot `Env`. The queue's paging answer is assumed to be `Pagination.After`: ascending index order, starting past the cursor.
- The valuation and scan loops run over the whole snapshot in one pass. `Pagination.CollectPages` proves that the 31-bid paging visits the same bids. Only `activate_bid`, whose result depends on page ends, is modelled page by page.
- Outgoing messages are data (`Msg.Instruction`) and are not executed. Whether Anchor accepts a retraction is outside the model.
- `Decimal256` internals: the price is an 18-decimal numerator, and `max_spread` is `0.5` as that numerator.
- Error strings: errors are bare constructors.
- `Contract.Vault.QueryConfig`: it only reads fields, so it has no contract.
- The u64 width of `lock_period` and `withdraw_lock` given to `instantiate` and `update_config` is a conditional in the invariant lemmas, not a type.
- `Withdraw.WithdrawDebitsShares`: an insufficient balance is `StdOverflow`, the `StdError` raised by `checked_sub` inside `BALANCES.update`, not the contract's own `Overflow`.
- `Valuation.ExactCollateralWithdraw`: states only the bound by the bLuna total, not a tighter pro-rata bound.
- `Valuation.PayoutMonotone`: payout is monotone but not strict, because of the floor. A "strictly increasing" redemption rule does not hold for this code (`Valuation.PayoutNotStrictlyMonotone`).
- `Withdraw.WithdrawCooldown`: the lock holds at equality as well (`>=`). A withdrawal at exactly `last_deposit + withdraw_lock` is refused.
- A zero payout is refused by `withdraw_ust` only. `withdraw_b_luna` accepts a payout of zero bLuna, and the model keeps that.
- The payout and the collateral formula use plain Uint128 products, which panic on overflow. The model keeps those panics. See the findings.
- A yield-token variant of the vault is not in this code and is not modelled.
- `Valuation.DepositThenRedeemNoProfit`: holds only with shares outstanding. With a zero supply the first depositor is minted one share per uusd whatever the vault already holds (pending collateral, bLuna or uusd left in it), and takes all of it on redemption (`Valuation.FirstDepositorTakesAll`).
- `ClaimQueue.NextKey`: the claim key is a plain Rust `u32` addition (src/contract.rs:641). It panics on overflow only if the crate is built with overflow checks, and otherwise wraps to 0. Nothing in the source fixes that build setting; the model assumes the checks are on. The u64 timestamp overflow in `plus_seconds` is likewise modelled as a panic.
- Timestamp order of the claim list is not part of `Ledger.Wf`. The three entry points that change the list keep it (`Execute.ClaimLiquidationKeepsOrder`, `Execute.UnlockKeepsOrder`, `Withdraw.WithdrawUstKeepsOrder`), provided the block time never goes back. Under that order `unlock` releases exactly the due records.

## Findings

The storage-changing methods of `Contract.Vault` run the code as written. The corrected definitions are proved beside the as-written ones.

| source | as written | input that shows it | evidently intended | confidence | as-written member | corrected member |
|---|---|---|---|---|---|---|
| src/contract.rs:712-737 | `set_permission` saves the permission it loaded, so after the equality check the stored value never changes | the owner grants `submit_bid: true` to an address without it: the call succeeds and the address still may not bid | store `new_permission` | high; not executed | Execute.GrantIsLost | Execute.IntendedSetPermissionSets |
| src/contract.rs:272-280 | `activate_bid`'s `break` ends the page at the first bid still waiting, so later due bids on that page are skipped | bids idx 1 (wait end 100 s) and idx 2 (wait end 0 s) at block time 50 s: nothing is activated, though `query_activatable` reports a due bid | activate every bid whose wait has ended | medium; not executed | Pagination.ActivationMissesDueBid | Pagination.DueBidsExact |
| src/contract.rs:446-448 | the collateral share is a chain of Uint128 products, and `b_luna·share·usd` overflows for realistic sizes | 10^13 bLuna units, share 10^14 of 5·10^14, payout 10^14 uusd with 5·10^13 uncovered: the product exceeds 2^128 and the withdrawal panics, though the exact result is 1111111111111 | compute in a wide intermediate (Uint256) | medium; not executed | Valuation.CollateralWithdrawOverflows | Valuation.ExactCollateralWithdraw |
