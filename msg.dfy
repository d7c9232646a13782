/** Values that cross the contract boundary (src/msg.rs): the snapshot of what the
    contract's queries would return, and the instructions it hands back to the host. */
module Msg {
  import opened Uint

  /** Addresses are opaque identities; canonicalisation and lower-casing are host calls. */
  type Addr = string

  datatype Option<+T> = None | Some(value: T)

  datatype Coin = Coin(denom: string, amount: nat)

  /** One bid of the vault in the liquidation queue (`BidResponse`, the fields read). */
  datatype Bid = Bid(idx: nat, amount: nat, pendingLiquidatedCollateral: nat, waitEnd: Option<nat>)

  /** What the external queries of one call return, taken as a consistent snapshot:
      the block time in nanoseconds, the contract's own `uusd` balance, its cw20 bLuna
      balance, all its bids in the queue in index order, and the numerator of the
      oracle's bLuna price in `uusd`. */
  datatype Env = Env(now: nat, ust: nat, bLuna: nat, bids: seq<Bid>, price: nat)

  /** The widths the source's types give these values. */
  predicate ValidBid(b: Bid) {
    b.idx < U128 && b.amount < U256 && b.pendingLiquidatedCollateral < U256 &&
    (b.waitEnd.Some? ==> b.waitEnd.value < U64)
  }

  predicate ValidEnv(e: Env) {
    e.now < U64 && e.ust < U128 && e.bLuna < U128 && e.price < U256 &&
    forall i :: 0 <= i < |e.bids| ==> ValidBid(e.bids[i])
  }

  datatype AssetInfo = Token(contractAddr: Addr) | NativeToken(denom: string)

  datatype SwapOperation =
    | NativeSwap(offerDenom: string, askDenom: string)
    | AstroSwap(offerAssetInfo: AssetInfo, askAssetInfo: AssetInfo)

  /** The binary `msg` carried by a cw20 `Send`. */
  datatype Payload =
    | Beneficiary(addr: Addr)
    | ExecuteSwapOperations(operations: seq<SwapOperation>, minimumReceive: Option<nat>,
                            to: Option<Addr>, maxSpread: Option<nat>)

  /** `ExternalMsg`: the messages executed on the queue and on the cw20 token. */
  datatype ExternalMsg =
    | ActivateBids(collateralToken: Addr, bidsIdx: Option<seq<nat>>)
    | SubmitBid(collateralToken: Addr, premiumSlot: nat)
    | RetractBid(bidIdx: nat, retractAmount: Option<nat>)  // `amount` in the source
    | ClaimLiquidations(collateralToken: Addr, bidsIdx: Option<seq<nat>>)
    | Transfer(recipient: Addr, amount: nat)
    | Send(contract: Addr, amount: nat, msg: Payload)

  /** An outbound message, run by the host after the call returns. */
  datatype Instruction =
    | BankSend(toAddress: Addr, uusd: nat)
    | WasmExecute(contractAddr: Addr, msg: ExternalMsg, uusdFunds: nat)

  datatype Value = Num(n: nat) | Text(s: string) | Flag(b: bool)

  datatype Attribute = Attribute(key: string, value: Value)

  datatype Response = Response(messages: seq<Instruction>, attributes: seq<Attribute>)

  datatype InstantiateMsg = InstantiateMsg(
    owner: Addr, swapWallet: Addr, anchorLiquidationQueue: Option<Addr>,
    collateralToken: Option<Addr>, priceOracle: Option<Addr>, astroportRouter: Option<Addr>,
    lockPeriod: Option<nat>, withdrawLock: Option<nat>)
}
