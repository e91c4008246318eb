/**
 * The database tables the engine shares. A table is the sequence of its rows in insertion order and
 * a row's primary key is its position; `Session` is the unit of work whose fields the services and
 * workers update in place.
 */
module Tables {
  import opened Wrappers
  import Keys

  // ---- ledger -------------------------------------------------------------------------------

  datatype SystemName = FaucetSource | DepositsInTransit | WithdrawalsReserved | WithdrawalsSettled

  /** An account is identified by the columns of its unique constraint. */
  datatype Account =
    | Wallet(user: nat, asset: nat)
    | System(name: SystemName, asset: nat)

  datatype Entry = Entry(account: Account, asset: nat, amount: int)

  datatype EntryType = DepositType | WithdrawalType | TransferOutType | ReversalType

  /** The (ref_type, ref_id) pair naming the operation a transaction belongs to. */
  datatype Ref =
    | DepositRef(deposit: nat)
    | WithdrawalRef(request: nat)
    | TransferRef(sender: nat, recipient: nat)

  type Key = Keys.Key<nat>

  datatype LedgerTx = LedgerTx(kind: EntryType, key: Key, ref: Ref, entries: seq<Entry>)

  // ---- deposits -----------------------------------------------------------------------------

  datatype DepositStatus = Seen | DepositConfirmed | Credited | Orphaned

  datatype Deposit = Deposit(
    txHash: string, logIndex: int, block: int, hash: string,
    asset: nat, amount: nat, status: DepositStatus, user: Option<nat>, revision: nat)

  datatype Cursor = Cursor(lastScanned: int, lastFinalized: int)

  // ---- withdrawals --------------------------------------------------------------------------

  datatype AssetKind = Native | Erc20(contract: Option<string>) | Erc721

  /** What a payout transaction does on chain. */
  datatype Call =
    | SendNative(to: string, value: nat)
    | SendErc20(contract: string, to: string, value: nat)
    | SendErc721(contract: string, to: string, token: string)
    | MintErc721(contract: string, to: string)

  /**
   * A signed raw transaction. Signing is injective in its inputs, and hashing is collision-free, so
   * a raw transaction also stands for its own hash.
   */
  datatype RawTx = RawTx(call: Call, nonce: nat, gasPrice: nat)

  datatype OutboxStatus = Requested | Approved | Signing | Broadcast | Confirmed | Failed | Rejected

  /** The columns every hot-wallet outbox row carries. */
  datatype Outbox = Outbox(
    status: OutboxStatus, nonce: Option<nat>, signedTx: Option<RawTx>, txHash: Option<RawTx>,
    unminedSince: Option<int>, attempts: nat)

  const FRESH_OUTBOX := Outbox(Requested, None, None, None, None, 0)

  datatype Withdrawal = Withdrawal(user: nat, asset: nat, to: string, amount: nat, out: Outbox)

  datatype HotWalletNonce = HotWalletNonce(address: string, nextNonce: nat)

  // ---- NFTs ---------------------------------------------------------------------------------

  datatype HoldingStatus = Held | Withdrawing | Withdrawn

  datatype Holding = Holding(user: nat, contract: string, token: string, status: HoldingStatus)

  datatype NftTransfer = NftTransfer(holding: nat, sender: nat, recipient: nat, client: string)

  datatype NftWithdrawal = NftWithdrawal(
    user: nat, holding: nat, contract: string, token: string, to: string, client: string, out: Outbox)

  datatype NftMint = NftMint(user: nat, contract: string, to: string, out: Outbox)

  datatype SweepStatus = SweepPending | Funding | Funded | Sweeping | Swept | SweepFailed

  datatype TokenId = TokenId(contract: string, id: string)

  datatype Sweep = Sweep(
    token: TokenId, address: string, status: SweepStatus, gasFundNonce: Option<nat>, gasFundTx: Option<RawTx>,
    sweepTx: Option<RawTx>, sweepHash: Option<RawTx>, sweepNonce: Option<nat>,
    unminedSince: Option<int>, attempts: nat)

  // ---- rate limiting ------------------------------------------------------------------------

  datatype RateLimitEvent = RateLimitEvent(user: nat, action: string, at: int)

  class Session {
    var txs: seq<LedgerTx>
    var deposits: seq<Deposit>
    var cursor: Option<Cursor>
    var requests: seq<Withdrawal>
    var hotNonce: Option<HotWalletNonce>
    var holdings: seq<Holding>
    var nftTransfers: seq<NftTransfer>
    var nftRequests: seq<NftWithdrawal>
    var mints: seq<NftMint>
    var sweeps: seq<Sweep>
    var events: seq<RateLimitEvent>
  }
}
