# Kasa custody engine: a verified model

Kasa keeps user balances in a double-entry ledger, credits on-chain deposits through a watcher that
survives reorgs, and pays withdrawals through an outbox that survives crashes. This project models
those state machines in Dafny and proves what they promise over whole runs.

**Form.** `Tables.dfy` holds one datatype per table row and the class `Session`, whose fields are the
tables a database session updates in place. Every worker and service operation that changes rows is a
method on a session, with the loops and branches of the source, and its `ensures` equates the new
tables with a specification function of the old ones. The theorems are lemmas about those functions:
about one call, about one worker pass, or about every run of interleaved events. An event is one
committed transaction; a transaction that rolls back is no event, or an event that changes nothing.

| file | contents |
|---|---|
| `Wrappers.dfy`, `Decimals.dfy` | options, sums over rows, decimal text of numbers |
| `Keys.dfy` | idempotency keys of the ledger, as structure and as text |
| `Tables.dfy` | rows and the session |
| `Ledger.dfy` | posting, validation, replay, balances |
| `Watcher.dfy`, `DepositLedger.dfy` | the deposit watcher; its agreement with the ledger |
| `Reorgs.dfy`, `Recording.dfy` | reorgs, cursor, recovery; what a pass makes of every transfer and every row |
| `Payments.dfy`, `Overspend.dfy` | withdrawals and transfers; their steps interleaved under locks |
| `Payouts.dfy`, `Withdrawer.dfy`, `PayoutSafety.dfy` | the outbox row machine and grace marker; the three phases; safety on a reorganising chain |
| `Nonce.dfy`, `HotWallet.dfy` | the shared hot-wallet nonce allocator under concurrency; the four outboxes that draw from it |
| `Custody.dfy`, `Settlement.dfy` | all of the fungible engine in one run: conservation; the same run against the chain |
| `WithdrawalPhases.dfy` | what each outbox phase makes of every row; whom a payout pays and how much |
| `Nft.dfy`, `NftRace.dfy`, `NftSafety.dfy` | NFT exclusivity and provenance; the endpoints' steps interleaved; NFT withdrawals on a reorganising chain |
| `NftPhases.dfy` | what each phase makes of every request, mint and holding; which token goes where |
| `Sweeper.dfy`, `SweepPhases.dfy` | the bounded sweep retry machine; what each of its passes makes of every sweep |
| `RateLimit.dfy`, `RateRace.dfy` | sliding windows with pruning; overlapping calls of the limiter |
| `ChainClient.dfy`, `Amounts.dfy` | block chunks and call traces; amount text in Python and TypeScript |

**Environment.** The chain and the RPC are parameters. Where a theorem needs them to behave, the
hypotheses are predicates in its `requires`:

- `PayoutSafety.Faithful`: head and mined nonce describe one chain, canonical hashes and receipts are
  genuine, and the receipt of a mined transaction is visible once its block is `confirmations` deep.
  Younger receipts may be missing and receipts of reorged-out blocks may still be served.
- `PayoutSafety.Permitted` for a reorg: blocks that were `confirmations` deep are final.
- `PayoutSafety.SlotsKept`: while a row's grace marker is set, a reorg does not empty the nonce slot that
  was seen filled below the marked block. `EmptiedSlotRefundsAPaidPayout` gives a run that is permitted in
  every other respect and refunds a payout that is on chain, so this cannot be dropped.
- Hashes are collision-free and signing is an injective function of its inputs, so a block stands for
  its hash and a raw transaction for its own.
- Addresses are compared in lower case; the model's strings are already lowered.

**Where the code and its description differ.** The model follows the code.

- `packages/shared/src/amounts.ts:1-3` says the Python library mirrors the TypeScript one exactly. The
  wire parsers differ on redundant leading zeros (`Amounts.WireFormsDiffer` gives the exact condition,
  `Amounts.RedundantZeroExample` a text), and the two `trim`s differ on the ASCII separators 28 to 31
  (`Amounts.ParsersAgree`, `Amounts.SeparatorExample`).
- `backend/app/services/ledger.py:218-226` answers a key conflict at insert time with the existing
  transaction, but the transaction row is flushed before that block, so a conflict aborts instead. An
  ordinary duplicate never gets there: requests on one wallet wait for its lock, so the second one finds
  the key in the search of `post`, which replays a transfer to the same recipient and refuses anything
  else (`Overspend.DuplicateAtSearch`). An insert conflicts exactly if the key was committed after the
  session's search (`Overspend.InsertAbortsExactly`), which takes a client key reused for another asset
  (`Overspend.NoConflictOnOneAsset`); `Overspend.KeyReuseAborts` is such a run.
- A deposit orphaned while crediting (`backend/worker/watcher.py:276-280`) does not rewind the cursor;
  its block is scanned again exactly if something else rewinds far enough
  (`Reorgs.CreditingOrphanRewinds`), and `Reorgs.CreditingLoopLeavesBehind` is a pass where nothing does.
- Returning to an old hot-wallet address resets the nonce counter to the chain's
  (`backend/worker/_nonce.py:58-60`). That is safe exactly if the chain is past everything issued there
  (`Nonce.ReturnSafeExactly`); `Nonce.RotationCollides` is a run that issues a nonce twice.

Run `dafny verify dfyconfig.toml` to check the project.

## Model

| member | source | states |
|---|---|---|
| PayoutSafety.RefundXorPayout | backend/worker/withdrawer.py:242-318 | in every run of the three phases against a reorganising chain and a lagging RPC, with crashes anywhere: a CONFIRMED request's signed transaction is mined and succeeded, a FAILED one's is not |
| PayoutSafety.OnePayoutPerRequest | backend/worker/withdrawer.py:147-218 | everything ever handed to the network for a request is its one persisted transaction, and two requests never share a nonce or a transaction |
| PayoutSafety.SignedForever | backend/worker/main.py:184-218 | from any moment of a run to any later one, what was signed keeps its payload and a terminal row is never touched again |
| PayoutSafety.VerdictIsSound | backend/worker/withdrawer.py:261-290 | what one confirm pass may conclude: a settle or refund verdict is backed by a final block that consumed the payout's nonce accordingly, and a marker is set only on a filled slot |
| PayoutSafety.EmptiedSlotRefundsAPaidPayout | backend/worker/withdrawer.py:304-318 | a run from the empty state, permitted except that a reorg empties a slot inside the grace window, refunds a payout that is on chain |
| Settlement.LedgerMatchesChain | backend/worker/withdrawer.py:96-136 | in every run of the whole engine against a reorganising chain: a payout the ledger refunded is not mined successfully, one it settled is |
| Settlement.PhaseIsCustodyEvent | backend/worker/main.py:184-218 | the phases of the payout runs are those of the ledger runs |
| WithdrawalPhases.SettledAsRequested | backend/worker/withdrawer.py:65-93 | in every run of the engine against the chain: a request row and its reservation are what an accepted call asked for; everything handed to the network for it pays that amount of that asset to that address, by the asset's kind; and a settled one is mined and succeeded |
| WithdrawalPhases.SignDecides | backend/worker/withdrawer.py:154-184 | in every reachable state, for every row: claimed ones are refunded exactly if the asset cannot be paid out or the client refuses the values, keep waiting if it fails otherwise, and else get their durable payout; others stay |
| WithdrawalPhases.SendDecides | backend/worker/withdrawer.py:189-218 | in every reachable state a broadcast pass hands over every SIGNING row's signed transaction, once, in nonce order, and a row becomes BROADCAST exactly if the network accepts it |
| WithdrawalPhases.ConfirmDecides | backend/worker/withdrawer.py:261-318 | in every reachable state, for every row: with a canonical receipt deep enough it is settled exactly if the receipt succeeded and refunded exactly if it did not; with a younger or stale one it stays open without a marker; without one it is refunded exactly if overdue |
| WithdrawalPhases.TickIsThreePhases | backend/worker/main.py:184-218 | one turn of the loop is the three phases in order, none of which aborts |
| Payouts.ConcludedExactly | backend/worker/withdrawer.py:261-318 | the decision of a confirm pass, on the receipt, the canonical hash, the depth, the nonce and the marker alone |
| PayoutSafety.NextKeeps | backend/worker/main.py:184-218 | each phase, crash, foreign nonce use and reorg keeps the outbox invariant and extends what was signed |
| PayoutSafety.ConcludedOk | backend/worker/withdrawer.py:261-318 | whatever a confirm pass makes of a row (marker cleared, set or kept, settled, refunded) is justified by the chain |
| Payouts.MarkerIsSuffixStart | backend/worker/withdrawer.py:309-318 | `unmined_since_block` is Some(u) exactly when the longest current suffix of passes that saw no receipt and a mined nonce past ours began at head u |
| Payouts.DropNeedsUnbrokenSuffix | backend/worker/withdrawer.py:311-318 | a row without a receipt is refunded by a pass exactly when an unbroken such suffix spanning `confirmations` blocks ends in it |
| Payouts.Claimed | backend/worker/withdrawer.py:44-62 | exactly the oldest pending rows nobody holds, up to the batch size, none skipped |
| Payouts.SigningQueue | backend/worker/withdrawer.py:194-205 | exactly the SIGNING rows, each once, ordered by nonce |
| Payouts.SignOutsAllocate | backend/worker/nft_minter.py:77-101 | a signing pass of the retrying outboxes hands out consecutive nonces, one per signature, and a failed signing consumes none |
| Payouts.SignOutsDraw | backend/worker/nft_withdrawer.py:63-91 | the rows it signs hold those nonces in claim order; unclaimed rows stay |
| Withdrawer.SignPendingRequests | backend/worker/withdrawer.py:139-186 | phase 1 brings tables and counter to the specified state: unsignable rows refunded, faults left pending, signed rows durable |
| Withdrawer.SignRowsAllocate | backend/worker/withdrawer.py:154-184 | the signed rows of a pass hold exactly the consecutive nonces from the reconciled counter, one each; all other rows are untouched |
| Withdrawer.SignRowsDraw | backend/worker/withdrawer.py:154-184 | the same in claim order, with the counter left just past them |
| Withdrawer.BroadcastSigned | backend/worker/withdrawer.py:189-218 | phase 2 hands over the persisted transactions in nonce order, marks accepted rows BROADCAST and leaves refused ones SIGNING |
| Withdrawer.ConfirmBroadcast | backend/worker/withdrawer.py:242-292 | phase 3 settles, refunds or keeps every row in turn, or aborts with the ledger's error |
| Withdrawer.ReverseReservation | backend/worker/withdrawer.py:96-117 | the reservation goes back to the wallet under the reversal key and the row is FAILED |
| Withdrawer.Settle | backend/worker/withdrawer.py:120-136 | the reservation moves to the settled account under the settle key and the row is CONFIRMED |
| Withdrawer.WithdrawerTick | backend/worker/main.py:184-218 | one turn of the loop: the three phases as three separate commits |
| Custody.Conservation | backend/app/services/ledger.py:184-229 | in every run of watcher passes, transfers, withdrawals and outbox phases, per asset: wallets = credited deposits - in-flight - confirmed; reserved = in-flight; settled = confirmed; in transit = -credited; all accounts sum to zero |
| Custody.DepositsBacked | backend/worker/watcher.py:197-285 | in every such run a deposit's postings add up to its amount on its owner's wallet exactly while it is CREDITED and to nothing otherwise, with a live credit posting exactly then, under the current revision |
| Custody.RequestsClosedOnce | backend/worker/withdrawer.py:96-136 | in every such run a request is refunded in the ledger iff FAILED and settled iff CONFIRMED, hence never both |
| Custody.CloseKeeps | backend/worker/withdrawer.py:96-136 | closing an in-flight request always posts a new transaction, never a replay, and keeps the books balanced |
| Custody.NextKeeps | backend/worker/main.py:75-218 | every event of the engine keeps the joint invariant of ledger, deposits and requests |
| DepositLedger.PassKeeps | backend/worker/main.py:75-146 | a watcher pass never aborts, keeps deposits and ledger in agreement, and moves only wallets and the in-transit account, by what the credited deposits changed |
| DepositLedger.CreditNeverReplays | backend/worker/watcher.py:197-215 | crediting a confirmed row always posts a new transaction, whatever was credited and reversed before |
| DepositLedger.ReversalNeverReplays | backend/worker/watcher.py:218-236 | reversing a credited row always posts a new transaction |
| DepositLedger.InsertedAllKeeps | backend/worker/watcher.py:85-111 | recording and resurrecting rows, with a bumped revision and possibly another amount, needs no posting to stay in agreement |
| DepositLedger.FlipConserves | backend/worker/watcher.py:197-236 | a credit or reversal moves wallets and in-transit by exactly the row's change of status |
| Recording.PassDecides | backend/worker/main.py:75-146 | in every run, one more pass completes; every deposit delivered from the scanned range has its row; every new row is such a deposit, column by column; an orphaned row comes back exactly if its transfer arrives again; and every row's status is what its depth and the chain's hash call for |
| Recording.NothingMissed | backend/worker/main.py:82-138 | in every run each block up to the cursor was inside a scan since the cursor last fell below it, and every deposit that scan was told of has a row |
| Watcher.FoundExactly | backend/worker/watcher.py:114-194 | a scan finds exactly the ERC-20 transfers of watched tokens and the native and (if watched) traced transfers not sent by the hot wallet, to owned addresses, each with the transfer's hash, index, block, asset, value and owner |
| Reorgs.NoStaleRowInWindow | backend/worker/watcher.py:288-325 | after any pass at head h, every owned row that is not orphaned has a matching or unknown block hash, or was credited at a block <= h - (confirmations + max(reorg depth, finality depth)) |
| Reorgs.FreshCreditSurvives | backend/worker/watcher.py:360-366 | no row credited in a pass is reversed in that pass |
| Reorgs.RewindExactly | backend/worker/main.py:113-138 | for every block: it is scanned next exactly if no pass up to this one reached it, the NFT watcher reported an orphan at or below it, or the reorg check orphaned a row at or below it |
| Reorgs.CreditingOrphanRewinds | backend/worker/watcher.py:276-280 | a row orphaned while crediting stays orphaned and moves no cursor: any block is scanned next exactly as if that row were not there |
| Reorgs.CreditingLoopLeavesBehind | backend/worker/watcher.py:276-280 | a pass where such a row's block, already scanned, is not scanned again |
| Reorgs.CursorCoverage | backend/worker/main.py:82-138 | in every run each block in [start block, cursor] was inside a scan made since the cursor last dropped below it |
| Reorgs.OrphanRecovers | backend/worker/watcher.py:85-111 | a transaction orphaned by the reorg check, canonical again at or above the lowest orphaned block, is live under revision + 1 after the first pass whose head reaches it, however many shorter passes come between |
| Reorgs.PassRows | backend/worker/watcher.py:239-325 | what a pass makes of each recorded row, row by row |
| Watcher.InsertIfNew | backend/worker/watcher.py:85-111 | a new transfer is added, an orphaned one resurrected under the next revision, a known one left; the answer says which |
| Watcher.RecordDeposits | backend/worker/watcher.py:114-194 | the watched ERC-20, native and internal transfers of the range are recorded, own gas funding excluded |
| Watcher.ConfirmAndCredit | backend/worker/watcher.py:239-285 | rows deep enough are confirmed and then credited, orphaned or left by the hash the chain reports |
| Watcher.HandleReorgs | backend/worker/watcher.py:288-325 | rows in the window whose block changed are orphaned and their credits reversed; the lowest orphaned block is reported |
| Watcher.RunDepositScans | backend/worker/main.py:75-146 | one pass with its cursor movement, all or nothing |
| Ledger.Post | backend/app/services/ledger.py:184-229 | a posting is new, a compatible replay, or refused; only a new one changes the table |
| Ledger.PostDecided | backend/app/services/ledger.py:149-229 | under a fresh key a posting is made exactly if its legs balance in every asset, with one entry per leg; under a used one the transaction there is is the answer exactly if the reference is the same |
| Ledger.ValidateLegs | backend/app/services/ledger.py:149-164 | the running totals find an error exactly when there are no legs, an account's asset differs, or some asset does not sum to zero |
| Ledger.ReachableLedgerSound | backend/app/services/ledger.py:184-229 | after any sequence of postings every transaction sums to zero per asset, keys are unique and entries agree with their accounts |
| Ledger.SoundTotalsZero | backend/app/services/ledger.py:149-164 | a sound ledger sums to zero over all accounts of an asset |
| Ledger.RetryReplays | backend/app/services/ledger.py:167-196 | posting again under the same key and reference returns the first transaction and changes nothing |
| Ledger.WalletsTotalIsSumOfBalances | backend/app/services/ledger.py:232-247 | the wallets' total is the sum of the balances users see |
| Ledger.PostKeepsSound | backend/app/services/ledger.py:184-229 | `post` keeps the ledger sound for any legs whatever |
| Payments.CreateWithdrawal | backend/app/services/withdrawal_service.py:23-104 | replay by scoped key, the checks in order, request row and reservation together or neither |
| Payments.CreateTransfer | backend/app/services/transfer_service.py:24-80 | replay by scoped key, the checks in order, one balanced posting |
| Payments.TransferDecided | backend/app/services/transfer_service.py:33-80 | under a fresh key a transfer posts its two entries exactly if it is positive, to another known user, of a known asset, within cap and balance; otherwise the first failing condition in the code's order is the answer |
| Payments.TransferAnsweredBefore | backend/app/services/transfer_service.py:33-41 | under a used key the transaction there is is the answer, after the check of the amount |
| Payments.WithdrawalDecided | backend/app/services/withdrawal_service.py:44-104 | under a fresh key a withdrawal adds its row and reservation exactly if it is not limited, positive, to a valid address, of a known asset, within cap and balance; otherwise the first failing condition in the code's order is the answer |
| Payments.WithdrawalAnsweredBefore | backend/app/services/withdrawal_service.py:32-42 | under a used key the user's request is the answer, or "not found" if it is not the user's |
| Payments.ReservationDebits | backend/app/services/withdrawal_service.py:68-103 | a reservation debits exactly its own wallet, by its amount, out of funds that were there |
| Payments.TransferMoves | backend/app/services/transfer_service.py:60-79 | a transfer moves its amount between the two wallets and changes no third one |
| Payments.WithdrawalRetry | backend/app/services/withdrawal_service.py:32-45 | a retry under the same client key, whatever its other arguments, answers with the first request and debits nothing |
| Overspend.NoOverspend | backend/app/services/ledger.py:121-134 | over every interleaving of lock, read, search, insert and commit with worker postings, a wallet's balance plus its reorg-reversed credits is never negative, and every key belongs to one committed transaction |
| Overspend.AloneIsTransfer | backend/app/services/transfer_service.py:24-80 | undisturbed, the interleaved steps add up to a transfer |
| Overspend.AloneIsWithdrawal | backend/app/services/withdrawal_service.py:23-104 | undisturbed, the interleaved steps add up to a reservation |
| Overspend.WorkersPostAllowed | backend/worker/withdrawer.py:96-136 | watcher credits and reversals, refunds and settles are worker postings in the sense of the concurrency model |
| Overspend.CommitKeeps | backend/app/services/transfer_service.py:60-79 | committing a debit keeps every wallet covered and spends no money another open session has read |
| Overspend.DuplicateAtSearch | backend/app/services/ledger.py:193-196 | a duplicate key met by `post` is answered with the first transfer exactly if it names the same recipient; a withdrawal is always refused |
| Overspend.InsertAbortsExactly | backend/app/services/ledger.py:198-215 | in every run an insert aborts on the unique key exactly if the key was committed after the session's search, and then by a debit of the same user's wallet of another asset |
| Overspend.NoConflictOnOneAsset | backend/app/services/ledger.py:121-134 | no transaction ever aborts on a duplicate key unless a client key is reused for another asset |
| Overspend.KeyReuseAborts | backend/app/services/ledger.py:198-226 | an allowed run in which it does |
| Nonce.NoncesNeverCollideOrLeak | backend/worker/_nonce.py:34-64 | over any interleaving of any number of workers, first-row race and caught-up rotations included: committed nonces are distinct per address and below the counter, and every skipped number was below a chain nonce some committed transaction observed |
| Nonce.FixedAddressIsSafe | backend/worker/_nonce.py:34-64 | without a rotation nothing has to catch up, so the theorem holds of every run |
| Nonce.PlayedDraws | backend/worker/_nonce.py:34-64 | one transaction, from selecting or creating the row to its commit, hands out exactly the next consecutive nonces |
| Nonce.CommitDraws | backend/worker/_nonce.py:34-64 | what any interleaving commits is what the transaction alone would have drawn from the same row |
| Nonce.ReturnSafeExactly | backend/worker/_nonce.py:58-60 | the first transaction after returning to an old address keeps nonces distinct, however many it signs, exactly if the chain nonce it reads is past everything issued there |
| Nonce.RotationCollides | backend/worker/_nonce.py:58-60 | a run that rotates away and back too early issues a nonce twice |
| Nonce.CommitKeepsCommitted | backend/worker/_nonce.py:34-64 | a commit publishes its nonces without collision or unexplained gap |
| HotWallet.PassDraws | backend/worker/_nonce.py:34-64 | a pass of any of the four outboxes (withdrawals, NFT withdrawals, mints, gas funding) is one draw of consecutive nonces, held row by row by what it signed |
| HotWallet.PlayedIsPass | backend/worker/withdrawer.py:151-185 | undisturbed, the steps of the counter's transaction add up to the pass |
| HotWallet.RowsCarryIssued | backend/worker/_nonce.py:34-64 | in every interleaved run the nonces issued are exactly those carried by the rows that committed passes signed |
| HotWallet.OutboxNoncesNeverCollide | backend/worker/_nonce.py:34-64 | no two rows ever signed by the four outboxes carry the same nonce of the same address, and all are below the counter |
| HotWallet.PassIsElsewhere | backend/worker/_nonce.py:58-62 | a committed pass of any of the other outboxes is one of the foreign counter uses that the payout theorems allow: it only moves the counter forward |
| HotWallet.PassIsCounter | backend/worker/_nonce.py:58-62 | the same for the NFT withdrawal theorems |
| Nft.HoldingExclusive | backend/app/services/nft_service.py:205-248 | in every run of transfers, requests and outbox phases a holding is WITHDRAWING iff it has exactly one in-flight request, HELD iff it has neither that nor a confirmed one, WITHDRAWN iff exactly one is confirmed |
| Nft.HoldingProvenance | backend/app/services/nft_service.py:138-178 | in every run the transfer log of a holding is a connected path of owners ending at the current one |
| Nft.TransferNft | backend/app/services/nft_service.py:108-178 | undisturbed (`NftRace` has the interleavings): replay by scoped key, the checks in order, owner and log updated together |
| Nft.RequestWithdrawal | backend/app/services/nft_service.py:181-248 | undisturbed: replay by scoped key, the checks in order, holding locked and request inserted together |
| NftRace.CommitsAreAtomic | backend/app/services/nft_service.py:108-248 | under any interleaving of key searches, holding locks, inserts, second looks, commits, rollbacks and worker commits, what is committed is the run of the atomic endpoints and worker passes in commit order |
| NftRace.HoldingExclusiveInterleaved | backend/app/services/nft_service.py:136-174 | so exclusivity and provenance of every holding survive every interleaving |
| NftRace.RepliesAreAtomic | backend/app/services/nft_service.py:147-174 | every reply, from the first look, the second look or after a key conflict, is the atomic endpoint's at some instant of the call; an accepted call is that instant's commit, and the conflict is never raised again |
| NftRace.OneRowPerKey | backend/app/services/nft_service.py:213-243 | an accepted or replayed call names the one row there is under its scoped key |
| NftRace.SecondLookExactly | backend/app/services/nft_service.py:147-174 | a call whose holding is gone is answered with a row, and an insert meets its key, exactly if a call under the same key was committed since the first look |
| NftRace.SecondLooksHappen | backend/app/services/nft_service.py:147-174 | a run through both branches: one transfer is accepted, one misses the holding, one for another holding meets the key, and both are answered with the first |
| NftRace.AloneIsEndpoint | backend/app/services/nft_service.py:108-248 | undisturbed, the steps add up to either endpoint, rows and reply |
| Nft.SignPendingWithdrawals | backend/worker/nft_withdrawer.py:52-93 | the signing pass on the requests, with the shared counter |
| Nft.SignPendingMints | backend/worker/nft_minter.py:66-103 | the signing pass on the mints, with the shared counter |
| Nft.BroadcastSignedWithdrawals | backend/worker/nft_withdrawer.py:96-121 | accepted SIGNING rows become BROADCAST, all others stay |
| Nft.ConfirmWithdrawals | backend/worker/nft_withdrawer.py:142-188 | each row is kept, marked withdrawn, or failed with its holding released |
| Nft.BroadcastSignedMints | backend/worker/nft_minter.py:106-131 | accepted SIGNING mints become BROADCAST, all others stay |
| NftPhases.SignPhase | backend/worker/nft_withdrawer.py:52-93 | for every request: claimed ones get a durable transfer of the request's contract and token to its recipient, or one attempt more; others stay |
| NftPhases.SendPhase | backend/worker/nft_withdrawer.py:96-121 | a request becomes BROADCAST exactly if it is SIGNING and the network accepts its signed transaction |
| NftPhases.ConfirmDecides | backend/worker/nft_withdrawer.py:142-228 | in every run, for every request: confirmed, failed or left open exactly as for payouts, with its holding WITHDRAWN exactly if confirmed and HELD exactly if failed |
| NftPhases.SignedAsAsked | backend/app/services/nft_service.py:225-238 | in every run a request names its holding's token and the recipient asked for, and what is signed for it sends that token there |
| NftPhases.WithdrawnWhereAsked | backend/worker/nft_withdrawer.py:70-78 | in every run against a reorganising chain, a WITHDRAWN holding's token was sent, by a mined and successful transaction, to where a request for it asked |
| NftPhases.MintPhase | backend/worker/nft_minter.py:49-103 | for every mint: claimed ones get a durable mint of the row's contract to its recipient, or one attempt more; others stay |
| NftPhases.MintsSignedAsAsked | backend/worker/nft_minter.py:49-131 | in every run of mint requests, signing and broadcast passes, what is signed and sent for a mint mints to whom it was asked for |
| NftSafety.ReleaseXorTransfer | backend/worker/nft_withdrawer.py:142-228 | in every run against a reorganising chain a CONFIRMED request's transfer is mined and succeeded, a FAILED one's is not |
| NftSafety.HoldingMatchesChain | backend/worker/nft_withdrawer.py:191-206 | a holding that is HELD (again) has no transfer that is mined successfully, a WITHDRAWN one has |
| Nft.CloseGuarded | backend/worker/nft_withdrawer.py:161-206 | closing a holding's one open request, or leaving it open, keeps exclusivity for every holding |
| Nft.MoveGuarded | backend/app/services/nft_service.py:138-178 | a transfer needs a HELD holding, so no in-flight request changes hands |
| Sweeper.SweepRetriesBounded | backend/worker/nft_sweeper.py:66-77 | in every run a sweep is armed at most MAX_SWEEP_ATTEMPTS times with at most one gas nonce each, and every gas transfer sent for it, first or re-sent, is one budget to its address at one of those nonces |
| Sweeper.SweepCostBounded | backend/worker/nft_sweeper.py:143-185 | whatever of a sweep's gas transfers a chain mines moves at most MAX_SWEEP_ATTEMPTS gas budgets |
| SweepPhases.ConfirmDecides | backend/worker/nft_sweeper.py:257-318 | in every run, for every sweep: a claimed one ends SWEPT exactly if its transaction succeeded in a canonical block deep enough and the hot wallet owns the token, FAILED exactly if it reverted so or is overdue without a receipt, and stays SWEEPING otherwise |
| SweepPhases.SweepMarkerIsSuffixStart | backend/worker/nft_sweeper.py:299-318 | a sweep's grace marker is the head at which the current suffix of passes without receipt and with the nonce past began |
| SweepPhases.MovePhase | backend/worker/nft_sweeper.py:198-254 | a claimed FUNDED row keeps its signed transaction or gets one that sends its token to the hot wallet, and becomes SWEEPING exactly if the network accepts it |
| SweepPhases.SweepsGoHome | backend/worker/nft_sweeper.py:225-243 | in every run every persisted sweep transaction sends the sweep's own token to the hot wallet |
| SweepPhases.FundPhase | backend/worker/nft_sweeper.py:124-195 | a claimed row becomes FUNDED exactly if its address has enough; otherwise it re-sends one gas budget at the nonce it holds, or gets its first |
| SweepPhases.DiscoveryDecides | backend/worker/nft_sweeper.py:43-99 | in every run: every deposited token without a row gets a PENDING one, failed rows below the limit start over cleared, others stay; nothing at all if two new rows would share a token |
| Sweeper.FundDraws | backend/worker/nft_sweeper.py:143-195 | one funding pass gives exactly its newly FUNDING rows the consecutive nonces from the reconciled counter; failed signings, funded and re-sent rows take none |
| Sweeper.DiscoverSweeps | backend/worker/nft_sweeper.py:43-99 | credited NFTs get a sweep, failed ones below the limit are re-armed, a duplicate token rolls the pass back |
| Sweeper.FundPending | backend/worker/nft_sweeper.py:124-195 | funded rows are skipped ahead, FUNDING rows re-sent at their nonce, PENDING rows funded at the counter's next nonce |
| Sweeper.SweepFunded | backend/worker/nft_sweeper.py:198-254 | every funded row is swept once, its signed transaction reused on a retry |
| Sweeper.ConfirmSweeps | backend/worker/nft_sweeper.py:257-317 | the grace gate per deposit address, and SWEPT only once the hot wallet owns the token |
| Sweeper.ForEachKeeps | backend/worker/nft_sweeper.py:198-317 | a pass whose row steps are legal keeps the bound for every sweep |
| RateLimit.SlidingWindowBound | backend/app/services/rate_limit.py:68-117 | for calls that do not overlap, at non-decreasing times, every closed interval of a window's length holds at most the window's limit of accepted calls, per user and globally, for every table of limits |
| RateRace.OverlapBound | backend/app/services/rate_limit.py:68-125 | under any interleaving of counting, committing and rolling back in n sessions, an interval of a window's length holds at most the limit plus 2(n - 1) committed calls; for one session, the limit |
| RateRace.OverlapBoundReached | backend/app/services/rate_limit.py:116-125 | a run that meets the bound: a limit of one and two sessions, three calls in one interval, one of them after a later call pruned what it should have counted |
| RateRace.AloneIsEnforce | backend/app/services/rate_limit.py:68-125 | undisturbed, the steps add up to the limiter |
| RateRace.WithdrawalsADay | backend/app/services/rate_limit.py:22-39 | with the shipped limits and n sessions: at most 30 + 2(n - 1) withdrawals a day by one user and 300 + 2(n - 1) by all |
| RateLimit.NoSecondWithdrawalWithinHalfAMinute | backend/app/services/rate_limit.py:22-39 | with the shipped limits and no overlap, no user withdraws twice within any 30 seconds |
| RateLimit.PruningInvisible | backend/app/services/rate_limit.py:116-125 | the pruned table lets through, over the whole run, exactly the calls the complete history would |
| RateLimit.EnforceRateLimit | backend/app/services/rate_limit.py:68-125 | the first full window is reported, per-user windows first; otherwise the event is added and the action's unreachable events deleted |
| RateLimit.ReplyExactly | backend/app/services/rate_limit.py:75-113 | a call is let through exactly if every window has room; otherwise the first without is reported, the user's before the global ones |
| RateLimit.TableExactly | backend/app/services/rate_limit.py:115-125 | afterwards the table holds the call and every earlier event that some window still reaches, and no other of the action |
| RateLimit.CountIsSize | backend/app/services/rate_limit.py:52-65 | the count is the number of rows of the action, in scope, not older than the window |
| RateLimit.HistoryBounded | backend/app/services/rate_limit.py:52-117 | the bound on the complete history holds for times in any order |
| ChainClient.BlockRanges | backend/app/chain/client.py:89-102 | an error exactly for a non-positive chunk size; otherwise full-size chunks from the first block with a cut last one |
| ChainClient.ChunksCover | backend/app/chain/client.py:89-102 | the chunks hold exactly the blocks of the span, none oversized |
| ChainClient.ChunksDisjoint | backend/app/chain/client.py:89-102 | no block is scanned twice |
| ChainClient.FlattenInternalCalls | backend/app/chain/client.py:142-156 | the walk collects the flattened forest |
| ChainClient.WalkIsExact | backend/app/chain/client.py:142-156 | positions and paths without a reverted call correspond one to one: such calls are emitted once each, others never |
| ChainClient.PositionsInOrder | backend/app/chain/client.py:142-156 | the order is depth-first: a call precedes its descendants and what later siblings lead to |
| ChainClient.InternalTransfersFromTrace | backend/app/chain/client.py:159-190 | the reported transfers of a traced block |
| ChainClient.ReportedExactly | backend/app/chain/client.py:171-189 | a transfer is reported exactly for a live call with value to a watched address, with the call's sender, recipient and value, under the index of its place in the trace |
| ChainClient.BlockReportedExactly | backend/app/chain/client.py:159-190 | the same for a whole block: exactly the live calls of its transactions, each with its own sender, recipient and value |
| ChainClient.IndexesDistinct | backend/app/chain/client.py:166-189 | no two transfers of a block share (transaction, index) and every index is below the native sentinel |
| ChainClient.WatchingFewerFilters | backend/app/chain/client.py:166-189 | watching fewer addresses is exactly filtering the report, indexes unchanged |
| Amounts.ParseFormat | packages/shared/python/kasa_shared/amounts.py:12-55 | parsing a printed amount gives it back, for all amounts and decimals, in Python and in TypeScript |
| Amounts.CanonicalIsPrinted | packages/shared/python/kasa_shared/amounts.py:41-55 | the printed text of an amount is its one canonical text |
| Amounts.FormatParseIdempotent | packages/shared/python/kasa_shared/amounts.py:12-55 | printing what was parsed is canonical, keeps the amount, and changes only texts that were not canonical |
| Amounts.ParsedValue | packages/shared/python/kasa_shared/amounts.py:19-38 | a text is accepted exactly if it is a decimal with few enough decimals, as its value scaled by the asset's decimals |
| Amounts.PrintersAgree | packages/shared/src/amounts.ts:37-47 | the two printers print the same |
| Amounts.ParsersAgree | packages/shared/src/amounts.ts:18-34 | on ASCII text the two parsers agree on acceptance and amount exactly unless the text has one of the separators 28 to 31 at an end and is a decimal once trimmed of them |
| Amounts.SeparatorExample | packages/shared/src/amounts.ts:18-34 | such a text, read as an amount by one and rejected by the other |
| Amounts.WireFormsDiffer | packages/shared/src/amounts.ts:12-15 | TypeScript accepts a wire integer exactly if Python does and it has no redundant leading zero, as the same value |
| Amounts.RedundantZeroExample | packages/shared/python/kasa_shared/amounts.py:58-74 | "007" is an integer for Python and an error for TypeScript |
| Amounts.WireRoundTrip | packages/shared/src/amounts.ts:8-15 | the accepted wire integers, apart from "-0", are exactly the texts of integers |
| Keys.KeyTextInjective | backend/worker/watcher.py:208-229 | every family of ledger keys is injective as text and all families are disjoint |
| Keys.ScopedKeyInjective | backend/app/services/idempotency.py:12-13 | the scoped key determines domain, user and client key, even for client keys holding ':' |

## Left out

- Demo faucet: its simulated deposits are CREDITED rows posted under keys of their own; only the key family is modelled.
- NFT watcher: only its report of the lowest orphaned block enters, as a parameter of the watcher pass; mints and inbound NFT deposits enter as the acquisition of a token not held before.
- Mint confirmation and holding creation from a mint receipt: they repeat the grace gate proved for the withdrawer.
- RPC failover, web3 calls, ABI encoding, hashing, real signing, EIP-55 checksums and key derivation: foreign libraries.
- Routers, schemas, authentication, configuration, migrations, the admin report and the frontends: plumbing.
- Database mechanics: tables are sequences in insertion order, a row's id is its position, a SELECT without ORDER BY reads in that order, a commit is one step, an abort restores the tables.
- The reorg check and the crediting loop ask one head and one block-hash oracle per pass; the chain changes arbitrarily between passes.
- `run_scan` (backend/worker/watcher.py:328-372) is the same pass without an NFT report and without the hot-wallet filter; it is `Watcher.RunDepositScans` with None for both.
- Several chains: cursors, nonce counters, assets and worker queries are keyed by `chain_id` in the source; the model is one chain's engine and has no such column.
- A block replaced by a reorg is re-scanned only if it held a recorded deposit at or above the lowest reported orphan; no theorem claims that transfers first appearing in other replaced blocks are found.
- One withdrawer loop runs per chain, so its phases follow each other; rows held by another worker enter a signing pass as the set it skips.
- Pass counters, log lines, error texts and stored error columns are not modelled.
- Liveness: that a deposit is eventually credited or a payout eventually mined depends on the RPC and the chain.
- Sweeper.FundPending: `fund_pending` broadcasts before it commits (backend/worker/nft_sweeper.py:181-185); the claims about its nonces and costs are about committed rows.
- RateLimit.SlidingWindowBound: calls are taken one transaction at a time, but no lock of the source orders them; what overlapping calls can exceed is `RateRace.OverlapBound`.
- Reorgs.OrphanRecovers: states the row the pass leaves, which is past SEEN when the pass is deep enough to confirm or credit it at once.
- Amounts.ParsersAgree: characters are ASCII; Python's non-ASCII digits and white space, its limit on the length of integer text, and JavaScript's other white space are not modelled.
- PayoutSafety.RefundXorPayout: the hot-wallet address is fixed during a run, as it is in NftSafety and Settlement; rotation is modelled for the nonces only.
- A raw transaction carries no sender: payouts, mints and gas transfers are signed by the hot wallet, sweeps by the deposit address.
- HotWallet.OutboxNoncesNeverCollide: a pass may find any tables at all, so the statement does not depend on how rows got there.
- Overspend.NoOverspend: reversals of reorged credits may take a wallet below zero, as in the code; the bound is on the balance with those credits added back.
- Payments.CreateWithdrawal: the answers of the rate limiter, the address check, the asset lookup and the amount cap are arguments.
