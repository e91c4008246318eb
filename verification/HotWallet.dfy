/**
 * The four outboxes as clients of the shared nonce counter: the signing passes of the fungible
 * withdrawer, the NFT withdrawer and the NFT minter, and the sweeper's gas funding. Each pass is one
 * transaction of the counter, so what holds of committed nonces holds of the rows that carry them.
 */
module HotWallet {
  import opened Wrappers
  import opened Tables
  import Ledger
  import Nft
  import NftSafety
  import Nonce
  import Payouts
  import PayoutSafety
  import Sweeper
  import Withdrawer

  /** A signing pass: its tables as it finds them, and its oracles. */
  datatype Pass =
    | Withdrawals(vault: Withdrawer.Vault, signer: Withdrawer.Signer)
    | NftWithdrawals(requests: seq<NftWithdrawal>, sender: Nft.Signer)
    | Mints(mints: seq<NftMint>, minter: Nft.Signer)
    | GasFunding(sweeps: seq<Sweep>, funder: Sweeper.Funder)

  function Address(p: Pass): string {
    match p
    case Withdrawals(_, s) => s.address
    case NftWithdrawals(_, s) => s.address
    case Mints(_, s) => s.address
    case GasFunding(_, f) => f.address
  }

  function ChainNonce(p: Pass): nat {
    match p
    case Withdrawals(_, s) => s.chainNonce
    case NftWithdrawals(_, s) => s.chainNonce
    case Mints(_, s) => s.chainNonce
    case GasFunding(_, f) => f.chainNonce
  }

  /** The rows the pass claims. */
  function Claims(p: Pass): seq<nat> {
    match p
    case Withdrawals(v, s) => Withdrawer.Claimed(v.requests, s.locked, s.batch)
    case NftWithdrawals(requests, s) => Payouts.Claimed(Nft.Outs(requests), s.locked, s.batch)
    case Mints(mints, s) => Payouts.Claimed(Nft.MintOuts(mints), s.locked, s.batch)
    case GasFunding(sweeps, f) => Sweeper.ClaimSweeps(sweeps, {SweepPending, Funding}, f.locked, f.batch)
  }

  function Signed(p: Pass, row: Option<HotWalletNonce>): Ledger.Step<Withdrawer.Vault>
    requires p.Withdrawals?
  {
    Withdrawer.SignPending(p.vault.(hotNonce := row), p.signer)
  }

  /** The pass takes the counter's lock and commits. */
  predicate Completes(p: Pass, row: Option<HotWalletNonce>) {
    match p
    case Withdrawals(_, _) => Claims(p) != [] && Signed(p, row).Done?
    case NftWithdrawals(_, _) => Claims(p) != []
    case Mints(_, _) => Claims(p) != []
    case GasFunding(sweeps, f) => Sweeper.Fund(sweeps, row, f).loaded
  }

  /** The rows the pass signs, with the nonces they hold afterwards. */
  function Draws(p: Pass, row: Option<HotWalletNonce>): seq<Payouts.Draw>
    requires Completes(p, row)
  {
    match p
    case Withdrawals(_, _) => WithdrawalDraws(p, row)
    case NftWithdrawals(requests, s) =>
      Payouts.Drawn(Nft.SignPass(Nft.Outs(requests), row, Nft.TransferCall(requests), s).0, Claims(p))
    case Mints(mints, s) => Payouts.Drawn(Nft.SignPass(Nft.MintOuts(mints), row, Nft.MintCall(mints), s).0, Claims(p))
    case GasFunding(sweeps, f) => Sweeper.GasDrawn(sweeps, Sweeper.Fund(sweeps, row, f).sweeps, Claims(p))
  }

  function WithdrawalDraws(p: Pass, row: Option<HotWalletNonce>): seq<Payouts.Draw>
    requires p.Withdrawals? && Completes(p, row)
  {
    Payouts.Drawn(Withdrawer.Outs(Signed(p, row).value.requests), Claims(p))
  }

  /** The counter as the pass leaves it. */
  function Counter(p: Pass, row: Option<HotWalletNonce>): Option<HotWalletNonce>
    requires Completes(p, row)
  {
    match p
    case Withdrawals(_, _) => Signed(p, row).value.hotNonce
    case NftWithdrawals(requests, s) => Nft.SignPass(Nft.Outs(requests), row, Nft.TransferCall(requests), s).1
    case Mints(mints, s) => Nft.SignPass(Nft.MintOuts(mints), row, Nft.MintCall(mints), s).1
    case GasFunding(sweeps, f) => Sweeper.Fund(sweeps, row, f).row
  }

  // ---- every pass draws consecutive nonces --------------------------------------------------

  ghost predicate PassDrew(p: Pass, row: Option<HotWalletNonce>)
    requires Completes(p, row)
  {
    Nonce.Drew(row, Counter(p, row), Payouts.NoncesOf(Draws(p, row)), Address(p), ChainNonce(p))
  }

  lemma WithdrawalsDraw(p: Pass, row: Option<HotWalletNonce>)
    requires p.Withdrawals? && Completes(p, row)
    ensures PassDrew(p, row)
  {
    hide Withdrawer.SignRows, Payouts.Drawn, Withdrawer.Claimed;
    var v := p.vault.(hotNonce := Some(Nonce.Reconciled(row, p.signer.address, p.signer.chainNonce)));
    PendingClaims(p.vault.requests, p.signer);
    Withdrawer.SignRowsDraw(v, Claims(p), p.signer);
  }

  lemma PendingClaims(requests: seq<Withdrawal>, s: Withdrawer.Signer)
    ensures var ids := Withdrawer.Claimed(requests, s.locked, s.batch);
      && (forall k :: 0 <= k < |ids| ==> ids[k] < |requests| && Withdrawer.Pending(requests[ids[k]]))
      && (forall j, k :: 0 <= j < k < |ids| ==> ids[j] < ids[k])
  {
  }

  lemma SignPassDraws(outs: seq<Outbox>, row: Option<HotWalletNonce>, call: nat -> Call, s: Nft.Signer)
    requires Payouts.Claimed(outs, s.locked, s.batch) != []
    ensures var ids, after := Payouts.Claimed(outs, s.locked, s.batch), Nft.SignPass(outs, row, call, s);
      Nonce.Drew(row, after.1, Payouts.NoncesOf(Payouts.Drawn(after.0, ids)), s.address, s.chainNonce)
  {
    hide Payouts.SignOuts, Payouts.Drawn;
    var counter := Nonce.Reconciled(row, s.address, s.chainNonce);
    Payouts.SignOutsDraw(Payouts.Batch(outs, counter.nextNonce), Payouts.Claimed(outs, s.locked, s.batch), call,
      s.signs, s.gasPrice);
  }

  /** A pass of any of the four outboxes is one draw from the counter, held row by row by what it signed. */
  lemma PassDraws(p: Pass, row: Option<HotWalletNonce>)
    requires Completes(p, row)
    ensures PassDrew(p, row)
  {
    hide Nonce.Drew, Nft.SignPass, Sweeper.Fund, Payouts.Claimed, Sweeper.ClaimSweeps;
    match p
    case Withdrawals(_, _) => WithdrawalsDraw(p, row);
    case NftWithdrawals(requests, s) => SignPassDraws(Nft.Outs(requests), row, Nft.TransferCall(requests), s);
    case Mints(mints, s) => SignPassDraws(Nft.MintOuts(mints), row, Nft.MintCall(mints), s);
    case GasFunding(sweeps, f) => Sweeper.FundDraws(sweeps, row, f);
  }

  lemma PlayedIsDrew(w: Nonce.World, i: nat, chainNonce: nat, after: Option<HotWalletNonce>, nonces: seq<nat>)
    requires i < |w.workers| && w.workers[i].Idle? && w.lock.None?
    requires Nonce.Drew(w.row, after, nonces, w.address, chainNonce)
    ensures var played := Nonce.Played(w, i, chainNonce, |nonces|);
      played.row == after && played.issued == w.issued + Nonce.Issues(w.address, nonces)
  {
    hide Nonce.Played;
    var base := Nonce.Reconciled(w.row, w.address, chainNonce).nextNonce;
    Nonce.PlayedDraws(w, i, chainNonce, |nonces|);
    assert nonces == seq(|nonces|, k requires 0 <= k => base + k);
  }

  /** Undisturbed, the steps of the counter's transaction add up to the pass. */
  lemma PlayedIsPass(w: Nonce.World, i: nat, p: Pass)
    requires i < |w.workers| && w.workers[i].Idle? && w.lock.None? && w.address == Address(p) && Completes(p, w.row)
    ensures var after := Nonce.Played(w, i, ChainNonce(p), |Draws(p, w.row)|);
      && after.row == Counter(p, w.row)
      && after.issued == w.issued + Nonce.Issues(w.address, Payouts.NoncesOf(Draws(p, w.row)))
  {
    hide Counter, Draws, Completes, Nonce.Played, Nonce.Drew;
    PassDraws(p, w.row);
    PlayedIsDrew(w, i, ChainNonce(p), Counter(p, w.row), Payouts.NoncesOf(Draws(p, w.row)));
  }

  // ---- what the payout runs see of the other outboxes ---------------------------------------

  lemma CounterAdvances(p: Pass, row: Option<HotWalletNonce>, address: string)
    requires Completes(p, row) && Address(p) == address && (row.Some? ==> row.value.address == address)
    ensures var after := Counter(p, row);
      after.Some? && after.value.address == address && (row.Some? ==> row.value.nextNonce <= after.value.nextNonce)
  {
    hide Completes, Counter, Draws;
    PassDraws(p, row);
  }

  /**
   * A committed pass of another outbox is exactly the foreign event of the payout runs: it is permitted,
   * and the counter it leaves is the one the event leaves.
   */
  lemma PassIsElsewhere(p: Pass, w: PayoutSafety.World, s: PayoutSafety.Setup)
    requires PayoutSafety.Ok(w, s) && Completes(p, w.vault.hotNonce) && Address(p) == s.address
    ensures Counter(p, w.vault.hotNonce).Some?
    ensures var e := PayoutSafety.Elsewhere(w.vault.txs, Counter(p, w.vault.hotNonce).value.nextNonce);
      PayoutSafety.Allowed(w, s, e) && PayoutSafety.Next(w, s, e).vault.hotNonce == Counter(p, w.vault.hotNonce)
  {
    hide Completes, Counter;
    CounterAdvances(p, w.vault.hotNonce, s.address);
  }

  /** The same for the NFT runs, where the fungible outbox is one of the others. */
  lemma PassIsCounter(p: Pass, w: NftSafety.Scene, s: PayoutSafety.Setup)
    requires NftSafety.Sane(w, s) && Completes(p, w.nft.hotNonce) && Address(p) == s.address
    ensures Counter(p, w.nft.hotNonce).Some?
    ensures var e := NftSafety.Counter(Counter(p, w.nft.hotNonce).value.nextNonce);
      NftSafety.Possible(w, s, e) && NftSafety.After(w, s, e).nft.hotNonce == Counter(p, w.nft.hotNonce)
  {
    hide Completes, Counter, Nft.Ok, NftSafety.OutsOk;
    CounterAdvances(p, w.nft.hotNonce, s.address);
  }

  // ---- interleaved runs ---------------------------------------------------------------------

  /** An event of the counter; a commit names the pass that commits. */
  datatype Turn = Turn(event: Nonce.Event, pass: Pass)

  function Events(steps: seq<Turn>): seq<Nonce.Event> {
    seq(|steps|, k requires 0 <= k < |steps| => steps[k].event)
  }

  function State(workers: nat, address: string, steps: seq<Turn>): Nonce.World {
    Nonce.Run(workers, address, Events(steps))
  }

  predicate Commits(w: Nonce.World, e: Nonce.Event) {
    e.Commit? && e.worker < |w.workers| && w.workers[e.worker].Allocating?
  }

  /** The committing worker ran the pass: it read the pass's chain nonce and signed as often as the pass. */
  predicate Fits(w: Nonce.World, s: Turn) {
    Commits(w, s.event) ==>
      var me := w.workers[s.event.worker];
      && Completes(s.pass, w.row) && Address(s.pass) == w.address && ChainNonce(s.pass) == me.seen
      && |Draws(s.pass, w.row)| == |me.mine|
  }

  predicate Fitted(workers: nat, address: string, steps: seq<Turn>) {
    steps == [] ||
    (Fitted(workers, address, steps[..|steps| - 1])
      && Fits(State(workers, address, steps[..|steps| - 1]), steps[|steps| - 1]))
  }

  /** A committed row of an outbox with the address and nonce it was signed for. */
  datatype Carrier = Carrier(pass: Pass, row: nat, address: string, nonce: nat)

  function Carriers(p: Pass, draws: seq<Payouts.Draw>, address: string): seq<Carrier> {
    seq(|draws|, k requires 0 <= k < |draws| => Carrier(p, draws[k].row, address, draws[k].nonce))
  }

  /** Every row that a committed pass signed, in the order of the commits. */
  function SignedRows(workers: nat, address: string, steps: seq<Turn>): seq<Carrier>
    requires Fitted(workers, address, steps)
  {
    if steps == [] then [] else
      var w, s := State(workers, address, steps[..|steps| - 1]), steps[|steps| - 1];
      SignedRows(workers, address, steps[..|steps| - 1]) +
      if Commits(w, s.event) then Carriers(s.pass, Draws(s.pass, w.row), w.address) else []
  }

  function IssuesOf(rows: seq<Carrier>): seq<Nonce.Issue> {
    seq(|rows|, k requires 0 <= k < |rows| => Nonce.Issue(rows[k].address, rows[k].nonce))
  }

  /** At a commit the worker's private nonces are those of the pass's rows, and the counter is the pass's. */
  lemma CommitIsPass(w: Nonce.World, s: Turn)
    requires Nonce.Private(w) && Commits(w, s.event) && Fits(w, s)
    ensures var me, draws := w.workers[s.event.worker], Draws(s.pass, w.row);
      && me.mine == Payouts.NoncesOf(draws)
      && Nonce.Next(w, s.event).row == Counter(s.pass, w.row)
      && Nonce.Next(w, s.event).issued == w.issued + IssuesOf(Carriers(s.pass, draws, w.address))
  {
    hide Completes, Draws, Counter;
    var me, draws := w.workers[s.event.worker], Draws(s.pass, w.row);
    PassDraws(s.pass, w.row);
    Nonce.CommitDraws(w, s.event.worker);
    assert me.mine == Payouts.NoncesOf(draws);
    assert Nonce.Issues(w.address, me.mine) == IssuesOf(Carriers(s.pass, draws, w.address));
  }

  lemma {:induction false} PrivateRun(workers: nat, address: string, events: seq<Nonce.Event>)
    ensures Nonce.Private(Nonce.Run(workers, address, events))
    decreases |events|
  {
    if events == [] {
    } else {
      PrivateRun(workers, address, events[..|events| - 1]);
      Nonce.NextKeepsPrivate(Nonce.Run(workers, address, events[..|events| - 1]), events[|events| - 1]);
    }
  }

  lemma StateStep(workers: nat, address: string, steps: seq<Turn>)
    requires steps != []
    ensures State(workers, address, steps)
      == Nonce.Next(State(workers, address, steps[..|steps| - 1]), steps[|steps| - 1].event)
  {
    hide Nonce.Next;
    assert Events(steps)[..|steps| - 1] == Events(steps[..|steps| - 1]);
  }

  lemma IssuesConcat(a: seq<Carrier>, b: seq<Carrier>)
    ensures IssuesOf(a + b) == IssuesOf(a) + IssuesOf(b)
  {
  }

  /** In every interleaved run the nonces the counter has issued are exactly those its committed rows carry. */
  lemma {:induction false} RowsCarryIssued(workers: nat, address: string, steps: seq<Turn>)
    requires Fitted(workers, address, steps)
    ensures IssuesOf(SignedRows(workers, address, steps)) == State(workers, address, steps).issued
    decreases |steps|
  {
    if steps != [] {
      hide State, Fits, Completes, Draws, Nonce.Next, Nonce.Private, IssuesOf, Carriers;
      var front, s := steps[..|steps| - 1], steps[|steps| - 1];
      var w := State(workers, address, front);
      RowsCarryIssued(workers, address, front);
      PrivateState(workers, address, front);
      StateStep(workers, address, steps);
      if Commits(w, s.event) {
        Completion(w, s);
        CommitIsPass(w, s);
        IssuesConcat(SignedRows(workers, address, front), Carriers(s.pass, Draws(s.pass, w.row), w.address));
      } else {
        IssuesUnchanged(w, s.event);
        IssuesConcat(SignedRows(workers, address, front), []);
      }
    } else {
      assert IssuesOf([]) == [];
    }
  }

  lemma PrivateState(workers: nat, address: string, steps: seq<Turn>)
    ensures Nonce.Private(State(workers, address, steps))
  {
    PrivateRun(workers, address, Events(steps));
  }

  lemma Completion(w: Nonce.World, s: Turn)
    requires Commits(w, s.event) && Fits(w, s)
    ensures Completes(s.pass, w.row)
  {
  }

  lemma IssuesUnchanged(w: Nonce.World, e: Nonce.Event)
    requires !Commits(w, e)
    ensures Nonce.Next(w, e).issued == w.issued
  {
  }

  /**
   * No two rows ever signed by the four outboxes carry the same nonce of the same address, over any
   * interleaving of their transactions with rotations that have caught up; every row's nonce at the
   * current address is below the counter.
   */
  lemma OutboxNoncesNeverCollide(workers: nat, address: string, steps: seq<Turn>, j: nat, k: nat)
    requires Fitted(workers, address, steps) && Nonce.SafeRun(workers, address, Events(steps))
    requires j < k < |SignedRows(workers, address, steps)|
    ensures var rows, w := SignedRows(workers, address, steps), State(workers, address, steps);
      && (rows[j].address, rows[j].nonce) != (rows[k].address, rows[k].nonce)
      && w.row.Some?
      && (rows[k].address == w.row.value.address ==> rows[k].nonce < w.row.value.nextNonce)
  {
    RowsCarryIssued(workers, address, steps);
    Nonce.NoncesNeverCollideOrLeak(workers, address, Events(steps));
    var rows, issued := SignedRows(workers, address, steps), State(workers, address, steps).issued;
    assert issued[j] == IssuesOf(rows)[j] && issued[k] == IssuesOf(rows)[k];
  }
}
