/**
 * The whole custody engine over one ledger: watcher passes, transfers, withdrawal requests and the
 * three phases of the withdrawal outbox, in any order. Every reachable state conserves value and
 * keeps rows and ledger in agreement.
 */
module Custody {
  import opened Wrappers
  import opened Sums
  import opened Tables
  import Keys
  import Ledger
  import Nonce
  import Watcher
  import DepositLedger
  import Withdrawer
  import Payments
  import Payouts

  datatype World = World(
    txs: seq<LedgerTx>, deposits: seq<Deposit>, cursor: Option<Cursor>,
    requests: seq<Withdrawal>, hotNonce: Option<HotWalletNonce>)

  /** A transaction that is rolled back for any reason is simply no event. */
  datatype Event =
    | Scan(watch: Watcher.Watch, client: Watcher.Client, cfg: Watcher.Config, nftLowest: Option<int>)
    | Withdraw(request: Payments.WithdrawArgs)
    | Transfer(order: Payments.TransferArgs)
    | Sign(signer: Withdrawer.Signer)
    | Send(accepts: RawTx -> bool)
    | Confirm(rpc: Payouts.Rpc, gate: Payouts.Gate)

  function VaultOf(w: World): Withdrawer.Vault {
    Withdrawer.Vault(w.txs, w.requests, w.hotNonce)
  }

  function WithVault(w: World, r: Ledger.Step<Withdrawer.Vault>): World {
    match r
    case Aborted(_) => w
    case Done(v) => w.(txs := v.txs, requests := v.requests, hotNonce := v.hotNonce)
  }

  function Next(w: World, e: Event): World {
    match e
    case Scan(watch, client, cfg, nftLowest) =>
      (match Watcher.Pass(Watcher.State(Watcher.Books(w.txs, w.deposits), w.cursor), watch, client, cfg, nftLowest)
       case Aborted(_) => w
       case Done(s) => w.(txs := s.books.txs, deposits := s.books.deposits, cursor := s.cursor))
    case Withdraw(request) =>
      var desk := Payments.Withdraw(Payments.Desk(w.txs, w.requests), request).0;
      w.(txs := desk.txs, requests := desk.requests)
    case Transfer(order) => w.(txs := Payments.Transfer(w.txs, order).0)
    case Sign(signer) => WithVault(w, Withdrawer.SignPending(VaultOf(w), signer))
    case Send(accepts) =>
      w.(requests := Withdrawer.BroadcastRows(Withdrawer.Sending(w.requests, []),
        Withdrawer.SigningQueue(w.requests), accepts).requests)
    case Confirm(rpc, gate) => WithVault(w, Withdrawer.ConfirmRows(VaultOf(w), |w.requests|, rpc, gate))
  }

  const EMPTY := World([], [], None, [], None)

  function Run(events: seq<Event>): World {
    if events == [] then EMPTY else Next(Run(events[..|events| - 1]), events[|events| - 1])
  }

  // ---- what is conserved --------------------------------------------------------------------

  function InFlightIn(asset: nat): Withdrawal -> int {
    (r: Withdrawal) => if Payouts.InFlight(r.out) && r.asset == asset then r.amount else 0
  }

  function ConfirmedIn(asset: nat): Withdrawal -> int {
    (r: Withdrawal) => if r.out.status.Confirmed? && r.asset == asset then r.amount else 0
  }

  function InFlightTotal(w: World, asset: nat): int {
    SumBy(w.requests, InFlightIn(asset))
  }

  function ConfirmedTotal(w: World, asset: nat): int {
    SumBy(w.requests, ConfirmedIn(asset))
  }

  function CreditedTotal(w: World, asset: nat): int {
    DepositLedger.CreditedTotal(w.deposits, asset)
  }

  /** The books of one asset: every account class equals what the tables say it must hold. */
  ghost predicate Balanced(w: World, asset: nat) {
    && Ledger.Total(w.txs, Ledger.AllWallets(asset))
         == CreditedTotal(w, asset) - InFlightTotal(w, asset) - ConfirmedTotal(w, asset)
    && DepositLedger.SystemTotal(w.txs, WithdrawalsReserved, asset) == InFlightTotal(w, asset)
    && DepositLedger.SystemTotal(w.txs, WithdrawalsSettled, asset) == ConfirmedTotal(w, asset)
    && DepositLedger.SystemTotal(w.txs, DepositsInTransit, asset) == -CreditedTotal(w, asset)
  }

  /** A request is settled or refunded in the ledger exactly when its row says so. */
  ghost predicate RequestsMatch(txs: seq<LedgerTx>, requests: seq<Withdrawal>) {
    && (forall i: nat :: Keys.WithdrawalSettle(i) in Ledger.KeysOf(txs) <==>
          i < |requests| && requests[i].out.status.Confirmed?)
    && (forall i: nat :: Keys.WithdrawalReverse(i) in Ledger.KeysOf(txs) <==>
          i < |requests| && requests[i].out.status.Failed?)
    && (forall i :: 0 <= i < |requests| ==> !requests[i].out.status.Rejected?)
  }

  ghost predicate Ok(w: World) {
    && Ledger.Sound(w.txs)
    && DepositLedger.Backed(Watcher.Books(w.txs, w.deposits))
    && RequestsMatch(w.txs, w.requests)
    && forall a: nat :: Balanced(w, a)
  }

  // ---- one posting --------------------------------------------------------------------------

  lemma AppendSound(txs: seq<LedgerTx>, kind: EntryType, key: Key, source: Account, target: Account, asset: nat,
                    amount: int, ref: Ref)
    requires Ledger.Sound(txs) && key !in Ledger.KeysOf(txs) && source.asset == asset && target.asset == asset
    ensures Ledger.Sound(txs + [LedgerTx(kind, key, ref, Ledger.MoveEntries(source, target, asset, amount))])
  {
    Ledger.MovePosts(txs, kind, key, source, target, asset, amount, ref);
    Ledger.PostKeepsSound(txs, kind, key, Ledger.Move(source, target, asset, amount), ref);
  }

  /** The account a closed request's reservation goes to. */
  function CloseTarget(r: Withdrawal, out: Outbox): Account {
    if out.status.Confirmed? then System(WithdrawalsSettled, r.asset) else Wallet(r.user, r.asset)
  }

  function CloseTx(i: nat, r: Withdrawal, out: Outbox): LedgerTx {
    LedgerTx(
      if out.status.Confirmed? then WithdrawalType else ReversalType,
      if out.status.Confirmed? then Keys.WithdrawalSettle(i) else Keys.WithdrawalReverse(i),
      WithdrawalRef(i),
      Ledger.MoveEntries(System(WithdrawalsReserved, r.asset), CloseTarget(r, out), r.asset, r.amount))
  }

  function Closed(w: World, i: nat, out: Outbox): World
    requires i < |w.requests|
  {
    w.(txs := w.txs + [CloseTx(i, w.requests[i], out)], requests := w.requests[i := w.requests[i].(out := out)])
  }

  lemma CloseBalances(w: World, i: nat, out: Outbox, a: nat)
    requires Balanced(w, a) && i < |w.requests| && Payouts.InFlight(w.requests[i].out)
    requires out.status.Confirmed? || out.status.Failed?
    ensures Balanced(Closed(w, i, out), a)
  {
    hide Ledger.Total, Ledger.MoveEntries;
    var r := w.requests[i];
    MoveChanges(w.txs, CloseTx(i, r, out), System(WithdrawalsReserved, r.asset), CloseTarget(r, out), r.asset,
      r.amount, a);
    SumByUpdate(w.requests, i, r.(out := out), InFlightIn(a));
    SumByUpdate(w.requests, i, r.(out := out), ConfirmedIn(a));
  }

  /** Closing an in-flight request, with the posting that its final status calls for. */
  lemma CloseKeeps(w: World, i: nat, out: Outbox)
    requires Ok(w) && i < |w.requests| && Payouts.InFlight(w.requests[i].out)
    requires out.status.Confirmed? || out.status.Failed?
    ensures var r := w.requests[i];
      (if out.status.Confirmed? then Withdrawer.SettleOutcome(w.txs, i, r) else Withdrawer.RefundOutcome(w.txs, i, r))
        == Ledger.Posted(CloseTx(i, r, out))
    ensures Ok(Closed(w, i, out))
  {
    hide Ledger.Sound, DepositLedger.Backed, Balanced;
    var r := w.requests[i];
    var t := CloseTx(i, r, out);
    assert t.key !in Ledger.KeysOf(w.txs);
    Ledger.MovePosts(w.txs, t.kind, t.key, System(WithdrawalsReserved, r.asset), CloseTarget(r, out), r.asset,
      r.amount, t.ref);
    AppendSound(w.txs, t.kind, t.key, System(WithdrawalsReserved, r.asset), CloseTarget(r, out), r.asset, r.amount,
      t.ref);
    DepositLedger.ForeignPostKeepsBacked(Watcher.Books(w.txs, w.deposits), t);
    Ledger.KeysAppend(w.txs, t);
    var w' := Closed(w, i, out);
    assert RequestsMatch(w'.txs, w'.requests);
    forall a: nat
      ensures Balanced(w', a)
    {
      CloseBalances(w, i, out, a);
    }
  }

  /** What a two-leg movement does to the four account classes of asset `a`. */
  lemma MoveChanges(txs: seq<LedgerTx>, t: LedgerTx, source: Account, target: Account, asset: nat, amount: int, a: nat)
    requires t.entries == Ledger.MoveEntries(source, target, asset, amount)
    requires source.asset == asset && target.asset == asset
    ensures Ledger.Total(txs + [t], Ledger.AllWallets(a)) == Ledger.Total(txs, Ledger.AllWallets(a))
      - (if source.Wallet? && asset == a then amount else 0) + (if target.Wallet? && asset == a then amount else 0)
    ensures forall name ::
      DepositLedger.SystemTotal(txs + [t], name, a) == DepositLedger.SystemTotal(txs, name, a)
        - (if source == System(name, a) then amount else 0) + (if target == System(name, a) then amount else 0)
  {
    Ledger.TotalAppend(txs, t, Ledger.AllWallets(a));
    Ledger.MoveTotal(source, target, asset, amount, Ledger.AllWallets(a));
    forall name
      ensures DepositLedger.SystemTotal(txs + [t], name, a) == DepositLedger.SystemTotal(txs, name, a)
        - (if source == System(name, a) then amount else 0) + (if target == System(name, a) then amount else 0)
    {
      var scope := Ledger.OneAccount(System(name, a));
      Ledger.TotalAppend(txs, t, scope);
      Ledger.MoveTotal(source, target, asset, amount, scope);
    }
  }

  /** An in-flight request moving to another in-flight status needs no posting. */
  lemma OpenRowKeeps(w: World, i: nat, out: Outbox, hotNonce: Option<HotWalletNonce>)
    requires Ok(w) && i < |w.requests| && Payouts.InFlight(w.requests[i].out) && Payouts.InFlight(out)
    ensures Ok(w.(requests := w.requests[i := w.requests[i].(out := out)], hotNonce := hotNonce))
  {
    var r := w.requests[i].(out := out);
    var w' := w.(requests := w.requests[i := r], hotNonce := hotNonce);
    forall a: nat
      ensures Balanced(w', a)
    {
      assert Balanced(w, a);
      SumByUpdate(w.requests, i, r, InFlightIn(a));
      SumByUpdate(w.requests, i, r, ConfirmedIn(a));
    }
  }

  // ---- the events ---------------------------------------------------------------------------

  lemma ScanKeeps(w: World, watch: Watcher.Watch, client: Watcher.Client, cfg: Watcher.Config, nftLowest: Option<int>)
    requires Ok(w)
    ensures Ok(Next(w, Scan(watch, client, cfg, nftLowest)))
  {
    var s := Watcher.State(Watcher.Books(w.txs, w.deposits), w.cursor);
    DepositLedger.PassKeeps(s, watch, client, cfg, nftLowest);
    PassKeepsForeign(s, watch, client, cfg, nftLowest);
    var w' := Next(w, Scan(watch, client, cfg, nftLowest));
    assert DepositLedger.Conserves(s.books, Watcher.Books(w'.txs, w'.deposits));
    forall a: nat
      ensures Balanced(w', a)
    {
      assert Balanced(w, a);
    }
  }

  /** A watcher pass posts nothing but deposit credits and reversals. */
  ghost predicate OnlyDeposits(before: seq<LedgerTx>, after: seq<LedgerTx>) {
    (Ledger.Sound(before) ==> Ledger.Sound(after)) &&
    forall k :: k in Ledger.KeysOf(after) <==>
      k in Ledger.KeysOf(before) || (k in Ledger.KeysOf(after) && (k.DepositCredit? || k.DepositReverse?))
  }

  lemma PostIsOnlyDeposits(txs: seq<LedgerTx>, kind: EntryType, key: Key, legs: seq<Ledger.Leg>, ref: Ref)
    requires key.DepositCredit? || key.DepositReverse?
    ensures OnlyDeposits(txs, Ledger.After(txs, Ledger.Outcome(txs, kind, key, legs, ref)))
  {
    var p := Ledger.Outcome(txs, kind, key, legs, ref);
    if Ledger.Sound(txs) {
      Ledger.PostKeepsSound(txs, kind, key, legs, ref);
    }
    if p.Posted? {
      Ledger.KeysAppend(txs, p.tx);
    }
  }

  lemma {:induction false} CreditsOnlyDeposits(b: Watcher.Books, n: nat, client: Watcher.Client)
    requires n <= |b.deposits| && Watcher.CreditRows(b, n, client).Done?
    ensures OnlyDeposits(b.txs, Watcher.CreditRows(b, n, client).value.txs)
    decreases n
  {
    hide Ledger.Sound, Ledger.LegsError, Ledger.KeysOf;
    if n == 0 {
    } else {
      CreditsOnlyDeposits(b, n - 1, client);
      var c := Watcher.CreditRows(b, n - 1, client).value;
      var d := c.deposits[n - 1];
      if d.user.Some? {
        PostIsOnlyDeposits(c.txs, DepositType, Keys.DepositCredit(n - 1, d.revision),
          Ledger.Move(System(DepositsInTransit, d.asset), Wallet(d.user.value, d.asset), d.asset,
            d.amount), DepositRef(n - 1));
      }
    }
  }

  lemma {:induction false} ReversalsOnlyDeposits(b: Watcher.Books, n: nat, client: Watcher.Client, floor: int)
    requires n <= |b.deposits| && Watcher.ReorgRows(b, n, client, floor).Done?
    ensures OnlyDeposits(b.txs, Watcher.ReorgRows(b, n, client, floor).value.txs)
    decreases n
  {
    hide Ledger.Sound, Ledger.LegsError, Ledger.KeysOf;
    if n == 0 {
    } else {
      ReversalsOnlyDeposits(b, n - 1, client, floor);
      var c := Watcher.ReorgRows(b, n - 1, client, floor).value;
      var d := c.deposits[n - 1];
      if d.user.Some? {
        PostIsOnlyDeposits(c.txs, ReversalType, Keys.DepositReverse(n - 1, d.revision),
          Ledger.Move(Wallet(d.user.value, d.asset), System(DepositsInTransit, d.asset), d.asset,
            d.amount), DepositRef(n - 1));
      }
    }
  }

  lemma PassKeepsForeign(s: Watcher.State, watch: Watcher.Watch, client: Watcher.Client, cfg: Watcher.Config,
                         nftLowest: Option<int>)
    requires Watcher.Pass(s, watch, client, cfg, nftLowest).Done?
    ensures OnlyDeposits(s.books.txs, Watcher.Pass(s, watch, client, cfg, nftLowest).value.books.txs)
  {
    var due := Watcher.Due(s, watch, client, cfg);
    CreditsOnlyDeposits(due, |due.deposits|, client);
    var credited := Watcher.CreditRows(due, |due.deposits|, client).value;
    ReversalsOnlyDeposits(credited, |credited.deposits|, client, client.head - Watcher.Window(cfg));
  }

  function ReserveTx(a: Payments.WithdrawArgs, id: nat): LedgerTx {
    LedgerTx(WithdrawalType, Keys.WithdrawKey(a.user, a.client), WithdrawalRef(id),
      Ledger.MoveEntries(Wallet(a.user, a.asset), System(WithdrawalsReserved, a.asset), a.asset, a.amount))
  }

  function Reserved(w: World, a: Payments.WithdrawArgs): World
    requires a.amount > 0
  {
    w.(txs := w.txs + [ReserveTx(a, |w.requests|)],
       requests := w.requests + [Withdrawal(a.user, a.asset, a.to, a.amount, FRESH_OUTBOX)])
  }

  lemma ReserveBalances(w: World, a: Payments.WithdrawArgs, asset: nat)
    requires Balanced(w, asset) && a.amount > 0
    ensures Balanced(Reserved(w, a), asset)
  {
    var row := Withdrawal(a.user, a.asset, a.to, a.amount, FRESH_OUTBOX);
    MoveChanges(w.txs, ReserveTx(a, |w.requests|), Wallet(a.user, a.asset), System(WithdrawalsReserved, a.asset),
      a.asset, a.amount, asset);
    SumByAppend(w.requests, row, InFlightIn(asset));
    SumByAppend(w.requests, row, ConfirmedIn(asset));
  }

  lemma ReserveKeeps(w: World, a: Payments.WithdrawArgs)
    requires Ok(w) && Keys.WithdrawKey(a.user, a.client) !in Ledger.KeysOf(w.txs) && a.amount > 0
    ensures Ok(Reserved(w, a))
  {
    hide Ledger.Sound, DepositLedger.Backed, Balanced;
    var id, t := |w.requests|, ReserveTx(a, |w.requests|);
    AppendSound(w.txs, WithdrawalType, t.key, Wallet(a.user, a.asset), System(WithdrawalsReserved, a.asset), a.asset,
      a.amount, t.ref);
    DepositLedger.ForeignPostKeepsBacked(Watcher.Books(w.txs, w.deposits), t);
    Ledger.KeysAppend(w.txs, t);
    forall asset: nat
      ensures Balanced(Reserved(w, a), asset)
    {
      ReserveBalances(w, a, asset);
    }
  }

  lemma WithdrawKeeps(w: World, a: Payments.WithdrawArgs)
    requires Ok(w)
    ensures Ok(Next(w, Withdraw(a)))
  {
    hide Ok, Ledger.LegsError;
    if Payments.Withdraw(Payments.Desk(w.txs, w.requests), a).1.Reserved? {
      Ledger.MovePosts(w.txs, WithdrawalType, Keys.WithdrawKey(a.user, a.client), Wallet(a.user, a.asset),
        System(WithdrawalsReserved, a.asset), a.asset, a.amount, WithdrawalRef(|w.requests|));
      ReserveKeeps(w, a);
      assert Next(w, Withdraw(a)) == Reserved(w, a);
    } else {
      assert Next(w, Withdraw(a)) == w;
    }
  }

  lemma TransferKeeps(w: World, a: Payments.TransferArgs)
    requires Ok(w)
    ensures Ok(Next(w, Transfer(a)))
  {
    hide Ledger.Sound, DepositLedger.Backed, Ledger.Total, Ledger.LegsError;
    var after := Payments.Transfer(w.txs, a).0;
    if after != w.txs {
      var from, to := Wallet(a.sender, a.asset), Wallet(a.recipient.value, a.asset);
      var key: Key := Keys.TransferKey(a.sender, a.client);
      var ref := TransferRef(a.sender, a.recipient.value);
      Ledger.MovePosts(w.txs, TransferOutType, key, from, to, a.asset, a.amount, ref);
      AppendSound(w.txs, TransferOutType, key, from, to, a.asset, a.amount, ref);
      var t := LedgerTx(TransferOutType, key, ref, Ledger.MoveEntries(from, to, a.asset, a.amount));
      DepositLedger.ForeignPostKeepsBacked(Watcher.Books(w.txs, w.deposits), t);
      Ledger.KeysAppend(w.txs, t);
      forall asset: nat
        ensures Balanced(w.(txs := after), asset)
      {
        assert Balanced(w, asset);
        MoveChanges(w.txs, t, from, to, a.asset, a.amount, asset);
      }
    }
  }

  lemma RefundKeeps(w: World, v: Withdrawer.Vault, i: nat)
    requires Ok(WithVault(w, Done(v))) && i < |v.requests| && Payouts.InFlight(v.requests[i].out)
    ensures Withdrawer.Refunded(v, i).Done? && Ok(WithVault(w, Withdrawer.Refunded(v, i)))
  {
    CloseKeeps(WithVault(w, Done(v)), i, v.requests[i].out.(status := Failed));
  }

  lemma SettleKeeps(w: World, v: Withdrawer.Vault, i: nat)
    requires Ok(WithVault(w, Done(v))) && i < |v.requests| && Payouts.InFlight(v.requests[i].out)
    ensures Withdrawer.Settled(v, i).Done? && Ok(WithVault(w, Withdrawer.Settled(v, i)))
  {
    CloseKeeps(WithVault(w, Done(v)), i, v.requests[i].out.(status := Confirmed));
  }

  lemma OutboxStepKeeps(w: World, v: Withdrawer.Vault, i: nat, out: Outbox, hotNonce: Option<HotWalletNonce>)
    requires Ok(WithVault(w, Done(v))) && i < |v.requests|
    requires Payouts.InFlight(v.requests[i].out) && Payouts.InFlight(out)
    ensures Ok(WithVault(w, Done(Withdrawer.WithOut(v, i, out).(hotNonce := hotNonce))))
  {
    OpenRowKeeps(WithVault(w, Done(v)), i, out, hotNonce);
  }

  /** A claimed row is refunded, left with one more attempt, or signed at the counter's nonce. */
  lemma SignRowCases(v: Withdrawer.Vault, i: nat, s: Withdrawer.Signer)
    requires v.hotNonce.Some? && i < |v.requests| && v.requests[i].asset < |s.assets|
    ensures var r := v.requests[i];
      var tried := r.out.(attempts := r.out.attempts + 1);
      var u := Withdrawer.WithOut(v, i, tried);
      var step := Withdrawer.SignRow(v, i, s);
      || step == Withdrawer.Refunded(u, i)
      || step == Done(u)
      || exists raw, counter ::
           step == Done(Withdrawer.WithOut(u, i,
             Payouts.SignedOutbox(tried, raw)).(hotNonce := Some(counter)))
  {
    var r := v.requests[i];
    var u := Withdrawer.WithOut(v, i, r.out.(attempts := r.out.attempts + 1));
    var call := Withdrawer.PayoutCall(s.assets[r.asset], r.to, r.amount);
    if call.Some? && s.answer(i).Signs? {
      var raw := RawTx(call.value, v.hotNonce.value.nextNonce, s.gasPrice);
      var counter := v.hotNonce.value.(nextNonce := v.hotNonce.value.nextNonce + 1);
      assert Withdrawer.SignRow(v, i, s) == Done(
        Withdrawer.WithOut(u, i, Payouts.SignedOutbox(u.requests[i].out, raw)).(hotNonce := Some(counter)));
    }
  }

  lemma SignRowKeeps(w: World, v: Withdrawer.Vault, i: nat, s: Withdrawer.Signer)
    requires Ok(WithVault(w, Done(v))) && v.hotNonce.Some? && i < |v.requests|
      && Withdrawer.Pending(v.requests[i])
    ensures Withdrawer.SignRow(v, i, s).Done? && Ok(WithVault(w, Withdrawer.SignRow(v, i, s)))
  {
    var r := v.requests[i];
    if r.asset < |s.assets| {
      var tried := r.out.(attempts := r.out.attempts + 1);
      var u := Withdrawer.WithOut(v, i, tried);
      OutboxStepKeeps(w, v, i, tried, v.hotNonce);
      SignRowCases(v, i, s);
      var step := Withdrawer.SignRow(v, i, s);
      if step == Withdrawer.Refunded(u, i) {
        RefundKeeps(w, u, i);
      } else if step != Done(u) {
        var raw, counter :|
          step == Done(Withdrawer.WithOut(u, i,
            Payouts.SignedOutbox(tried, raw)).(hotNonce := Some(counter)));
        OutboxStepKeeps(w, u, i, Payouts.SignedOutbox(tried, raw), Some(counter));
      }
    }
  }

  lemma SignRowFrame(v: Withdrawer.Vault, i: nat, s: Withdrawer.Signer)
    requires v.hotNonce.Some? && i < |v.requests| && Withdrawer.SignRow(v, i, s).Done?
    ensures var u := Withdrawer.SignRow(v, i, s).value;
      |u.requests| == |v.requests| && forall j :: 0 <= j < |v.requests| && j != i ==> u.requests[j] == v.requests[j]
  {
  }

  lemma {:induction false} SignRowsKeep(w: World, v: Withdrawer.Vault, ids: seq<nat>, s: Withdrawer.Signer)
    requires Ok(WithVault(w, Done(v))) && v.hotNonce.Some?
    requires forall k :: 0 <= k < |ids| ==> ids[k] < |v.requests| && Withdrawer.Pending(v.requests[ids[k]])
    requires forall j, k :: 0 <= j < k < |ids| ==> ids[j] < ids[k]
    ensures var r := Withdrawer.SignRows(v, ids, s);
      r.Done? && Ok(WithVault(w, r)) &&
      forall j: nat :: j < |v.requests| && j !in ids ==> r.value.requests[j] == v.requests[j]
    decreases |ids|
  {
    hide Withdrawer.SignRow, Ok;
    if ids == [] {
    } else {
      var front, last := ids[..|ids| - 1], ids[|ids| - 1];
      SignRowsKeep(w, v, front, s);
      assert last !in front;
      SignRowKeeps(w, Withdrawer.SignRows(v, front, s).value, last, s);
      SignRowFrame(Withdrawer.SignRows(v, front, s).value, last, s);
      assert ids == front + [last];
    }
  }

  lemma {:induction false} SendRowsKeep(w: World, ids: seq<nat>, accepts: RawTx -> bool)
    requires Ok(w)
    requires forall k :: 0 <= k < |ids| ==> ids[k] < |w.requests| && w.requests[ids[k]].out.status.Signing?
    requires forall j, k :: 0 <= j < k < |ids| ==> ids[j] != ids[k]
    ensures var b := Withdrawer.BroadcastRows(Withdrawer.Sending(w.requests, []), ids, accepts);
      Ok(w.(requests := b.requests)) &&
      forall j: nat :: j < |w.requests| && j !in ids ==> b.requests[j] == w.requests[j]
    decreases |ids|
  {
    hide Ok;
    if ids == [] {
    } else {
      var front, last := ids[..|ids| - 1], ids[|ids| - 1];
      SendRowsKeep(w, front, accepts);
      assert last !in front;
      assert ids == front + [last];
      var b := Withdrawer.BroadcastRows(Withdrawer.Sending(w.requests, []), front, accepts);
      var o := b.requests[last].out;
      if o.signedTx.Some? && accepts(o.signedTx.value) {
        OpenRowKeeps(w.(requests := b.requests), last, o.(txHash := o.signedTx, status := Broadcast), w.hotNonce);
      }
    }
  }

  lemma ConfirmRowKeeps(w: World, v: Withdrawer.Vault, i: nat, rpc: Payouts.Rpc, gate: Payouts.Gate)
    requires Ok(WithVault(w, Done(v))) && i < |v.requests|
    ensures var r := Withdrawer.ConfirmRow(v, i, rpc, gate); r.Done? && Ok(WithVault(w, r))
  {
    var (o, verdict) := Payouts.Judged(v.requests[i].out, rpc, gate);
    if v.requests[i].out.status.Broadcast? {
      OpenRowKeeps(WithVault(w, Done(v)), i, o, v.hotNonce);
      match verdict
      case Keep =>
      case Settle => SettleKeeps(w, Withdrawer.WithOut(v, i, o), i);
      case Refund => RefundKeeps(w, Withdrawer.WithOut(v, i, o), i);
    } else {
      assert v.requests[i := v.requests[i].(out := o)] == v.requests;
    }
  }

  lemma {:induction false} ConfirmRowsKeep(w: World, v: Withdrawer.Vault, n: nat, rpc: Payouts.Rpc, gate: Payouts.Gate)
    requires Ok(WithVault(w, Done(v))) && n <= |v.requests|
    ensures var r := Withdrawer.ConfirmRows(v, n, rpc, gate); r.Done? && Ok(WithVault(w, r))
    decreases n
  {
    hide Withdrawer.ConfirmRow, Ok;
    if n == 0 {
    } else {
      ConfirmRowsKeep(w, v, n - 1, rpc, gate);
      ConfirmRowKeeps(w, Withdrawer.ConfirmRows(v, n - 1, rpc, gate).value, n - 1, rpc, gate);
    }
  }

  lemma SignKeeps(w: World, s: Withdrawer.Signer)
    requires Ok(w)
    ensures Ok(Next(w, Sign(s)))
  {
    hide Withdrawer.SignRows, Ledger.Sound, DepositLedger.Backed;
    var ids := Withdrawer.Claimed(w.requests, s.locked, s.batch);
    if ids != [] {
      var v := VaultOf(w).(hotNonce := Some(Nonce.Reconciled(w.hotNonce, s.address, s.chainNonce)));
      assert forall a: nat :: Balanced(w, a) ==> Balanced(WithVault(w, Done(v)), a);
      SignRowsKeep(w, v, ids, s);
    }
  }

  lemma SendKeeps(w: World, accepts: RawTx -> bool)
    requires Ok(w)
    ensures Ok(Next(w, Send(accepts)))
  {
    hide Ok;
    var ids := Withdrawer.SigningQueue(w.requests);
    assert forall k :: 0 <= k < |ids| ==> ids[k] in ids;
    SendRowsKeep(w, ids, accepts);
  }

  lemma NextKeeps(w: World, e: Event)
    requires Ok(w)
    ensures Ok(Next(w, e))
  {
    hide Ok;
    match e
    case Scan(watch, client, cfg, nftLowest) => ScanKeeps(w, watch, client, cfg, nftLowest);
    case Withdraw(a) => WithdrawKeeps(w, a);
    case Transfer(a) => TransferKeeps(w, a);
    case Sign(s) => SignKeeps(w, s);
    case Send(accepts) => SendKeeps(w, accepts);
    case Confirm(rpc, gate) => ConfirmRowsKeep(w, VaultOf(w), |w.requests|, rpc, gate);
  }

  lemma {:induction false} RunOk(events: seq<Event>)
    ensures Ok(Run(events))
    decreases |events|
  {
    if events == [] {
    } else {
      RunOk(events[..|events| - 1]);
      NextKeeps(Run(events[..|events| - 1]), events[|events| - 1]);
    }
  }

  // ---- the theorems -------------------------------------------------------------------------

  /**
   * Conservation, in every reachable state and per asset: the wallets hold the credited deposits less
   * what is being or has been paid out, the reserved account holds exactly what is in flight, the
   * settled account exactly what is confirmed, and all accounts together hold nothing.
   */
  lemma Conservation(events: seq<Event>, asset: nat)
    ensures var w := Run(events);
      && Ledger.Total(w.txs, Ledger.AllWallets(asset))
           == CreditedTotal(w, asset) - InFlightTotal(w, asset) - ConfirmedTotal(w, asset)
      && DepositLedger.SystemTotal(w.txs, WithdrawalsReserved, asset) == InFlightTotal(w, asset)
      && DepositLedger.SystemTotal(w.txs, WithdrawalsSettled, asset) == ConfirmedTotal(w, asset)
      && DepositLedger.SystemTotal(w.txs, DepositsInTransit, asset) == -CreditedTotal(w, asset)
      && Ledger.Total(w.txs, Ledger.Everything(asset)) == 0
  {
    RunOk(events);
    assert Balanced(Run(events), asset);
    Ledger.SoundTotalsZero(Run(events).txs, asset);
  }

  /**
   * Deposit and ledger agree in every reachable state: a row's postings add up to its amount on its
   * owner's wallet exactly while it is CREDITED (and to nothing otherwise, or on any other wallet),
   * and it has a live credit posting exactly then, under its current revision.
   */
  lemma DepositsBacked(events: seq<Event>, i: nat, user: nat, asset: nat, revision: nat)
    requires i < |Run(events).deposits|
    ensures var w := Run(events);
      var d := w.deposits[i];
      && DepositLedger.Net(w.txs, i, Wallet(user, asset)) ==
           (if d.status.Credited? && d.user == Some(user) && d.asset == asset then d.amount else 0)
      && (DepositLedger.Live(w.txs, i, revision) <==> d.status.Credited? && revision == d.revision)
  {
    RunOk(events);
    var b := Watcher.Books(Run(events).txs, Run(events).deposits);
    assert DepositLedger.NetMatchesRows(b) && DepositLedger.KeysMatchRows(b);
  }

  /** A request is refunded in the ledger iff FAILED, settled iff CONFIRMED, hence never both. */
  lemma RequestsClosedOnce(events: seq<Event>, i: nat)
    requires i < |Run(events).requests|
    ensures var w := Run(events);
      && (Keys.WithdrawalReverse(i) in Ledger.KeysOf(w.txs) <==> w.requests[i].out.status.Failed?)
      && (Keys.WithdrawalSettle(i) in Ledger.KeysOf(w.txs) <==> w.requests[i].out.status.Confirmed?)
  {
    RunOk(events);
  }
}
