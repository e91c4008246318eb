/**
 * What each committed phase of the withdrawal outbox makes of each row, stated on the row, the chain and
 * the client's answers alone; and, over whole runs, whom a payout pays and how much.
 */
module WithdrawalPhases {
  import opened Wrappers
  import opened Tables
  import Custody
  import DepositLedger
  import Keys
  import Ledger
  import Nonce
  import PayoutSafety
  import Payments
  import Payouts
  import Settlement
  import Watcher
  import Withdrawer

  // ---- phase 1 ------------------------------------------------------------------------------

  /** The call hands `amount` of the asset to the address `to`. */
  predicate Pays(assets: seq<AssetKind>, asset: nat, to: string, amount: int, call: Call) {
    asset < |assets| &&
    match assets[asset]
    case Native => call.SendNative? && call.to == to && call.value == amount
    case Erc20(Some(contract)) =>
      call.SendErc20? && call.contract == contract && call.to == to && call.value == amount
    case _ => false
  }

  predicate Payable(kind: AssetKind) {
    kind.Native? || (kind.Erc20? && kind.contract.Some?)
  }

  /**
   * What signing has to make of a claimed row: FAILED exactly if the asset cannot be paid out or the client
   * refuses the values, one attempt more if the client fails otherwise, and else a durable payout to the
   * row's address.
   */
  ghost predicate SignedAs(r: Withdrawal, after: Withdrawal, s: Withdrawer.Signer, i: nat) {
    && after == r.(out := after.out)
    && if r.asset >= |s.assets| then after == r
       else if !Payable(s.assets[r.asset]) || s.answer(i).Unsignable?
       then after.out == r.out.(status := Failed, attempts := r.out.attempts + 1)
       else if s.answer(i).Faults? then after.out == r.out.(attempts := r.out.attempts + 1)
       else exists raw: RawTx :: SignedWith(r, after.out, s, raw)
  }

  predicate SignedWith(r: Withdrawal, after: Outbox, s: Withdrawer.Signer, raw: RawTx) {
    && Pays(s.assets, r.asset, r.to, r.amount, raw.call) && raw.gasPrice == s.gasPrice
    && after == r.out.(status := Signing, nonce := Some(raw.nonce), signedTx := Some(raw), txHash := Some(raw),
         attempts := r.out.attempts + 1)
  }

  lemma SignRowExactly(v: Withdrawer.Vault, i: nat, s: Withdrawer.Signer)
    requires i < |v.requests| && v.hotNonce.Some? && Withdrawer.SignRow(v, i, s).Done?
    ensures var u := Withdrawer.SignRow(v, i, s).value;
      && SignedAs(v.requests[i], u.requests[i], s, i)
      && u.requests == v.requests[i := u.requests[i]]
  {
    var r, u := v.requests[i], Withdrawer.SignRow(v, i, s).value;
    if r.asset < |s.assets| && Payable(s.assets[r.asset]) && s.answer(i).Signs? {
      assert SignedWith(r, u.requests[i].out, s, u.requests[i].out.signedTx.value);
    } else {
      assert v.requests[i := r] == v.requests;
    }
  }

  ghost predicate AllSigned(before: seq<Withdrawal>, after: seq<Withdrawal>, ids: seq<nat>, s: Withdrawer.Signer)
    requires |after| == |before|
  {
    forall i: nat :: i < |before| ==>
      if i in ids then SignedAs(before[i], after[i], s, i) else after[i] == before[i]
  }

  lemma SignedOneMore(before: seq<Withdrawal>, middle: seq<Withdrawal>, ids: seq<nat>, i: nat, r: Withdrawal,
                      s: Withdrawer.Signer)
    requires |middle| == |before| && AllSigned(before, middle, ids, s)
    requires i < |before| && i !in ids && SignedAs(before[i], r, s, i)
    ensures AllSigned(before, middle[i := r], ids + [i], s)
  {
    hide SignedAs;
  }

  lemma {:induction false} SignRowsExactly(v: Withdrawer.Vault, ids: seq<nat>, s: Withdrawer.Signer)
    requires v.hotNonce.Some? && (forall k :: 0 <= k < |ids| ==> ids[k] < |v.requests|)
    requires forall j, k :: 0 <= j < k < |ids| ==> ids[j] < ids[k]
    requires Withdrawer.SignRows(v, ids, s).Done?
    ensures AllSigned(v.requests, Withdrawer.SignRows(v, ids, s).value.requests, ids, s)
    decreases |ids|
  {
    if ids == [] {
      return;
    }
    hide Withdrawer.SignRow, SignedAs, AllSigned;
    var front, last := ids[..|ids| - 1], ids[|ids| - 1];
    SignRowsExactly(v, front, s);
    var m := Withdrawer.SignRows(v, front, s).value;
    SignRowExactly(m, last, s);
    assert last !in front && ids == front + [last];
    UntouchedRow(v.requests, m.requests, front, last, s);
    SignedOneMore(v.requests, m.requests, front, last, Withdrawer.SignRow(m, last, s).value.requests[last], s);
  }

  lemma UntouchedRow(before: seq<Withdrawal>, after: seq<Withdrawal>, ids: seq<nat>, i: nat, s: Withdrawer.Signer)
    requires |after| == |before| && AllSigned(before, after, ids, s) && i < |before| && i !in ids
    ensures after[i] == before[i]
  {
  }

  /** A row before and after a signing pass, and whether the ledger then holds its refund. */
  ghost predicate SigningMade(w: Custody.World, u: Custody.World, s: Withdrawer.Signer, i: nat) {
    && i < |w.requests| == |u.requests|
    && (if i in Payouts.Claimed(Withdrawer.Outs(w.requests), s.locked, s.batch)
        then SignedAs(w.requests[i], u.requests[i], s, i) else u.requests[i] == w.requests[i])
    && (Keys.WithdrawalReverse(i) in Ledger.KeysOf(u.txs) <==> u.requests[i].out.status.Failed?)
  }

  lemma SigningCompletes(w: Custody.World, s: Withdrawer.Signer)
    requires Custody.Ok(w)
    ensures Withdrawer.SignPending(Custody.VaultOf(w), s).Done?
  {
    hide Withdrawer.SignRows, Ledger.Sound, DepositLedger.Backed, Custody.Balanced, Payouts.Claimed;
    var ids := Withdrawer.Claimed(w.requests, s.locked, s.batch);
    if ids != [] {
      var v := Custody.VaultOf(w).(hotNonce := Some(Nonce.Reconciled(w.hotNonce, s.address, s.chainNonce)));
      BalancedAnyCounter(w, v.hotNonce);
      ClaimedInOrder(w.requests, s);
      Custody.SignRowsKeep(w, v, ids, s);
    }
  }

  lemma SignPhase(w: Custody.World, s: Withdrawer.Signer, i: nat)
    requires Custody.Ok(w) && i < |w.requests|
    ensures SigningMade(w, Custody.Next(w, Custody.Sign(s)), s, i)
  {
    hide Custody.Ok, Custody.Next, SignedAs, Payouts.Claimed;
    SignedRows(w, s);
    Custody.NextKeeps(w, Custody.Sign(s));
    ClosingKeys(Custody.Next(w, Custody.Sign(s)), i);
  }

  lemma SignedRows(w: Custody.World, s: Withdrawer.Signer)
    requires Custody.Ok(w)
    ensures var rows := Custody.Next(w, Custody.Sign(s)).requests;
      && |rows| == |w.requests|
      && AllSigned(w.requests, rows, Payouts.Claimed(Withdrawer.Outs(w.requests), s.locked, s.batch), s)
  {
    hide Custody.Ok, Withdrawer.SignRows, SignedAs, Payouts.Claimed;
    SigningCompletes(w, s);
    var ids := Withdrawer.Claimed(w.requests, s.locked, s.batch);
    if ids != [] {
      var v := Custody.VaultOf(w).(hotNonce := Some(Nonce.Reconciled(w.hotNonce, s.address, s.chainNonce)));
      ClaimedInOrder(w.requests, s);
      SignRowsExactly(v, ids, s);
    }
  }

  /** The ledger's closing postings of a request. */
  lemma ClosingKeys(w: Custody.World, i: nat)
    requires Custody.Ok(w) && i < |w.requests|
    ensures Keys.WithdrawalSettle(i) in Ledger.KeysOf(w.txs) <==> w.requests[i].out.status.Confirmed?
    ensures Keys.WithdrawalReverse(i) in Ledger.KeysOf(w.txs) <==> w.requests[i].out.status.Failed?
  {
    hide Ledger.Sound, DepositLedger.Backed, Custody.Balanced, Ledger.KeysOf;
  }

  lemma BalancedAnyCounter(w: Custody.World, hotNonce: Option<HotWalletNonce>)
    ensures forall a: nat :: Custody.Balanced(w, a) ==> Custody.Balanced(w.(hotNonce := hotNonce), a)
  {
  }

  lemma ClaimedInOrder(requests: seq<Withdrawal>, s: Withdrawer.Signer)
    ensures var ids := Withdrawer.Claimed(requests, s.locked, s.batch);
      && (forall k :: 0 <= k < |ids| ==> ids[k] < |requests| && Withdrawer.Pending(requests[ids[k]]))
      && (forall j, k :: 0 <= j < k < |ids| ==> ids[j] < ids[k])
  {
  }

  // ---- phase 2 ------------------------------------------------------------------------------

  /** What broadcasting has to make of a row. */
  predicate SentAs(r: Withdrawal, after: Withdrawal, accepts: RawTx -> bool) {
    after ==
      if r.out.status.Signing? && r.out.signedTx.Some? && accepts(r.out.signedTx.value)
      then r.(out := r.out.(txHash := r.out.signedTx, status := Broadcast)) else r
  }

  /** The rows `ids` with their signed transactions. */
  function Handed(requests: seq<Withdrawal>, ids: seq<nat>): seq<(nat, RawTx)>
    requires forall k :: 0 <= k < |ids| ==> ids[k] < |requests| && requests[ids[k]].out.signedTx.Some?
  {
    seq(|ids|, k requires 0 <= k < |ids| => (ids[k], requests[ids[k]].out.signedTx.value))
  }

  lemma BroadcastRowExactly(b: Withdrawer.Sending, i: nat, accepts: RawTx -> bool)
    requires i < |b.requests| && b.requests[i].out.status.Signing? && b.requests[i].out.signedTx.Some?
    ensures var c := Withdrawer.BroadcastRow(b, i, accepts);
      && c.sent == b.sent + [(i, b.requests[i].out.signedTx.value)]
      && c.requests == b.requests[i := c.requests[i]] && SentAs(b.requests[i], c.requests[i], accepts)
  {
    assert b.requests[i := b.requests[i]] == b.requests;
  }

  predicate AllSent(before: seq<Withdrawal>, after: seq<Withdrawal>, ids: seq<nat>, accepts: RawTx -> bool)
    requires |after| == |before|
  {
    forall i: nat :: i < |before| ==>
      if i in ids then SentAs(before[i], after[i], accepts) else after[i] == before[i]
  }

  lemma SentOneMore(before: seq<Withdrawal>, middle: seq<Withdrawal>, ids: seq<nat>, i: nat, r: Withdrawal,
                    accepts: RawTx -> bool)
    requires |middle| == |before| && AllSent(before, middle, ids, accepts)
    requires i < |before| && i !in ids
    ensures middle[i] == before[i]
    ensures SentAs(before[i], r, accepts) ==> AllSent(before, middle[i := r], ids + [i], accepts)
  {
    hide SentAs;
  }

  lemma HandedOneMore(requests: seq<Withdrawal>, ids: seq<nat>, i: nat)
    requires forall k :: 0 <= k < |ids| ==> ids[k] < |requests| && requests[ids[k]].out.signedTx.Some?
    requires i < |requests| && requests[i].out.signedTx.Some?
    ensures Handed(requests, ids + [i]) == Handed(requests, ids) + [(i, requests[i].out.signedTx.value)]
  {
  }

  predicate Queued(requests: seq<Withdrawal>, ids: seq<nat>) {
    && (forall k :: 0 <= k < |ids| ==>
          ids[k] < |requests| && requests[ids[k]].out.status.Signing? && requests[ids[k]].out.signedTx.Some?)
    && (forall j, k :: 0 <= j < k < |ids| ==> ids[j] != ids[k])
  }

  lemma QueuedFront(requests: seq<Withdrawal>, ids: seq<nat>)
    requires Queued(requests, ids) && ids != []
    ensures var front, last := ids[..|ids| - 1], ids[|ids| - 1];
      && Queued(requests, front) && last !in front && ids == front + [last]
      && last < |requests| && requests[last].out.status.Signing? && requests[last].out.signedTx.Some?
  {
  }

  lemma {:induction false} BroadcastRowsExactly(b: Withdrawer.Sending, ids: seq<nat>, accepts: RawTx -> bool)
    requires Queued(b.requests, ids)
    ensures var c := Withdrawer.BroadcastRows(b, ids, accepts);
      c.sent == b.sent + Handed(b.requests, ids) && AllSent(b.requests, c.requests, ids, accepts)
    decreases |ids|
  {
    if ids == [] {
      return;
    }
    var front, last := ids[..|ids| - 1], ids[|ids| - 1];
    QueuedFront(b.requests, ids);
    BroadcastRowsExactly(b, front, accepts);
    HandedOneMore(b.requests, front, last);
    hide Withdrawer.BroadcastRow, SentAs, AllSent, Handed, Queued;
    var m := Withdrawer.BroadcastRows(b, front, accepts);
    SentOneMore(b.requests, m.requests, front, last, Withdrawer.BroadcastRow(m, last, accepts).requests[last], accepts);
    BroadcastRowExactly(m, last, accepts);
  }

  /** The send log and a row before and after a broadcast pass. */
  ghost predicate SendingMade(w: PayoutSafety.World, u: PayoutSafety.World, accepts: RawTx -> bool, i: nat) {
    var before, after := w.vault.requests, u.vault.requests;
    var ids := Payouts.SigningQueue(Withdrawer.Outs(before), |before|);
    && i < |before| == |after| && SentAs(before[i], after[i], accepts)
    && (forall k :: 0 <= k < |ids| ==> before[ids[k]].out.signedTx.Some?)
    && u.sent == w.sent + Handed(before, ids)
  }

  lemma SendPhase(w: PayoutSafety.World, s: PayoutSafety.Setup, accepts: RawTx -> bool, i: nat)
    requires PayoutSafety.Ok(w, s) && i < |w.vault.requests|
    ensures SendingMade(w, PayoutSafety.Next(w, s, PayoutSafety.Send(accepts)), accepts, i)
  {
    hide PayoutSafety.Sealed, PayoutSafety.FilledBy, PayoutSafety.WellFormed;
    var requests := w.vault.requests;
    var ids := Payouts.SigningQueue(Withdrawer.Outs(requests), |requests|);
    forall k | 0 <= k < |ids|
      ensures requests[ids[k]].out.status.Signing? && requests[ids[k]].out.signedTx.Some?
    {
      assert ids[k] in ids;
      assert PayoutSafety.RowOk(requests[ids[k]].out, w.chain, w.final, w.vault.hotNonce);
    }
    assert Queued(requests, ids);
    BroadcastRowsExactly(Withdrawer.Sending(requests, w.sent), ids, accepts);
    assert requests[i].out.status.Signing? <==> i in ids by {
      assert Withdrawer.Outs(requests)[i] == requests[i].out;
    }
  }

  // ---- phase 3 ------------------------------------------------------------------------------

  lemma ConfirmedRow(v: Withdrawer.Vault, i: nat, rpc: Payouts.Rpc, gate: Payouts.Gate)
    requires i < |v.requests| && Withdrawer.ConfirmRow(v, i, rpc, gate).Done?
    ensures Withdrawer.ConfirmRow(v, i, rpc, gate).value.requests ==
      v.requests[i := v.requests[i].(out := Payouts.Concluded(v.requests[i].out, rpc, gate))]
  {
    hide Payouts.Judged, Ledger.LegsError;
  }

  lemma {:induction false} ConfirmedRows(v: Withdrawer.Vault, n: nat, rpc: Payouts.Rpc, gate: Payouts.Gate)
    requires n <= |v.requests| && Withdrawer.ConfirmRows(v, n, rpc, gate).Done?
    ensures var rows := Withdrawer.ConfirmRows(v, n, rpc, gate).value.requests;
      forall i :: 0 <= i < |v.requests| ==>
        rows[i] == v.requests[i].(out := if i < n then Payouts.Concluded(v.requests[i].out, rpc, gate)
                                         else v.requests[i].out)
    decreases n
  {
    if n == 0 {
    } else {
      hide Withdrawer.ConfirmRow, Payouts.Concluded;
      ConfirmedRows(v, n - 1, rpc, gate);
      ConfirmedRow(Withdrawer.ConfirmRows(v, n - 1, rpc, gate).value, n - 1, rpc, gate);
    }
  }

  /** A row before and after a confirm pass, and what the ledger then holds. */
  ghost predicate ConfirmedAs(w: Custody.World, u: Custody.World, rpc: Payouts.Rpc, gate: Payouts.Gate, i: nat) {
    && i < |w.requests| == |u.requests|
    && (var r, after := w.requests[i], u.requests[i];
        && after == r.(out := after.out)
        && (if r.out.status.Broadcast? && r.out.txHash.Some? then Payouts.Concludes(r.out, after.out, rpc, gate)
            else after == r)
        && (Keys.WithdrawalSettle(i) in Ledger.KeysOf(u.txs) <==> after.out.status.Confirmed?)
        && (Keys.WithdrawalReverse(i) in Ledger.KeysOf(u.txs) <==> after.out.status.Failed?))
  }

  lemma ConfirmPhase(w: Custody.World, rpc: Payouts.Rpc, gate: Payouts.Gate, i: nat)
    requires Custody.Ok(w) && i < |w.requests|
    ensures ConfirmedAs(w, Custody.Next(w, Custody.Confirm(rpc, gate)), rpc, gate, i)
  {
    hide Custody.Ok, Withdrawer.ConfirmRows, Payouts.Concludes, Payouts.Concluded;
    var v := Custody.VaultOf(w);
    Custody.ConfirmRowsKeep(w, v, |w.requests|, rpc, gate);
    ConfirmedRows(v, |w.requests|, rpc, gate);
    Payouts.ConcludedExactly(w.requests[i].out, rpc, gate);
    ClosingKeys(Custody.Next(w, Custody.Confirm(rpc, gate)), i);
  }

  // ---- the phases in every run of the engine ------------------------------------------------

  /** In every reachable state, what a signing pass makes of every row. */
  lemma SignDecides(s: PayoutSafety.Setup, events: seq<Settlement.Event>, signer: Withdrawer.Signer, i: nat)
    requires Settlement.AllowedRun(s, events) && i < |Settlement.Run(s, events).custody.requests|
    ensures var w := Settlement.Run(s, events);
      SigningMade(w.custody, Settlement.Next(w, s, Settlement.Pay(PayoutSafety.Sign(signer))).custody, signer, i)
  {
    hide SigningMade, Settlement.Run, Settlement.Next;
    Settlement.RunOk(s, events);
    Settlement.PhaseIsCustodyEvent(Settlement.Run(s, events), s, PayoutSafety.Sign(signer));
    SignPhase(Settlement.Run(s, events).custody, signer, i);
  }

  /** In every reachable state, what a broadcast pass hands over, in which order, and what becomes of every row. */
  lemma SendDecides(s: PayoutSafety.Setup, events: seq<Settlement.Event>, accepts: RawTx -> bool, i: nat)
    requires Settlement.AllowedRun(s, events) && i < |Settlement.Run(s, events).custody.requests|
    ensures var w := Settlement.Run(s, events);
      SendingMade(Settlement.Side(w), Settlement.Side(Settlement.Next(w, s,
        Settlement.Pay(PayoutSafety.Send(accepts)))), accepts, i)
  {
    hide SendingMade, Settlement.Run, PayoutSafety.Next;
    Settlement.RunOk(s, events);
    SendPhase(Settlement.Side(Settlement.Run(s, events)), s, accepts, i);
  }

  /**
   * In every reachable state, what a confirm pass makes of every row: a BROADCAST row always has a
   * transaction to ask about, is settled or refunded exactly when the chain says so, and stays open
   * otherwise.
   */
  lemma ConfirmDecides(s: PayoutSafety.Setup, events: seq<Settlement.Event>, rpc: Payouts.Rpc, i: nat)
    requires Settlement.AllowedRun(s, events) && i < |Settlement.Run(s, events).custody.requests|
    ensures var w := Settlement.Run(s, events);
      && (w.custody.requests[i].out.status.Broadcast? ==> w.custody.requests[i].out.txHash.Some?)
      && ConfirmedAs(w.custody, Settlement.Next(w, s, Settlement.Pay(PayoutSafety.Confirm(rpc))).custody, rpc,
           PayoutSafety.Gate(s), i)
  {
    hide ConfirmedAs, Settlement.Run, Settlement.Next;
    var w := Settlement.Run(s, events);
    Settlement.RunOk(s, events);
    Settlement.PhaseIsCustodyEvent(w, s, PayoutSafety.Confirm(rpc));
    ConfirmPhase(w.custody, rpc, PayoutSafety.Gate(s), i);
    assert PayoutSafety.RowOk(Settlement.Side(w).vault.requests[i].out, w.chain, w.final, w.custody.hotNonce);
  }

  /** The send log only grows. */
  lemma {:induction false} SentWhatever(requests: seq<Withdrawal>, sent: seq<(nat, RawTx)>, ids: seq<nat>,
                                        accepts: RawTx -> bool)
    requires forall k :: 0 <= k < |ids| ==> ids[k] < |requests|
    ensures Withdrawer.BroadcastRows(Withdrawer.Sending(requests, sent), ids, accepts).sent
      == sent + Withdrawer.BroadcastRows(Withdrawer.Sending(requests, []), ids, accepts).sent
    decreases |ids|
  {
    if ids == [] {
    } else {
      SentWhatever(requests, sent, ids[..|ids| - 1], accepts);
      Settlement.RowsWhateverSent(requests, sent, ids[..|ids| - 1], accepts);
    }
  }

  /** One turn of the withdrawer's loop is the three phases, one after the other; none of them ever aborts. */
  lemma TickIsThreePhases(w: Settlement.World, s: PayoutSafety.Setup, signer: Withdrawer.Signer,
                          accepts: RawTx -> bool, rpc: Payouts.Rpc)
    requires Custody.Ok(w.custody)
    ensures var (v, sent) :=
        Withdrawer.Tick(Custody.VaultOf(w.custody), signer, accepts, rpc, PayoutSafety.Gate(s));
      var signed := Settlement.Next(w, s, Settlement.Pay(PayoutSafety.Sign(signer)));
      var handed := Settlement.Next(signed, s, Settlement.Pay(PayoutSafety.Send(accepts)));
      var u := Settlement.Next(handed, s, Settlement.Pay(PayoutSafety.Confirm(rpc)));
      Custody.VaultOf(u.custody) == v && u.sent == w.sent + sent
  {
    hide Custody.Ok, Withdrawer.SignPending, Withdrawer.BroadcastRows, Withdrawer.ConfirmRows, Withdrawer.SigningQueue;
    var signed := Settlement.Next(w, s, Settlement.Pay(PayoutSafety.Sign(signer)));
    var handed := Settlement.Next(signed, s, Settlement.Pay(PayoutSafety.Send(accepts)));
    SigningCompletes(w.custody, signer);
    Settlement.PhaseIsCustodyEvent(w, s, PayoutSafety.Sign(signer));
    Custody.NextKeeps(w.custody, Custody.Sign(signer));
    var ids := Withdrawer.SigningQueue(signed.custody.requests);
    Settlement.QueueInRange(signed.custody.requests);
    Settlement.RowsWhateverSent(signed.custody.requests, w.sent, ids, accepts);
    SentWhatever(signed.custody.requests, w.sent, ids, accepts);
    Settlement.PhaseIsCustodyEvent(signed, s, PayoutSafety.Send(accepts));
    Custody.NextKeeps(signed.custody, Custody.Send(accepts));
    Custody.ConfirmRowsKeep(handed.custody, Custody.VaultOf(handed.custody), |handed.custody.requests|, rpc,
      PayoutSafety.Gate(s));
  }

  // ---- whom a payout pays, and how much -----------------------------------------------------

  /** Request `i` is what the call `a` asked for, and the ledger holds its reservation. */
  ghost predicate ReservedBy(events: seq<Settlement.Event>, w: Custody.World, i: nat, a: Payments.WithdrawArgs) {
    && i < |w.requests| && Settlement.Book(Custody.Withdraw(a)) in events
    && (var r := w.requests[i]; r.user == a.user && r.asset == a.asset && r.to == a.to && r.amount == a.amount)
    && LedgerTx(WithdrawalType, Keys.WithdrawKey(a.user, a.client), WithdrawalRef(i),
         [Entry(Wallet(a.user, a.asset), a.asset, -a.amount),
          Entry(System(WithdrawalsReserved, a.asset), a.asset, a.amount)]) in w.txs
  }

  /** Some signing pass of the run, going by its assets, made `raw` pay what the row says. */
  ghost predicate PaysRow(events: seq<Settlement.Event>, r: Withdrawal, raw: RawTx) {
    exists signer :: Settlement.Pay(PayoutSafety.Sign(signer)) in events &&
      Pays(signer.assets, r.asset, r.to, r.amount, raw.call)
  }

  ghost predicate RowTraced(events: seq<Settlement.Event>, w: Custody.World, i: nat)
    requires i < |w.requests|
  {
    && (exists a :: ReservedBy(events, w, i, a))
    && (w.requests[i].out.signedTx.Some? ==> PaysRow(events, w.requests[i], w.requests[i].out.signedTx.value))
  }

  ghost predicate Traced(events: seq<Settlement.Event>, w: Custody.World) {
    forall i: nat :: i < |w.requests| ==> RowTraced(events, w, i)
  }

  /** One event: postings and the terms of requests stay; what is new or newly signed is accounted for. */
  ghost predicate Carries(w: Custody.World, u: Custody.World, e: Settlement.Event) {
    && w.txs <= u.txs && |w.requests| <= |u.requests|
    && (forall i: nat :: i < |w.requests| ==> RowCarried(w.requests[i], u.requests[i], e))
    && (forall i: nat :: |w.requests| <= i < |u.requests| ==>
          u.requests[i].out.signedTx.None? && exists a :: ReservedBy([e], u, i, a))
  }

  ghost predicate RowCarried(r: Withdrawal, after: Withdrawal, e: Settlement.Event) {
    && after == r.(out := after.out)
    && (after.out.signedTx == r.out.signedTx || (after.out.signedTx.Some? && PaysRow([e], r, after.out.signedTx.value)))
  }

  lemma TracedStep(events: seq<Settlement.Event>, w: Custody.World, u: Custody.World, e: Settlement.Event)
    requires Traced(events, w) && Carries(w, u, e)
    ensures Traced(events + [e], u)
  {
    hide Pays;
    forall i: nat | i < |u.requests|
      ensures RowTraced(events + [e], u, i)
    {
      if i < |w.requests| {
        assert RowTraced(events, w, i) && RowCarried(w.requests[i], u.requests[i], e);
        var a :| ReservedBy(events, w, i, a);
        assert ReservedBy(events + [e], u, i, a);
      } else {
        var a :| ReservedBy([e], u, i, a);
        assert ReservedBy(events + [e], u, i, a);
      }
    }
  }

  // Postings are never taken back.

  lemma {:induction false} SignRowsGrow(v: Withdrawer.Vault, ids: seq<nat>, s: Withdrawer.Signer)
    requires v.hotNonce.Some? && (forall k :: 0 <= k < |ids| ==> ids[k] < |v.requests|)
    requires Withdrawer.SignRows(v, ids, s).Done?
    ensures v.txs <= Withdrawer.SignRows(v, ids, s).value.txs
    decreases |ids|
  {
    if ids == [] {
    } else {
      SignRowsGrow(v, ids[..|ids| - 1], s);
    }
  }

  lemma ConfirmRowGrows(v: Withdrawer.Vault, i: nat, rpc: Payouts.Rpc, gate: Payouts.Gate)
    requires i < |v.requests| && Withdrawer.ConfirmRow(v, i, rpc, gate).Done?
    ensures v.txs <= Withdrawer.ConfirmRow(v, i, rpc, gate).value.txs
  {
    hide Payouts.Judged, Ledger.LegsError;
  }

  lemma {:induction false} ConfirmRowsGrow(v: Withdrawer.Vault, n: nat, rpc: Payouts.Rpc, gate: Payouts.Gate)
    requires n <= |v.requests| && Withdrawer.ConfirmRows(v, n, rpc, gate).Done?
    ensures v.txs <= Withdrawer.ConfirmRows(v, n, rpc, gate).value.txs
    decreases n
  {
    if n == 0 {
    } else {
      hide Withdrawer.ConfirmRow;
      ConfirmRowsGrow(v, n - 1, rpc, gate);
      ConfirmRowGrows(Withdrawer.ConfirmRows(v, n - 1, rpc, gate).value, n - 1, rpc, gate);
    }
  }

  lemma {:induction false} CreditRowsGrow(b: Watcher.Books, n: nat, client: Watcher.Client)
    requires n <= |b.deposits| && Watcher.CreditRows(b, n, client).Done?
    ensures b.txs <= Watcher.CreditRows(b, n, client).value.txs
    decreases n
  {
    if n == 0 {
    } else {
      CreditRowsGrow(b, n - 1, client);
    }
  }

  lemma {:induction false} ReorgRowsGrow(b: Watcher.Books, n: nat, client: Watcher.Client, floor: int)
    requires n <= |b.deposits| && Watcher.ReorgRows(b, n, client, floor).Done?
    ensures b.txs <= Watcher.ReorgRows(b, n, client, floor).value.txs
    decreases n
  {
    if n == 0 {
    } else {
      ReorgRowsGrow(b, n - 1, client, floor);
    }
  }

  lemma PassGrows(s: Watcher.State, watch: Watcher.Watch, client: Watcher.Client, cfg: Watcher.Config,
                  nftLowest: Option<int>)
    requires Watcher.Pass(s, watch, client, cfg, nftLowest).Done?
    ensures s.books.txs <= Watcher.Pass(s, watch, client, cfg, nftLowest).value.books.txs
  {
    hide Watcher.CreditRows, Watcher.ReorgRows, Watcher.InsertedAll, Watcher.PromotedAll;
    var due := Watcher.Due(s, watch, client, cfg);
    CreditRowsGrow(due, |due.deposits|, client);
    var credited := Watcher.CreditRows(due, |due.deposits|, client).value;
    ReorgRowsGrow(credited, |credited.deposits|, client, client.head - Watcher.Window(cfg));
  }

  lemma BookCarries(w: Custody.World, b: Custody.Event)
    requires b.Scan? || b.Withdraw? || b.Transfer?
    ensures Carries(w, Custody.Next(w, b), Settlement.Book(b))
  {
    hide Ledger.LegsError, PaysRow;
    match b
    case Scan(watch, client, cfg, nftLowest) =>
      hide Watcher.Pass;
      var s := Watcher.State(Watcher.Books(w.txs, w.deposits), w.cursor);
      if Watcher.Pass(s, watch, client, cfg, nftLowest).Done? {
        PassGrows(s, watch, client, cfg, nftLowest);
      }
    case Transfer(_) =>
    case Withdraw(a) =>
      if Payments.Withdraw(Payments.Desk(w.txs, w.requests), a).1.Reserved? {
        Ledger.MovePosts(w.txs, WithdrawalType, Keys.WithdrawKey(a.user, a.client), Wallet(a.user, a.asset),
          System(WithdrawalsReserved, a.asset), a.asset, a.amount, WithdrawalRef(|w.requests|));
        var u := Custody.Next(w, b);
        assert u.txs[|w.txs|] == Custody.ReserveTx(a, |w.requests|);
        assert ReservedBy([Settlement.Book(b)], u, |w.requests|, a);
      }
  }

  lemma SignCarries(w: Custody.World, s: Withdrawer.Signer)
    requires Custody.Ok(w)
    ensures Carries(w, Custody.Next(w, Custody.Sign(s)), Settlement.Pay(PayoutSafety.Sign(s)))
  {
    hide Custody.Ok, Withdrawer.SignRows, Pays, Payouts.Claimed;
    var u, e := Custody.Next(w, Custody.Sign(s)), Settlement.Pay(PayoutSafety.Sign(s));
    SignGrows(w, s);
    if w.requests != [] {
      SignPhase(w, s, 0);
    } else {
      SignOfNothing(w, s);
    }
    forall i: nat | i < |w.requests|
      ensures RowCarried(w.requests[i], u.requests[i], e)
    {
      SignPhase(w, s, i);
      if u.requests[i].out.signedTx != w.requests[i].out.signedTx {
        assert e in [e];
      }
    }
  }

  lemma SignOfNothing(w: Custody.World, s: Withdrawer.Signer)
    requires w.requests == []
    ensures Custody.Next(w, Custody.Sign(s)) == w
  {
  }

  lemma SignGrows(w: Custody.World, s: Withdrawer.Signer)
    ensures w.txs <= Custody.Next(w, Custody.Sign(s)).txs
  {
    hide Withdrawer.SignRows;
    var ids := Withdrawer.Claimed(w.requests, s.locked, s.batch);
    if ids != [] {
      var v := Custody.VaultOf(w).(hotNonce := Some(Nonce.Reconciled(w.hotNonce, s.address, s.chainNonce)));
      ClaimedInOrder(w.requests, s);
      if Withdrawer.SignRows(v, ids, s).Done? {
        SignRowsGrow(v, ids, s);
      }
    }
  }

  lemma ConfirmCarries(w: Custody.World, rpc: Payouts.Rpc, gate: Payouts.Gate, e: Settlement.Event)
    requires Custody.Ok(w)
    ensures Carries(w, Custody.Next(w, Custody.Confirm(rpc, gate)), e)
  {
    hide Custody.Ok, Withdrawer.ConfirmRows;
    Custody.ConfirmRowsKeep(w, Custody.VaultOf(w), |w.requests|, rpc, gate);
    ConfirmRowsGrow(Custody.VaultOf(w), |w.requests|, rpc, gate);
    forall i: nat | i < |w.requests|
      ensures RowCarried(w.requests[i], Custody.Next(w, Custody.Confirm(rpc, gate)).requests[i], e)
    {
      ConfirmPhase(w, rpc, gate, i);
    }
  }

  lemma SendCarries(w: Settlement.World, s: PayoutSafety.Setup, accepts: RawTx -> bool, e: Settlement.Event)
    requires Settlement.Ok(w, s)
    ensures Carries(w.custody, Settlement.Next(w, s, Settlement.Pay(PayoutSafety.Send(accepts))).custody, e)
  {
    hide Settlement.Ok, Withdrawer.BroadcastRows, Payouts.SigningQueue, Handed;
    var u := Settlement.Next(w, s, Settlement.Pay(PayoutSafety.Send(accepts)));
    SideOk(w, s);
    forall i: nat | i < |w.custody.requests|
      ensures RowCarried(w.custody.requests[i], u.custody.requests[i], e)
    {
      SendPhase(Settlement.Side(w), s, accepts, i);
    }
  }

  lemma SideOk(w: Settlement.World, s: PayoutSafety.Setup)
    requires Settlement.Ok(w, s)
    ensures PayoutSafety.Ok(Settlement.Side(w), s) && Custody.Ok(w.custody)
  {
  }

  lemma NextCarries(w: Settlement.World, s: PayoutSafety.Setup, e: Settlement.Event)
    requires Settlement.Ok(w, s)
    ensures Carries(w.custody, Settlement.Next(w, s, e).custody, e)
  {
    hide Custody.Next, Custody.Ok, PayoutSafety.Ok, Carries;
    Unchanged(w.custody, w.custody.hotNonce, e);
    match e
    case Book(b) =>
      if b.Scan? || b.Withdraw? || b.Transfer? {
        BookCarries(w.custody, b);
      }
    case Pay(p) =>
      Settlement.PhaseIsCustodyEvent(w, s, p);
      match p
      case Sign(signer) => SignCarries(w.custody, signer);
      case Send(accepts) => SendCarries(w, s, accepts, e);
      case Confirm(rpc) => ConfirmCarries(w.custody, rpc, PayoutSafety.Gate(s), e);
      case Elsewhere(_, next) => Unchanged(w.custody, Some(HotWalletNonce(s.address, next)), e);
      case _ =>
  }

  lemma Unchanged(w: Custody.World, hotNonce: Option<HotWalletNonce>, e: Settlement.Event)
    ensures Carries(w, w.(hotNonce := hotNonce), e)
  {
  }

  lemma {:induction false} RunTraced(s: PayoutSafety.Setup, events: seq<Settlement.Event>)
    requires Settlement.AllowedRun(s, events)
    ensures Traced(events, Settlement.Run(s, events).custody)
    decreases |events|
  {
    if events == [] {
      return;
    }
    hide Traced, Carries, Settlement.Next, Settlement.Ok;
    var front, e := events[..|events| - 1], events[|events| - 1];
    var w := Settlement.Run(s, front);
    RunTraced(s, front);
    Settlement.RunOk(s, front);
    NextCarries(w, s, e);
    TracedStep(front, w.custody, Settlement.Next(w, s, e).custody, e);
    assert events == front + [e];
  }

  /**
   * The row and its reservation are what an accepted call asked for; everything ever handed to the network for
   * it pays that amount of that asset to that address; and if the ledger settled it, such a payout is mined
   * and succeeded.
   */
  ghost predicate PaidAsAsked(events: seq<Settlement.Event>, w: Settlement.World, i: nat) {
    && i < |w.custody.requests|
    && (exists a :: ReservedBy(events, w.custody, i, a))
    && (var r := w.custody.requests[i];
        && (forall k :: 0 <= k < |w.sent| && w.sent[k].0 == i ==> PaysRow(events, r, w.sent[k].1))
        && (Keys.WithdrawalSettle(i) in Ledger.KeysOf(w.custody.txs) ==>
              r.out.signedTx.Some? && PayoutSafety.PaidOn(w.chain, r.out.signedTx.value)
              && PaysRow(events, r, r.out.signedTx.value)))
  }

  /** From the customer's call to the chain, for every request of every reachable state. */
  lemma SettledAsRequested(s: PayoutSafety.Setup, events: seq<Settlement.Event>, i: nat)
    requires Settlement.AllowedRun(s, events) && i < |Settlement.Run(s, events).custody.requests|
    ensures PaidAsAsked(events, Settlement.Run(s, events), i)
  {
    hide Settlement.Run, Settlement.AllowedRun, ReservedBy, PaysRow, PayoutSafety.PaidOn;
    var w := Settlement.Run(s, events);
    RunTraced(s, events);
    assert RowTraced(events, w.custody, i);
    Settlement.RunOk(s, events);
    SideOk(w, s);
    assert PayoutSafety.SentOk(w.sent, w.custody.requests);
    Settlement.LedgerMatchesChain(s, events, i);
  }
}
