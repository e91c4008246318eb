/**
 * The fungible withdrawal outbox in three separately committed phases: sign (durable), broadcast,
 * confirm. A reservation made by `create_withdrawal` is settled or refunded exactly once.
 */
module Withdrawer {
  import opened Wrappers
  import opened Tables
  import Keys
  import Ledger
  import Nonce
  import Payouts

  /** The tables a withdrawal moves through. */
  datatype Vault = Vault(txs: seq<LedgerTx>, requests: seq<Withdrawal>, hotNonce: Option<HotWalletNonce>)

  function Status(v: Vault, i: nat, status: OutboxStatus): Vault
    requires i < |v.requests|
  {
    v.(requests := v.requests[i := v.requests[i].(out := v.requests[i].out.(status := status))])
  }

  function WithOut(v: Vault, i: nat, o: Outbox): Vault
    requires i < |v.requests|
  {
    v.(requests := v.requests[i := v.requests[i].(out := o)])
  }

  // ---- ledger effects -----------------------------------------------------------------------

  function RefundOutcome(txs: seq<LedgerTx>, i: nat, r: Withdrawal): Ledger.Posting {
    Ledger.Outcome(txs, ReversalType, Keys.WithdrawalReverse(i),
      Ledger.Move(System(WithdrawalsReserved, r.asset), Wallet(r.user, r.asset), r.asset, r.amount),
      WithdrawalRef(i))
  }

  function SettleOutcome(txs: seq<LedgerTx>, i: nat, r: Withdrawal): Ledger.Posting {
    Ledger.Outcome(txs, WithdrawalType, Keys.WithdrawalSettle(i),
      Ledger.Move(System(WithdrawalsReserved, r.asset), System(WithdrawalsSettled, r.asset), r.asset, r.amount),
      WithdrawalRef(i))
  }

  function Refunded(v: Vault, i: nat): Ledger.Step<Vault>
    requires i < |v.requests|
  {
    var p := RefundOutcome(v.txs, i, v.requests[i]);
    if p.Refused? then Aborted(p.error)
    else Done(Status(v.(txs := Ledger.After(v.txs, p)), i, Failed))
  }

  function Settled(v: Vault, i: nat): Ledger.Step<Vault>
    requires i < |v.requests|
  {
    var p := SettleOutcome(v.txs, i, v.requests[i]);
    if p.Refused? then Aborted(p.error)
    else Done(Status(v.(txs := Ledger.After(v.txs, p)), i, Confirmed))
  }

  // ---- phase 1: sign ------------------------------------------------------------------------

  /** How the client answers a signing call: it signs, raises ValueError, or raises anything else. */
  datatype Answer = Signs | Unsignable | Faults

  /** The oracles of one signing pass. `locked` are the rows other workers hold (SKIP LOCKED). */
  datatype Signer = Signer(
    assets: seq<AssetKind>, address: string, chainNonce: nat, gasPrice: nat,
    answer: nat -> Answer, locked: set<nat>, batch: nat)

  predicate Pending(r: Withdrawal) {
    Payouts.Pending(r.out)
  }

  function Outs(requests: seq<Withdrawal>): seq<Outbox> {
    seq(|requests|, i requires 0 <= i < |requests| => requests[i].out)
  }

  /** The oldest pending rows nobody holds, at most `batch` of them. */
  function Claimed(requests: seq<Withdrawal>, locked: set<nat>, batch: nat): seq<nat> {
    Payouts.Claimed(Outs(requests), locked, batch)
  }

  function PayoutCall(asset: AssetKind, to: string, amount: nat): Option<Call> {
    match asset
    case Native => Some(SendNative(to, amount))
    case Erc20(contract) => if contract.Some? then Some(SendErc20(contract.value, to, amount)) else None
    case Erc721 => None
  }

  /** One claimed row at the counter's next nonce; only a successful signature consumes it. */
  function SignRow(v: Vault, i: nat, s: Signer): (r: Ledger.Step<Vault>)
    requires i < |v.requests| && v.hotNonce.Some?
    ensures r.Done? ==> r.value.hotNonce.Some? && |r.value.requests| == |v.requests|
  {
    var r := v.requests[i];
    if r.asset >= |s.assets| then Done(v) else
      var tried := WithOut(v, i, r.out.(attempts := r.out.attempts + 1));
      var call := PayoutCall(s.assets[r.asset], r.to, r.amount);
      if call.None? || s.answer(i).Unsignable? then Refunded(tried, i)
      else if s.answer(i).Faults? then Done(tried)
      else
        var nonce := v.hotNonce.value.nextNonce;
        var raw := RawTx(call.value, nonce, s.gasPrice);
        Done(WithOut(tried, i, Payouts.SignedOutbox(tried.requests[i].out, raw))
             .(hotNonce := Some(v.hotNonce.value.(nextNonce := nonce + 1))))
  }

  function SignRows(v: Vault, ids: seq<nat>, s: Signer): (r: Ledger.Step<Vault>)
    requires v.hotNonce.Some? && forall k :: 0 <= k < |ids| ==> ids[k] < |v.requests|
    ensures r.Done? ==> r.value.hotNonce.Some? && |r.value.requests| == |v.requests|
  {
    if ids == [] then Done(v)
    else match SignRows(v, ids[..|ids| - 1], s)
      case Aborted(e) => Aborted(e)
      case Done(u) => SignRow(u, ids[|ids| - 1], s)
  }

  function SignPending(v: Vault, s: Signer): Ledger.Step<Vault> {
    var ids := Claimed(v.requests, s.locked, s.batch);
    if ids == [] then Done(v)
    else SignRows(v.(hotNonce := Some(Nonce.Reconciled(v.hotNonce, s.address, s.chainNonce))), ids, s)
  }

  /** Signing one pending row: it takes the counter's nonce and advances it, or takes none. */
  lemma SignRowEffect(v: Vault, i: nat, s: Signer)
    requires v.hotNonce.Some? && i < |v.requests| && Pending(v.requests[i]) && SignRow(v, i, s).Done?
    ensures var u := SignRow(v, i, s).value;
      var next := v.hotNonce.value.nextNonce;
      && |u.requests| == |v.requests| && u.requests == v.requests[i := u.requests[i]]
      && (u.requests[i].out.status.Signing? ==> u.requests[i].out.nonce == Some(next))
      && u.hotNonce == Some(v.hotNonce.value.(
           nextNonce := if u.requests[i].out.status.Signing? then next + 1 else next))
  {
  }

  ghost predicate Allocated(v: Vault, ids: seq<nat>, base: nat) {
    && v.hotNonce.Some?
    && (forall k :: 0 <= k < |ids| ==> ids[k] < |v.requests|)
    && Payouts.Allocated(Outs(v.requests), ids, base, v.hotNonce.value.nextNonce)
  }

  lemma SignRowAllocates(v: Vault, ids: seq<nat>, i: nat, s: Signer, base: nat)
    requires Allocated(v, ids, base) && i < |v.requests| && i !in ids && Pending(v.requests[i])
      && SignRow(v, i, s).Done?
    ensures Allocated(SignRow(v, i, s).value, ids + [i], base)
  {
    SignRowEffect(v, i, s);
    var u := SignRow(v, i, s).value;
    var o := u.requests[i].out;
    Payouts.AllocateOne(Outs(v.requests), ids, base, v.hotNonce.value.nextNonce, i, o);
    assert Outs(u.requests) == Outs(v.requests)[i := o];
  }

  /**
   * A signing pass draws consecutive nonces from the reconciled counter, one per signed row; rows
   * that fail or are refunded on the way consume none.
   */
  lemma {:induction false} SignRowsAllocate(v: Vault, ids: seq<nat>, s: Signer)
    requires v.hotNonce.Some? && (forall k :: 0 <= k < |ids| ==> ids[k] < |v.requests| && Pending(v.requests[ids[k]]))
    requires forall j, k :: 0 <= j < k < |ids| ==> ids[j] < ids[k]
    requires SignRows(v, ids, s).Done?
    ensures var u := SignRows(v, ids, s).value;
      Allocated(u, ids, v.hotNonce.value.nextNonce) &&
      forall j: nat :: j < |v.requests| && j !in ids ==> u.requests[j] == v.requests[j]
    decreases |ids|
  {
    if ids == [] {
    } else {
      hide SignRow, Allocated;
      var front, last := ids[..|ids| - 1], ids[|ids| - 1];
      SignRowsAllocate(v, front, s);
      var m := SignRows(v, front, s).value;
      assert last !in front;
      SignRowEffect(m, last, s);
      assert ids == front + [last];
      var u := SignRows(v, ids, s).value;
      assert u == SignRow(m, last, s).value;
      forall j: nat | j < |v.requests| && j !in ids
        ensures u.requests[j] == v.requests[j]
      {
        assert j != last && j !in front;
      }
      assert Allocated(u, ids, v.hotNonce.value.nextNonce) by {
        SignRowAllocates(m, front, last, s, v.hotNonce.value.nextNonce);
      }
    }
  }

  /** From `v` to `u` a signing pass over the rows `ids` drew consecutive nonces and left the others. */
  ghost predicate SigningDrew(v: Vault, u: Vault, ids: seq<nat>)
    requires |u.requests| == |v.requests| && forall k :: 0 <= k < |ids| ==> ids[k] < |v.requests|
  {
    var draws := Payouts.Drawn(Outs(u.requests), ids);
    && v.hotNonce.Some?
    && u.hotNonce == Some(v.hotNonce.value.(nextNonce := v.hotNonce.value.nextNonce + |draws|))
    && (forall k :: 0 <= k < |draws| ==> draws[k].nonce == v.hotNonce.value.nextNonce + k)
    && (forall j: nat :: j < |v.requests| && j !in ids ==> u.requests[j] == v.requests[j])
  }

  lemma SignRowDraws(v: Vault, m: Vault, ids: seq<nat>, i: nat, s: Signer)
    requires |m.requests| == |v.requests| && forall k :: 0 <= k < |ids| ==> ids[k] < |v.requests|
    requires SigningDrew(v, m, ids)
    requires i < |v.requests| && i !in ids && Pending(v.requests[i]) && SignRow(m, i, s).Done?
    ensures SigningDrew(v, SignRow(m, i, s).value, ids + [i])
  {
    hide SignRow, Payouts.Drawn;
    var u := SignRow(m, i, s).value;
    SignRowEffect(m, i, s);
    Payouts.DrawOne(Outs(m.requests), ids, i, u.requests[i].out);
    assert Outs(u.requests) == Outs(m.requests)[i := u.requests[i].out];
  }

  /** The nonces a signing pass draws, in the order of the rows it signs. */
  lemma {:induction false} SignRowsDraw(v: Vault, ids: seq<nat>, s: Signer)
    requires v.hotNonce.Some? && (forall k :: 0 <= k < |ids| ==> ids[k] < |v.requests| && Pending(v.requests[ids[k]]))
    requires forall j, k :: 0 <= j < k < |ids| ==> ids[j] < ids[k]
    requires SignRows(v, ids, s).Done?
    ensures SigningDrew(v, SignRows(v, ids, s).value, ids)
    decreases |ids|
  {
    if ids == [] {
    } else {
      hide SignRow, SigningDrew;
      var front, last := ids[..|ids| - 1], ids[|ids| - 1];
      SignRowsDraw(v, front, s);
      assert last !in front && ids == front + [last];
      SignRowDraws(v, SignRows(v, front, s).value, front, last, s);
    }
  }

  // ---- phase 2: broadcast -------------------------------------------------------------------

  /** The SIGNING rows in nonce order. */
  function SigningQueue(requests: seq<Withdrawal>): seq<nat> {
    Payouts.SigningQueue(Outs(requests), |requests|)
  }

  /** `sent` logs every raw transaction handed to the network, accepted or not. */
  datatype Sending = Sending(requests: seq<Withdrawal>, sent: seq<(nat, RawTx)>)

  function BroadcastRow(b: Sending, i: nat, accepts: RawTx -> bool): Sending
    requires i < |b.requests|
  {
    var o := b.requests[i].out;
    if o.signedTx.None? then b
    else
      var sent := b.sent + [(i, o.signedTx.value)];
      if accepts(o.signedTx.value)
      then Sending(b.requests[i := b.requests[i].(out := o.(txHash := o.signedTx, status := Broadcast))], sent)
      else b.(sent := sent)
  }

  function BroadcastRows(b: Sending, ids: seq<nat>, accepts: RawTx -> bool): (r: Sending)
    requires forall k :: 0 <= k < |ids| ==> ids[k] < |b.requests|
    ensures |r.requests| == |b.requests|
  {
    if ids == [] then b
    else BroadcastRow(BroadcastRows(b, ids[..|ids| - 1], accepts), ids[|ids| - 1], accepts)
  }

  // ---- phase 3: confirm ---------------------------------------------------------------------

  function ConfirmRow(v: Vault, i: nat, rpc: Payouts.Rpc, gate: Payouts.Gate): (r: Ledger.Step<Vault>)
    requires i < |v.requests|
    ensures r.Done? ==> |r.value.requests| == |v.requests|
  {
    var (o, verdict) := Payouts.Judged(v.requests[i].out, rpc, gate);
    match verdict
    case Keep => Done(WithOut(v, i, o))
    case Settle => Settled(WithOut(v, i, o), i)
    case Refund => Refunded(WithOut(v, i, o), i)
  }

  function ConfirmRows(v: Vault, n: nat, rpc: Payouts.Rpc, gate: Payouts.Gate): (r: Ledger.Step<Vault>)
    requires n <= |v.requests|
    ensures r.Done? ==> |r.value.requests| == |v.requests|
  {
    if n == 0 then Done(v)
    else match ConfirmRows(v, n - 1, rpc, gate)
      case Aborted(e) => Aborted(e)
      case Done(u) => ConfirmRow(u, n - 1, rpc, gate)
  }

  // ---- the worker methods -------------------------------------------------------------------

  function View(session: Session): Vault
    reads session
  {
    Vault(session.txs, session.requests, session.hotNonce)
  }

  method SetOut(session: Session, i: nat, o: Outbox)
    requires i < |session.requests|
    modifies session`requests
    ensures View(session) == WithOut(old(View(session)), i, o)
  {
    session.requests := session.requests[i := session.requests[i].(out := o)];
  }

  method ReverseReservation(session: Session, i: nat) returns (error: Option<Ledger.LedgerError>)
    requires i < |session.requests|
    modifies session`txs, session`requests
    ensures Ledger.Reached(error, View(session), Refunded(old(View(session)), i))
  {
    var r := session.requests[i];
    var amount: int := r.amount;
    var posting := Ledger.Post(session, ReversalType, Keys.WithdrawalReverse(i),
      [Ledger.Leg(System(WithdrawalsReserved, r.asset), r.asset, -amount),
       Ledger.Leg(Wallet(r.user, r.asset), r.asset, amount)], WithdrawalRef(i));
    if posting.Refused? {
      return Some(posting.error);
    }
    SetOut(session, i, r.out.(status := Failed));
    return None;
  }

  method Settle(session: Session, i: nat) returns (error: Option<Ledger.LedgerError>)
    requires i < |session.requests|
    modifies session`txs, session`requests
    ensures Ledger.Reached(error, View(session), Settled(old(View(session)), i))
  {
    var r := session.requests[i];
    var amount: int := r.amount;
    var posting := Ledger.Post(session, WithdrawalType, Keys.WithdrawalSettle(i),
      [Ledger.Leg(System(WithdrawalsReserved, r.asset), r.asset, -amount),
       Ledger.Leg(System(WithdrawalsSettled, r.asset), r.asset, amount)], WithdrawalRef(i));
    if posting.Refused? {
      return Some(posting.error);
    }
    SetOut(session, i, r.out.(status := Confirmed));
    return None;
  }

  method SignOne(session: Session, i: nat, s: Signer) returns (error: Option<Ledger.LedgerError>)
    requires i < |session.requests| && session.hotNonce.Some?
    modifies session`txs, session`requests, session`hotNonce
    ensures Ledger.Reached(error, View(session), SignRow(old(View(session)), i, s))
  {
    var r, nonce := session.requests[i], session.hotNonce.value.nextNonce;
    if r.asset >= |s.assets| {
      return None;
    }
    SetOut(session, i, r.out.(attempts := r.out.attempts + 1));
    var call := PayoutCall(s.assets[r.asset], r.to, r.amount);
    if call.None? || s.answer(i).Unsignable? {
      error := ReverseReservation(session, i);
      return;
    }
    if s.answer(i).Faults? {
      return None;
    }
    var raw := RawTx(call.value, nonce, s.gasPrice);
    SetOut(session, i, Payouts.SignedOutbox(session.requests[i].out, raw));
    session.hotNonce := Some(session.hotNonce.value.(nextNonce := nonce + 1));
    return None;
  }

  method SignClaimed(session: Session, ids: seq<nat>, s: Signer) returns (error: Option<Ledger.LedgerError>)
    requires session.hotNonce.Some? && forall k :: 0 <= k < |ids| ==> ids[k] < |session.requests|
    modifies session`txs, session`requests, session`hotNonce
    ensures Ledger.Reached(error, View(session), SignRows(old(View(session)), ids, s))
  {
    hide SignRow;
    ghost var start := View(session);
    for k := 0 to |ids|
      invariant session.hotNonce.Some? && |session.requests| == |start.requests|
      invariant SignRows(start, ids[..k], s) == Done(View(session))
    {
      assert ids[..k + 1][..k] == ids[..k];
      error := SignOne(session, ids[k], s);
      if error.Some? {
        SignAborts(start, ids, k + 1, s);
        return;
      }
    }
    assert ids[..|ids|] == ids;
    return None;
  }

  /** Phase 1. */
  method SignPendingRequests(session: Session, s: Signer) returns (error: Option<Ledger.LedgerError>)
    modifies session`txs, session`requests, session`hotNonce
    ensures Ledger.Reached(error, View(session), SignPending(old(View(session)), s))
  {
    var ids := Claimed(session.requests, s.locked, s.batch);
    if ids == [] {
      return None;
    }
    var _ := Nonce.NonceRow(session, s.address, s.chainNonce);
    error := SignClaimed(session, ids, s);
  }

  lemma {:induction false} SignAborts(v: Vault, ids: seq<nat>, k: nat, s: Signer)
    requires v.hotNonce.Some? && (forall j :: 0 <= j < |ids| ==> ids[j] < |v.requests|)
    requires k <= |ids| && SignRows(v, ids[..k], s).Aborted?
    ensures SignRows(v, ids, s) == SignRows(v, ids[..k], s)
    decreases |ids|
  {
    if k == |ids| {
      assert ids[..k] == ids;
    } else {
      var front := ids[..|ids| - 1];
      assert front[..k] == ids[..k];
      SignAborts(v, front, k, s);
    }
  }

  /** Phase 2. Returns the log of raw transactions handed to the network. */
  method BroadcastSigned(session: Session, accepts: RawTx -> bool) returns (sent: seq<(nat, RawTx)>)
    modifies session`requests
    ensures Sending(session.requests, sent) ==
      BroadcastRows(Sending(old(session.requests), []),
        SigningQueue(old(session.requests)), accepts)
  {
    var ids := SigningQueue(session.requests);
    ghost var start := Sending(session.requests, []);
    sent := [];
    for k := 0 to |ids|
      invariant |session.requests| == |start.requests|
      invariant Sending(session.requests, sent) == BroadcastRows(start, ids[..k], accepts)
    {
      assert ids[..k + 1][..k] == ids[..k];
      var i := ids[k];
      var o := session.requests[i].out;
      if o.signedTx.None? {
        continue;
      }
      sent := sent + [(i, o.signedTx.value)];
      if !accepts(o.signedTx.value) {
        continue;
      }
      SetOut(session, i, o.(txHash := o.signedTx, status := Broadcast));
    }
    assert ids[..|ids|] == ids;
  }

  method ConfirmOne(session: Session, i: nat, rpc: Payouts.Rpc, gate: Payouts.Gate)
    returns (error: Option<Ledger.LedgerError>)
    requires i < |session.requests|
    modifies session`txs, session`requests
    ensures Ledger.Reached(error, View(session), ConfirmRow(old(View(session)), i, rpc, gate))
  {
    var o, verdict := Payouts.Confirm(session.requests[i].out, rpc, gate);
    SetOut(session, i, o);
    match verdict
    case Keep => error := None;
    case Settle => error := Settle(session, i);
    case Refund => error := ReverseReservation(session, i);
  }

  /** Phase 3. */
  method ConfirmBroadcast(session: Session, rpc: Payouts.Rpc, gate: Payouts.Gate)
    returns (error: Option<Ledger.LedgerError>)
    modifies session`txs, session`requests
    ensures Ledger.Reached(error, View(session), ConfirmRows(old(View(session)), |old(session.requests)|, rpc, gate))
  {
    hide ConfirmRow;
    ghost var start := View(session);
    for i := 0 to |session.requests|
      invariant |session.requests| == |start.requests|
      invariant ConfirmRows(start, i, rpc, gate) == Done(View(session))
    {
      error := ConfirmOne(session, i, rpc, gate);
      if error.Some? {
        ConfirmAborts(start, i + 1, |start.requests|, rpc, gate);
        return;
      }
    }
    return None;
  }

  lemma {:induction false} ConfirmAborts(v: Vault, i: nat, n: nat, rpc: Payouts.Rpc, gate: Payouts.Gate)
    requires i <= n <= |v.requests| && ConfirmRows(v, i, rpc, gate).Aborted?
    ensures ConfirmRows(v, n, rpc, gate) == ConfirmRows(v, i, rpc, gate)
    decreases n
  {
    if i < n {
      ConfirmAborts(v, i, n - 1, rpc, gate);
    }
  }

  // ---- one tick of the withdrawer loop ------------------------------------------------------

  /** Three transactions: a phase that fails is rolled back and ends the tick. */
  function Tick(v: Vault, s: Signer, accepts: RawTx -> bool, rpc: Payouts.Rpc, gate: Payouts.Gate)
    : (Vault, seq<(nat, RawTx)>)
  {
    match SignPending(v, s)
    case Aborted(_) => (v, [])
    case Done(u) =>
      var b := BroadcastRows(Sending(u.requests, []), SigningQueue(u.requests), accepts);
      var w := u.(requests := b.requests);
      match ConfirmRows(w, |w.requests|, rpc, gate)
      case Aborted(_) => (w, b.sent)
      case Done(x) => (x, b.sent)
  }

  method WithdrawerTick(session: Session, s: Signer, accepts: RawTx -> bool, rpc: Payouts.Rpc, gate: Payouts.Gate)
    returns (sent: seq<(nat, RawTx)>)
    modifies session`txs, session`requests, session`hotNonce
    ensures (View(session), sent) == Tick(old(View(session)), s, accepts, rpc, gate)
  {
    sent := [];
    var txs, requests, hotNonce := session.txs, session.requests, session.hotNonce;
    var error := SignPendingRequests(session, s);
    if error.Some? {
      session.txs, session.requests, session.hotNonce := txs, requests, hotNonce;
      return;
    }
    sent := BroadcastSigned(session, accepts);
    txs, requests := session.txs, session.requests;
    error := ConfirmBroadcast(session, rpc, gate);
    if error.Some? {
      session.txs, session.requests := txs, requests;
    }
  }
}
