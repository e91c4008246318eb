/**
 * Ledger and chain together: the custody engine of `Custody` run against the reorganising chain of
 * `PayoutSafety`, so that what the ledger says about a payout is what happened to it on chain.
 */
module Settlement {
  import opened Wrappers
  import opened Tables
  import Custody
  import Keys
  import Ledger
  import PayoutSafety
  import Payments
  import Withdrawer

  datatype World = World(custody: Custody.World, sent: seq<(nat, RawTx)>, chain: PayoutSafety.Chain, final: nat)

  /** An event of the books (a watcher pass, a withdrawal request, a transfer), or of the outbox and the chain. */
  datatype Event = Book(book: Custody.Event) | Pay(pay: PayoutSafety.Event)

  /** The outbox's view of the world. */
  function Side(w: World): PayoutSafety.World {
    PayoutSafety.World(Custody.VaultOf(w.custody), w.sent, w.chain, w.final)
  }

  function WithSide(w: World, u: PayoutSafety.World): World {
    World(w.custody.(txs := u.vault.txs, requests := u.vault.requests, hotNonce := u.vault.hotNonce), u.sent, u.chain,
      u.final)
  }

  function Next(w: World, s: PayoutSafety.Setup, e: Event): World {
    match e
    case Book(b) => if b.Scan? || b.Withdraw? || b.Transfer? then w.(custody := Custody.Next(w.custody, b)) else w
    case Pay(Reserve(_)) => w
    case Pay(Elsewhere(_, next)) =>
      WithSide(w, PayoutSafety.Next(Side(w), s, PayoutSafety.Elsewhere(w.custody.txs, next)))
    case Pay(p) => WithSide(w, PayoutSafety.Next(Side(w), s, p))
  }

  ghost predicate Allowed(w: World, s: PayoutSafety.Setup, e: Event) {
    e.Pay? ==> PayoutSafety.Allowed(Side(w), s, e.pay)
  }

  const EMPTY := World(Custody.EMPTY, [], [], 0)

  function Run(s: PayoutSafety.Setup, events: seq<Event>): World {
    if events == [] then EMPTY else Next(Run(s, events[..|events| - 1]), s, events[|events| - 1])
  }

  ghost predicate AllowedRun(s: PayoutSafety.Setup, events: seq<Event>) {
    events == [] ||
    (AllowedRun(s, events[..|events| - 1]) && Allowed(Run(s, events[..|events| - 1]), s, events[|events| - 1]))
  }

  ghost predicate Ok(w: World, s: PayoutSafety.Setup) {
    Custody.Ok(w.custody) && PayoutSafety.Ok(Side(w), s)
  }

  // ---- the books leave the outbox alone -----------------------------------------------------

  lemma BookRequests(w: Custody.World, b: Custody.Event)
    requires b.Scan? || b.Withdraw? || b.Transfer?
    ensures var w' := Custody.Next(w, b);
      && w'.hotNonce == w.hotNonce
      && (w'.requests == w.requests ||
          exists r: Withdrawal :: r.out == FRESH_OUTBOX && w'.requests == w.requests + [r])
  {
    if b.Withdraw? {
      var a := b.request;
      if Payments.Withdraw(Payments.Desk(w.txs, w.requests), a).1.Reserved? {
        var r := Withdrawal(a.user, a.asset, a.to, a.amount, FRESH_OUTBOX);
        assert Custody.Next(w, b).requests == w.requests + [r] && r.out == FRESH_OUTBOX;
      }
    }
  }

  lemma BookKeeps(w: World, s: PayoutSafety.Setup, b: Custody.Event)
    requires Ok(w, s)
    ensures Ok(Next(w, s, Book(b)), s)
  {
    if b.Scan? || b.Withdraw? || b.Transfer? {
      hide Custody.Ok, Custody.Next, PayoutSafety.Ok;
      Custody.NextKeeps(w.custody, b);
      BookRequests(w.custody, b);
      SideKeeps(w, s, Custody.Next(w.custody, b));
    }
  }

  /** The outbox invariant does not care for postings, and a fresh request satisfies it. */
  lemma SideKeeps(w: World, s: PayoutSafety.Setup, c: Custody.World)
    requires PayoutSafety.Ok(Side(w), s) && c.hotNonce == w.custody.hotNonce
    requires c.requests == w.custody.requests ||
      exists r: Withdrawal :: r.out == FRESH_OUTBOX && c.requests == w.custody.requests + [r]
    ensures PayoutSafety.Ok(Side(w.(custody := c)), s)
  {
    hide PayoutSafety.RowOk, PayoutSafety.WellFormed;
    FreshRowOk(w.chain, w.final, w.custody.hotNonce);
    assert PayoutSafety.RowsOk(Custody.VaultOf(c), w.chain, w.final);
  }

  lemma FreshRowOk(chain: PayoutSafety.Chain, final: nat, counter: Option<HotWalletNonce>)
    ensures PayoutSafety.RowOk(FRESH_OUTBOX, chain, final, counter)
  {
  }

  // ---- the outbox keeps the books -----------------------------------------------------------

  /** The log of earlier sends has no influence on the rows. */
  lemma {:induction false} RowsWhateverSent(requests: seq<Withdrawal>, sent: seq<(nat, RawTx)>, ids: seq<nat>,
                                            accepts: RawTx -> bool)
    requires forall k :: 0 <= k < |ids| ==> ids[k] < |requests|
    ensures Withdrawer.BroadcastRows(Withdrawer.Sending(requests, sent), ids, accepts).requests
      == Withdrawer.BroadcastRows(Withdrawer.Sending(requests, []), ids, accepts).requests
    decreases |ids|
  {
    if ids == [] {
    } else {
      RowsWhateverSent(requests, sent, ids[..|ids| - 1], accepts);
    }
  }

  lemma QueueInRange(requests: seq<Withdrawal>)
    ensures var ids := Withdrawer.SigningQueue(requests); forall k :: 0 <= k < |ids| ==> ids[k] < |requests|
  {
  }

  /** Each outbox phase is the custody event of the same name. */
  lemma PhaseIsCustodyEvent(w: World, s: PayoutSafety.Setup, p: PayoutSafety.Event)
    ensures p.Sign? ==> Next(w, s, Pay(p)).custody == Custody.Next(w.custody, Custody.Sign(p.signer))
    ensures p.Send? ==> Next(w, s, Pay(p)).custody == Custody.Next(w.custody, Custody.Send(p.accepts))
    ensures p.Confirm? ==>
      Next(w, s, Pay(p)).custody == Custody.Next(w.custody, Custody.Confirm(p.rpc, PayoutSafety.Gate(s)))
  {
    hide Withdrawer.SignPending, Withdrawer.BroadcastRows, Withdrawer.ConfirmRows, Withdrawer.SigningQueue;
    match p
    case Send(accepts) =>
      var ids := Withdrawer.SigningQueue(w.custody.requests);
      QueueInRange(w.custody.requests);
      RowsWhateverSent(w.custody.requests, w.sent, ids, accepts);
    case _ =>
  }

  /** A change of the hot-wallet counter alone. */
  lemma CounterKeepsCustody(w: Custody.World, hotNonce: Option<HotWalletNonce>)
    requires Custody.Ok(w)
    ensures Custody.Ok(w.(hotNonce := hotNonce))
  {
    hide Ledger.Sound;
    assert forall a: nat :: Custody.Balanced(w, a) ==> Custody.Balanced(w.(hotNonce := hotNonce), a);
  }

  lemma PayKeeps(w: World, s: PayoutSafety.Setup, p: PayoutSafety.Event)
    requires Ok(w, s) && Allowed(w, s, Pay(p))
    ensures Ok(Next(w, s, Pay(p)), s)
  {
    hide Custody.Ok, Custody.Next, PayoutSafety.Ok;
    match p
    case Reserve(_) =>
    case Elsewhere(_, next) =>
      PayoutSafety.NextKeeps(Side(w), s, PayoutSafety.Elsewhere(w.custody.txs, next));
      CounterKeepsCustody(w.custody, Some(HotWalletNonce(s.address, next)));
    case Sign(signer) =>
      PayoutSafety.NextKeeps(Side(w), s, p);
      PhaseIsCustodyEvent(w, s, p);
      Custody.NextKeeps(w.custody, Custody.Sign(signer));
    case Send(accepts) =>
      PayoutSafety.NextKeeps(Side(w), s, p);
      PhaseIsCustodyEvent(w, s, p);
      Custody.NextKeeps(w.custody, Custody.Send(accepts));
    case Confirm(rpc) =>
      PayoutSafety.NextKeeps(Side(w), s, p);
      PhaseIsCustodyEvent(w, s, p);
      Custody.NextKeeps(w.custody, Custody.Confirm(rpc, PayoutSafety.Gate(s)));
    case SendCrash(_, _) => PayoutSafety.NextKeeps(Side(w), s, p);
    case Reorg(_) => PayoutSafety.NextKeeps(Side(w), s, p);
  }

  lemma {:induction false} RunOk(s: PayoutSafety.Setup, events: seq<Event>)
    requires AllowedRun(s, events)
    ensures Ok(Run(s, events), s)
    decreases |events|
  {
    if events == [] {
      return;
    }
    hide Ok, Next, Allowed;
    var w, e := Run(s, events[..|events| - 1]), events[|events| - 1];
    RunOk(s, events[..|events| - 1]);
    match e
    case Book(b) => BookKeeps(w, s, b);
    case Pay(p) => PayKeeps(w, s, p);
  }

  // ---- the theorem --------------------------------------------------------------------------

  /**
   * In every run of the whole engine against a reorganising chain: if the ledger refunded a request, its
   * signed transaction (if it has one) is not mined successfully; if the ledger settled it, it is. Hence no
   * reservation is given back for a payout that went out, and none is written off for one that did not.
   */
  lemma LedgerMatchesChain(s: PayoutSafety.Setup, events: seq<Event>, i: nat)
    requires AllowedRun(s, events) && i < |Run(s, events).custody.requests|
    ensures var w := Run(s, events);
      var raw := w.custody.requests[i].out.signedTx;
      && (Keys.WithdrawalReverse(i) in Ledger.KeysOf(w.custody.txs) && raw.Some? ==>
            !PayoutSafety.PaidOn(w.chain, raw.value))
      && (Keys.WithdrawalSettle(i) in Ledger.KeysOf(w.custody.txs) ==>
            raw.Some? && PayoutSafety.PaidOn(w.chain, raw.value))
  {
    hide Run, Next;
    RunOk(s, events);
    RowMatchesChain(Run(s, events), s, i);
  }

  lemma RowMatchesChain(w: World, s: PayoutSafety.Setup, i: nat)
    requires Ok(w, s) && i < |w.custody.requests|
    ensures var raw := w.custody.requests[i].out.signedTx;
      && (Keys.WithdrawalReverse(i) in Ledger.KeysOf(w.custody.txs) && raw.Some? ==>
            !PayoutSafety.PaidOn(w.chain, raw.value))
      && (Keys.WithdrawalSettle(i) in Ledger.KeysOf(w.custody.txs) ==>
            raw.Some? && PayoutSafety.PaidOn(w.chain, raw.value))
  {
    hide PayoutSafety.PaidOn, PayoutSafety.Sealed, Ledger.Sound;
    var o := w.custody.requests[i].out;
    assert PayoutSafety.RowOk(o, w.chain, w.final, w.custody.hotNonce);
    if o.status.Confirmed? {
      PayoutSafety.SealDecides(w.chain, w.final, o.signedTx.value, true);
    } else if o.status.Failed? && o.signedTx.Some? {
      PayoutSafety.SealDecides(w.chain, w.final, o.signedTx.value, false);
    }
  }
}
