/**
 * NFT withdrawals against a reorganising chain: a holding that is HELD again after a failed withdrawal
 * has never left on chain, and a WITHDRAWN one has.
 */
module NftSafety {
  import opened Wrappers
  import opened Sums
  import opened Tables
  import opened PayoutSafety
  import Nft
  import Nonce
  import Payouts

  datatype Scene = Scene(nft: Nft.World, chain: Chain, final: nat)

  datatype Happening =
    | Act(event: Nft.Event)          // an endpoint call or an outbox phase commits
    | Counter(next: nat)             // other outboxes move the counter
    | Reorganise(chain: Chain)

  function After(w: Scene, s: Setup, e: Happening): Scene {
    match e
    case Act(event) => w.(nft := Nft.Next(w.nft, event))
    case Counter(next) => w.(nft := w.nft.(hotNonce := Some(HotWalletNonce(s.address, next))))
    case Reorganise(chain) => w.(chain := chain, final := Max(w.final, |chain| - s.confirmations))
  }

  /** The same environment as for fungible withdrawals. */
  ghost predicate Possible(w: Scene, s: Setup, e: Happening) {
    match e
    case Act(Sign(signer)) => signer.address == s.address
    case Act(Confirm(rpc, gate)) => gate == Gate(s) && Faithful(w.chain, rpc, s.confirmations)
    case Act(_) => true
    case Counter(next) => w.nft.hotNonce.Some? ==> w.nft.hotNonce.value.nextNonce <= next
    case Reorganise(chain) =>
      && WellFormed(chain) && w.final <= |chain| && w.final <= |w.chain| && chain[..w.final] == w.chain[..w.final]
      && forall i :: 0 <= i < |w.nft.desk.requests| ==> SlotKept(w.nft.desk.requests[i].out, w.chain, chain)
  }

  function Scenes(s: Setup, events: seq<Happening>): Scene {
    if events == [] then Scene(Nft.Run([]), [], 0)
    else After(Scenes(s, events[..|events| - 1]), s, events[|events| - 1])
  }

  ghost predicate PossibleRun(s: Setup, events: seq<Happening>) {
    events == [] ||
    (PossibleRun(s, events[..|events| - 1]) && Possible(Scenes(s, events[..|events| - 1]), s, events[|events| - 1]))
  }

  // ---- the rows -----------------------------------------------------------------------------

  ghost predicate OutsOk(outs: seq<Outbox>, chain: Chain, final: nat, counter: Option<HotWalletNonce>) {
    forall i :: 0 <= i < |outs| ==> RowOk(outs[i], chain, final, counter)
  }

  ghost predicate Sane(w: Scene, s: Setup) {
    && Nft.Ok(w.nft)
    && WellFormed(w.chain) && w.final <= |w.chain| && |w.chain| - s.confirmations <= w.final
    && (w.nft.hotNonce.Some? ==> w.nft.hotNonce.value.address == s.address)
    && OutsOk(Nft.Outs(w.nft.desk.requests), w.chain, w.final, w.nft.hotNonce)
  }

  lemma HigherCounter(o: Outbox, chain: Chain, final: nat, row: Option<HotWalletNonce>, higher: HotWalletNonce)
    requires RowOk(o, chain, final, row) && (row.Some? ==> row.value.nextNonce <= higher.nextNonce)
    ensures RowOk(o, chain, final, Some(higher))
  {
    hide Sealed, FilledBy;
  }

  lemma SignOutOk(b: Payouts.Batch, i: nat, call: nat -> Call, signs: nat -> bool, gasPrice: nat,
                  address: string, chain: Chain, final: nat)
    requires i < |b.outs| && Payouts.Pending(b.outs[i])
    requires OutsOk(b.outs, chain, final, Some(HotWalletNonce(address, b.next)))
    ensures var r := Payouts.SignOut(b, i, call, signs, gasPrice);
      r.next >= b.next && OutsOk(r.outs, chain, final, Some(HotWalletNonce(address, r.next)))
  {
    hide Sealed, FilledBy;
    var r := Payouts.SignOut(b, i, call, signs, gasPrice);
    forall k | 0 <= k < |r.outs|
      ensures RowOk(r.outs[k], chain, final, Some(HotWalletNonce(address, r.next)))
    {
      assert RowOk(b.outs[k], chain, final, Some(HotWalletNonce(address, b.next)));
    }
  }

  lemma {:induction false} SignOutsOk(b: Payouts.Batch, ids: seq<nat>, call: nat -> Call, signs: nat -> bool,
                                      gasPrice: nat, address: string, chain: Chain, final: nat)
    requires forall k :: 0 <= k < |ids| ==> ids[k] < |b.outs| && Payouts.Pending(b.outs[ids[k]])
    requires forall j, k :: 0 <= j < k < |ids| ==> ids[j] < ids[k]
    requires OutsOk(b.outs, chain, final, Some(HotWalletNonce(address, b.next)))
    ensures var r := Payouts.SignOuts(b, ids, call, signs, gasPrice);
      r.next >= b.next && OutsOk(r.outs, chain, final, Some(HotWalletNonce(address, r.next)))
    decreases |ids|
  {
    if ids == [] {
      return;
    }
    hide Payouts.SignOut, OutsOk;
    var front, last := ids[..|ids| - 1], ids[|ids| - 1];
    SignOutsOk(b, front, call, signs, gasPrice, address, chain, final);
    Payouts.SignOutsDraw(b, front, call, signs, gasPrice);
    assert last !in front;
    SignOutOk(Payouts.SignOuts(b, front, call, signs, gasPrice), last, call, signs, gasPrice, address, chain, final);
  }

  lemma SignPassOk(outs: seq<Outbox>, row: Option<HotWalletNonce>, call: nat -> Call, s: Nft.Signer, chain: Chain,
                   final: nat)
    requires OutsOk(outs, chain, final, row) && (row.Some? ==> row.value.address == s.address)
    ensures var after := Nft.SignPass(outs, row, call, s); OutsOk(after.0, chain, final, after.1)
  {
    var ids := Payouts.Claimed(outs, s.locked, s.batch);
    if ids == [] {
      return;
    }
    hide Payouts.SignOuts, RowOk, Payouts.Claimed;
    var counter := Nonce.Reconciled(row, s.address, s.chainNonce);
    forall i | 0 <= i < |outs|
      ensures RowOk(outs[i], chain, final, Some(HotWalletNonce(s.address, counter.nextNonce)))
    {
      HigherCounter(outs[i], chain, final, row, HotWalletNonce(s.address, counter.nextNonce));
    }
    SignOutsOk(Payouts.Batch(outs, counter.nextNonce), ids, call, s.signs, s.gasPrice, s.address, chain, final);
  }

  lemma BroadcastOk(o: Outbox, accepts: RawTx -> bool, chain: Chain, final: nat, counter: Option<HotWalletNonce>)
    requires RowOk(o, chain, final, counter)
    ensures RowOk(Nft.BroadcastOut(o, accepts), chain, final, counter)
  {
    hide Sealed, FilledBy;
  }

  lemma {:induction false} ConfirmedOuts(v: Nft.Vault, n: nat, rpc: Payouts.Rpc, gate: Payouts.Gate)
    requires n <= |v.requests|
    ensures var outs := Nft.Outs(Nft.ConfirmRows(v, n, rpc, gate).requests);
      |outs| == |v.requests| && forall i :: 0 <= i < |outs| ==>
        outs[i] == if i < n then Payouts.Concluded(v.requests[i].out, rpc, gate) else v.requests[i].out
    decreases n
  {
    if n == 0 {
    } else {
      hide Payouts.Judged;
      ConfirmedOuts(v, n - 1, rpc, gate);
      var m := Nft.ConfirmRows(v, n - 1, rpc, gate);
      assert m.requests[n - 1].out == Nft.Outs(m.requests)[n - 1];
    }
  }

  // ---- what every event keeps ---------------------------------------------------------------

  lemma EndpointKeeps(w: Scene, s: Setup, e: Nft.Event)
    requires Sane(w, s) && (e.Acquire? || e.Move? || e.Ask?)
    ensures OutsOk(Nft.Outs(Nft.Next(w.nft, e).desk.requests), w.chain, w.final, w.nft.hotNonce)
    ensures Nft.Next(w.nft, e).hotNonce == w.nft.hotNonce
  {
    hide Nft.Ok, Sealed, FilledBy;
    var before, after := w.nft.desk.requests, Nft.Next(w.nft, e).desk.requests;
    assert after == before
      || (|after| == |before| + 1 && after[..|before|] == before && after[|before|].out == FRESH_OUTBOX);
    forall i | 0 <= i < |after|
      ensures RowOk(after[i].out, w.chain, w.final, w.nft.hotNonce)
    {
      if i < |before| {
        assert after[i] == after[..|before|][i];
        assert RowOk(Nft.Outs(before)[i], w.chain, w.final, w.nft.hotNonce);
      }
    }
  }

  lemma SignKeeps(w: Scene, s: Setup, signer: Nft.Signer)
    requires Sane(w, s) && signer.address == s.address
    ensures var u := Nft.Next(w.nft, Nft.Sign(signer));
      && OutsOk(Nft.Outs(u.desk.requests), w.chain, w.final, u.hotNonce)
      && (u.hotNonce.Some? ==> u.hotNonce.value.address == s.address)
  {
    hide Nft.Ok, RowOk, Payouts.SignOuts, Payouts.Claimed;
    var requests := w.nft.desk.requests;
    SignPassOk(Nft.Outs(requests), w.nft.hotNonce, Nft.TransferCall(requests), signer, w.chain, w.final);
    var outs := Nft.SignPass(Nft.Outs(requests), w.nft.hotNonce, Nft.TransferCall(requests), signer).0;
    assert Nft.Outs(Nft.WithOuts(requests, outs)) == outs;
  }

  lemma SendKeeps(w: Scene, s: Setup, accepts: RawTx -> bool)
    requires Sane(w, s)
    ensures OutsOk(Nft.Outs(Nft.BroadcastPass(w.nft.desk.requests, accepts)), w.chain, w.final, w.nft.hotNonce)
  {
    hide Nft.Ok, RowOk;
    var requests := w.nft.desk.requests;
    forall i | 0 <= i < |requests|
      ensures RowOk(Nft.BroadcastOut(requests[i].out, accepts), w.chain, w.final, w.nft.hotNonce)
    {
      assert RowOk(Nft.Outs(requests)[i], w.chain, w.final, w.nft.hotNonce);
      BroadcastOk(requests[i].out, accepts, w.chain, w.final, w.nft.hotNonce);
    }
  }

  lemma ConfirmKeeps(w: Scene, s: Setup, rpc: Payouts.Rpc)
    requires Sane(w, s) && Faithful(w.chain, rpc, s.confirmations)
    ensures OutsOk(Nft.Outs(Nft.Next(w.nft, Nft.Confirm(rpc, Gate(s))).desk.requests), w.chain, w.final, w.nft.hotNonce)
  {
    hide Nft.Ok, RowOk, Nft.ConfirmRows, Payouts.Concluded, Faithful, WellFormed;
    var v := Nft.Vault(w.nft.desk.holdings, w.nft.desk.requests);
    ConfirmedOuts(v, |v.requests|, rpc, Gate(s));
    forall i | 0 <= i < |v.requests|
      ensures RowOk(Payouts.Concluded(v.requests[i].out, rpc, Gate(s)), w.chain, w.final, w.nft.hotNonce)
    {
      assert RowOk(Nft.Outs(v.requests)[i], w.chain, w.final, w.nft.hotNonce);
      ConcludedOk(v.requests[i].out, w.chain, w.final, w.nft.hotNonce, rpc, s);
    }
  }

  lemma ActKeeps(w: Scene, s: Setup, e: Nft.Event)
    requires Sane(w, s) && Possible(w, s, Act(e))
    ensures Sane(After(w, s, Act(e)), s)
  {
    hide Nft.Ok, OutsOk, WellFormed, Faithful;
    Nft.NextKeeps(w.nft, e);
    match e
    case Sign(signer) => SignKeeps(w, s, signer);
    case Send(accepts) => SendKeeps(w, s, accepts);
    case Confirm(rpc, _) => ConfirmKeeps(w, s, rpc);
    case _ => EndpointKeeps(w, s, e);
  }

  lemma ReorganiseKeeps(w: Scene, s: Setup, chain: Chain)
    requires Sane(w, s) && Possible(w, s, Reorganise(chain))
    ensures Sane(After(w, s, Reorganise(chain)), s)
  {
    hide Nft.Ok, RowOk, WellFormed;
    var w' := After(w, s, Reorganise(chain));
    var outs := Nft.Outs(w.nft.desk.requests);
    forall i | 0 <= i < |outs|
      ensures RowOk(outs[i], chain, w'.final, w.nft.hotNonce)
    {
      assert SlotKept(w.nft.desk.requests[i].out, w.chain, chain);
      RowSurvivesReorg(outs[i], w.chain, w.final, chain, w'.final, w.nft.hotNonce);
    }
  }

  lemma CounterKeeps(w: Scene, s: Setup, next: nat)
    requires Sane(w, s) && Possible(w, s, Counter(next))
    ensures Sane(After(w, s, Counter(next)), s)
  {
    hide RowOk, Nft.Guarded, Nft.Provenance;
    var outs := Nft.Outs(w.nft.desk.requests);
    forall i | 0 <= i < |outs|
      ensures RowOk(outs[i], w.chain, w.final, Some(HotWalletNonce(s.address, next)))
    {
      HigherCounter(outs[i], w.chain, w.final, w.nft.hotNonce, HotWalletNonce(s.address, next));
    }
    HoldingsOnly(w.nft, Some(HotWalletNonce(s.address, next)));
  }

  lemma HoldingsOnly(w: Nft.World, row: Option<HotWalletNonce>)
    requires Nft.Ok(w)
    ensures Nft.Ok(w.(hotNonce := row))
  {
    hide Nft.Guarded;
  }

  lemma {:induction false} RunSane(s: Setup, events: seq<Happening>)
    requires PossibleRun(s, events)
    ensures Sane(Scenes(s, events), s)
    decreases |events|
  {
    if events == [] {
      return;
    }
    hide Sane, After, Possible;
    var w, e := Scenes(s, events[..|events| - 1]), events[|events| - 1];
    RunSane(s, events[..|events| - 1]);
    match e
    case Act(event) => ActKeeps(w, s, event);
    case Counter(next) => CounterKeeps(w, s, next);
    case Reorganise(chain) => ReorganiseKeeps(w, s, chain);
  }

  // ---- the theorems -------------------------------------------------------------------------

  /** A CONFIRMED request's transfer is mined and succeeded, a FAILED one's (if signed) is not. */
  lemma ReleaseXorTransfer(s: Setup, events: seq<Happening>, i: nat)
    requires PossibleRun(s, events) && i < |Scenes(s, events).nft.desk.requests|
    ensures var w := Scenes(s, events);
      var o := w.nft.desk.requests[i].out;
      && (o.status.Confirmed? ==> o.signedTx.Some? && PaidOn(w.chain, o.signedTx.value))
      && (o.status.Failed? && o.signedTx.Some? ==> !PaidOn(w.chain, o.signedTx.value))
  {
    hide Scenes, PossibleRun;
    RunSane(s, events);
    RowDecided(Scenes(s, events), s, i);
  }

  lemma RowDecided(w: Scene, s: Setup, i: nat)
    requires Sane(w, s) && i < |w.nft.desk.requests|
    ensures var o := w.nft.desk.requests[i].out;
      && !o.status.Rejected?
      && (o.status.Confirmed? ==> o.signedTx.Some? && PaidOn(w.chain, o.signedTx.value))
      && (o.status.Failed? && o.signedTx.Some? ==> !PaidOn(w.chain, o.signedTx.value))
  {
    hide Nft.Ok, PaidOn, Sealed;
    var o := w.nft.desk.requests[i].out;
    assert RowOk(Nft.Outs(w.nft.desk.requests)[i], w.chain, w.final, w.nft.hotNonce);
    if o.status.Confirmed? {
      SealDecides(w.chain, w.final, o.signedTx.value, true);
    } else if o.status.Failed? && o.signedTx.Some? {
      SealDecides(w.chain, w.final, o.signedTx.value, false);
    }
  }

  lemma {:induction false} SomeCounted(requests: seq<NftWithdrawal>, f: NftWithdrawal -> int)
    requires SumBy(requests, f) > 0
    ensures exists i :: 0 <= i < |requests| && f(requests[i]) > 0
    decreases |requests|
  {
    var n := |requests| - 1;
    if f(requests[n]) <= 0 {
      SomeCounted(requests[..n], f);
      var i :| 0 <= i < n && f(requests[..n][i]) > 0;
      assert f(requests[i]) > 0;
    }
  }

  ghost predicate Left(w: Scene, i: int, h: nat) {
    && 0 <= i < |w.nft.desk.requests| && w.nft.desk.requests[i].holding == h
    && w.nft.desk.requests[i].out.signedTx.Some? && PaidOn(w.chain, w.nft.desk.requests[i].out.signedTx.value)
  }

  /**
   * A HELD holding can be withdrawn again because no transfer ever signed for it is mined successfully;
   * a WITHDRAWN one has one that is.
   */
  lemma HoldingMatchesChain(s: Setup, events: seq<Happening>, h: nat)
    requires PossibleRun(s, events) && h < |Scenes(s, events).nft.desk.holdings|
    ensures var w := Scenes(s, events);
      && (w.nft.desk.holdings[h].status.Held? ==> !exists i :: Left(w, i, h))
      && (w.nft.desk.holdings[h].status.Withdrawn? ==> exists i :: Left(w, i, h))
  {
    hide Scenes, PossibleRun;
    RunSane(s, events);
    HoldingDecided(Scenes(s, events), s, h);
  }

  lemma HoldingDecided(w: Scene, s: Setup, h: nat)
    requires Sane(w, s) && h < |w.nft.desk.holdings|
    ensures w.nft.desk.holdings[h].status.Held? ==> !exists i :: Left(w, i, h)
    ensures w.nft.desk.holdings[h].status.Withdrawn? ==> exists i :: Left(w, i, h)
  {
    hide PaidOn, OutsOk, WellFormed;
    var holding, requests := w.nft.desk.holdings[h], w.nft.desk.requests;
    assert Nft.Exclusive(w.nft.desk.holdings, requests, h);
    if holding.status.Held? {
      forall i | 0 <= i < |requests|
        ensures !Left(w, i, h)
      {
        RowDecided(w, s, i);
        Nft.SumAtLeast(requests, Nft.Open(h), i);
        Nft.SumAtLeast(requests, Nft.Paid(h), i);
      }
    } else if holding.status.Withdrawn? {
      SomeCounted(requests, Nft.Paid(h));
      var i :| 0 <= i < |requests| && Nft.Paid(h)(requests[i]) > 0;
      RowDecided(w, s, i);
      assert Left(w, i, h);
    }
  }
}
