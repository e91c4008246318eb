/**
 * Whole runs of the withdrawal outbox against a chain that reorgs: the three phases in any order,
 * crashes between and inside them, other outboxes moving the counter, and the chain changing in
 * between. No payout is both sent and refunded, and no request is ever paid by two transactions.
 */
module PayoutSafety {
  import opened Wrappers
  import opened Tables
  import opened Withdrawer
  import Keys
  import Ledger
  import Nonce
  import Payouts

  type Chain = seq<Payouts.Block>

  // ---- the chain ----------------------------------------------------------------------------

  ghost predicate Fills(chain: Chain, b: int, n: nat) {
    0 <= b < |chain| && n in chain[b].mined
  }

  /** A nonce is consumed at most once on any one chain. */
  ghost predicate WellFormed(chain: Chain) {
    forall a, b, n :: Fills(chain, a, n) && Fills(chain, b, n) ==> a == b
  }

  ghost predicate FilledBy(chain: Chain, n: nat, last: int) {
    exists b :: b <= last && Fills(chain, b, n)
  }

  ghost predicate MinedAt(chain: Chain, b: int, raw: RawTx, ok: bool) {
    Fills(chain, b, raw.nonce) && chain[b].mined[raw.nonce] == Payouts.Mined(raw, ok)
  }

  /** `raw` was included and succeeded. */
  ghost predicate PaidOn(chain: Chain, raw: RawTx) {
    exists b :: MinedAt(chain, b, raw, true)
  }

  predicate Past(rpc: Payouts.Rpc, n: nat) {
    rpc.latestNonce > n
  }

  /**
   * The RPC is allowed to lag and to answer with stale receipts, within this: head and nonce describe
   * the current chain, canonical hashes and receipts are genuine, and a mined transaction's receipt is
   * visible once its block is `confirmations` deep.
   */
  ghost predicate Faithful(chain: Chain, rpc: Payouts.Rpc, confirmations: nat) {
    && rpc.head == |chain| - 1
    && (forall n: nat :: Past(rpc, n) <==> FilledBy(chain, n, |chain| - 1))
    && (forall b :: rpc.hashAt(b).Some? ==> 0 <= b < |chain| && chain[b] == rpc.hashAt(b).value)
    && (forall raw :: rpc.receipt(raw).Some? ==>
          raw.nonce in rpc.receipt(raw).value.hash.mined &&
          rpc.receipt(raw).value.hash.mined[raw.nonce] == Payouts.Mined(raw, rpc.receipt(raw).value.ok))
    && (forall raw, b, ok :: MinedAt(chain, b, raw, ok) && rpc.head - b >= confirmations ==> rpc.receipt(raw).Some?)
  }

  // ---- runs ---------------------------------------------------------------------------------

  /** `final` counts the blocks that were once `confirmations` deep and can no longer change. */
  datatype World = World(vault: Vault, sent: seq<(nat, RawTx)>, chain: Chain, final: nat)

  datatype Event =
    | Reserve(request: Withdrawal)                    // create_withdrawal commits a row
    | Elsewhere(txs: seq<LedgerTx>, next: nat)        // other services post; other outboxes take nonces
    | Sign(signer: Signer)                            // phase 1 commits (or rolls back)
    | Send(accepts: RawTx -> bool)                    // phase 2 commits
    | SendCrash(accepts: RawTx -> bool, after: nat)   // phase 2 dies after some sends; its updates are lost
    | Confirm(rpc: Payouts.Rpc)                       // phase 3 commits (or rolls back)
    | Reorg(chain: Chain)                             // the chain grows or is reorganised

  /** The run's fixed parameters. */
  datatype Setup = Setup(address: string, confirmations: nat)

  function Gate(s: Setup): Payouts.Gate {
    Payouts.Gate(s.confirmations, true)
  }

  function Next(w: World, s: Setup, e: Event): World {
    match e
    case Reserve(request) => w.(vault := w.vault.(requests := w.vault.requests + [request]))
    case Elsewhere(txs, next) =>
      w.(vault := w.vault.(txs := txs, hotNonce := Some(HotWalletNonce(s.address, next))))
    case Sign(signer) =>
      (match SignPending(w.vault, signer)
       case Aborted(_) => w
       case Done(v) => w.(vault := v))
    case Send(accepts) =>
      var b := BroadcastRows(Sending(w.vault.requests, w.sent), Queue(w), accepts);
      w.(vault := w.vault.(requests := b.requests), sent := b.sent)
    case SendCrash(accepts, after) =>
      w.(sent := BroadcastRows(Sending(w.vault.requests, w.sent), Queue(w)[..Min(after, |Queue(w)|)], accepts).sent)
    case Confirm(rpc) =>
      (match ConfirmRows(w.vault, |w.vault.requests|, rpc, Gate(s))
       case Aborted(_) => w
       case Done(v) => w.(vault := v))
    case Reorg(chain) => w.(chain := chain, final := Max(w.final, |chain| - s.confirmations))
  }

  function Queue(w: World): seq<nat> {
    SigningQueue(w.vault.requests)
  }

  /** What the environment may do. */
  ghost predicate Allowed(w: World, s: Setup, e: Event) {
    Permitted(w, s, e) && SlotsKept(w, e)
  }

  /** All but the kept slots: requests start fresh, the RPC is faithful, final blocks stay. */
  ghost predicate Permitted(w: World, s: Setup, e: Event) {
    match e
    case Reserve(request) => request.out == FRESH_OUTBOX
    case Elsewhere(_, next) => w.vault.hotNonce.Some? ==> w.vault.hotNonce.value.nextNonce <= next
    case Sign(signer) => signer.address == s.address
    case Send(_) => true
    case SendCrash(_, _) => true
    case Confirm(rpc) => Faithful(w.chain, rpc, s.confirmations)
    case Reorg(chain) =>
      WellFormed(chain) && w.final <= |chain| && w.final <= |w.chain| && chain[..w.final] == w.chain[..w.final]
  }

  /** While a row's grace marker is set, a reorg does not empty its nonce slot below the marked block again. */
  ghost predicate SlotsKept(w: World, e: Event) {
    e.Reorg? ==> forall i :: 0 <= i < |w.vault.requests| ==> SlotKept(w.vault.requests[i].out, w.chain, e.chain)
  }

  ghost predicate SlotKept(o: Outbox, before: Chain, after: Chain) {
    o.status.Broadcast? && o.nonce.Some? && o.unminedSince.Some? ==>
      (FilledBy(before, o.nonce.value, o.unminedSince.value) ==> FilledBy(after, o.nonce.value, o.unminedSince.value))
  }

  const EMPTY := World(Vault([], [], None), [], [], 0)

  function Run(s: Setup, events: seq<Event>): World {
    if events == [] then EMPTY else Next(Run(s, events[..|events| - 1]), s, events[|events| - 1])
  }

  ghost predicate AllowedRun(s: Setup, events: seq<Event>) {
    events == [] ||
    (AllowedRun(s, events[..|events| - 1]) && Allowed(Run(s, events[..|events| - 1]), s, events[|events| - 1]))
  }

  // ---- the invariant ------------------------------------------------------------------------

  /** A final block consumed the payout's nonce, by the payout succeeding (`paid`) or otherwise. */
  ghost predicate Sealed(chain: Chain, final: nat, raw: RawTx, paid: bool) {
    exists b :: b < final && Fills(chain, b, raw.nonce) &&
      ((chain[b].mined[raw.nonce] == Payouts.Mined(raw, true)) <==> paid)
  }

  ghost predicate RowOk(o: Outbox, chain: Chain, final: nat, counter: Option<HotWalletNonce>) {
    && !o.status.Rejected?
    && (o.status.Requested? || o.status.Approved? ==> o.signedTx.None?)
    && (o.status.Signing? || o.status.Broadcast? || o.status.Confirmed? ==> o.signedTx.Some?)
    && (o.signedTx.Some? ==>
          o.nonce == Some(o.signedTx.value.nonce) && o.txHash == o.signedTx &&
          counter.Some? && o.signedTx.value.nonce < counter.value.nextNonce)
    && (o.unminedSince.Some? ==> o.status.Broadcast? || o.status.Failed?)
    && (o.unminedSince.Some? && o.status.Broadcast? ==> FilledBy(chain, o.nonce.value, o.unminedSince.value))
    && (o.status.Failed? && o.signedTx.Some? ==> Sealed(chain, final, o.signedTx.value, false))
    && (o.status.Confirmed? ==> Sealed(chain, final, o.signedTx.value, true))
  }

  ghost predicate RowsOk(v: Vault, chain: Chain, final: nat) {
    forall i :: 0 <= i < |v.requests| ==> RowOk(v.requests[i].out, chain, final, v.hotNonce)
  }

  predicate DistinctNonces(requests: seq<Withdrawal>) {
    forall i, j :: 0 <= i < j < |requests| && requests[i].out.signedTx.Some? && requests[j].out.signedTx.Some? ==>
      requests[i].out.signedTx.value.nonce != requests[j].out.signedTx.value.nonce
  }

  predicate SentOk(sent: seq<(nat, RawTx)>, requests: seq<Withdrawal>) {
    forall k :: 0 <= k < |sent| ==>
      sent[k].0 < |requests| && requests[sent[k].0].out.signedTx == Some(sent[k].1)
  }

  ghost predicate Ok(w: World, s: Setup) {
    && WellFormed(w.chain) && w.final <= |w.chain| && |w.chain| - s.confirmations <= w.final
    && (w.vault.hotNonce.Some? ==> w.vault.hotNonce.value.address == s.address)
    && RowsOk(w.vault, w.chain, w.final)
    && DistinctNonces(w.vault.requests)
    && SentOk(w.sent, w.vault.requests)
  }

  predicate Terminal(o: Outbox) {
    o.status.Confirmed? || o.status.Failed?
  }

  /** From `v` to `u`: signed payloads and terminal rows stay as they are. */
  ghost predicate Extends(v: Vault, u: Vault) {
    && |v.requests| <= |u.requests|
    && (forall i :: 0 <= i < |v.requests| && v.requests[i].out.signedTx.Some? ==>
          u.requests[i].out.signedTx == v.requests[i].out.signedTx)
    && (forall i :: 0 <= i < |v.requests| && Terminal(v.requests[i].out) ==>
          u.requests[i].out == v.requests[i].out)
  }

  // ---- phase 1 ------------------------------------------------------------------------------

  lemma SignRowKeeps(v: Vault, i: nat, signer: Signer, chain: Chain, final: nat)
    requires i < |v.requests| && v.hotNonce.Some? && Pending(v.requests[i])
    requires RowsOk(v, chain, final) && DistinctNonces(v.requests) && SignRow(v, i, signer).Done?
    ensures var u := SignRow(v, i, signer).value;
      && |u.requests| == |v.requests| && u.hotNonce.Some? && u.hotNonce.value.address == v.hotNonce.value.address
      && RowsOk(u, chain, final) && DistinctNonces(u.requests) && Extends(v, u)
      && (forall j :: 0 <= j < |v.requests| && j != i ==> u.requests[j] == v.requests[j])
  {
  }

  /** From `v` to `u` signing the rows `ids` kept everything this module relies on. */
  ghost predicate SigningKept(v: Vault, u: Vault, ids: seq<nat>, chain: Chain, final: nat) {
    && v.hotNonce.Some? && u.hotNonce.Some? && u.hotNonce.value.address == v.hotNonce.value.address
    && |u.requests| == |v.requests| && RowsOk(u, chain, final) && DistinctNonces(u.requests) && Extends(v, u)
    && (forall j: nat :: j < |v.requests| && j !in ids ==> u.requests[j] == v.requests[j])
  }

  lemma SignOneMore(v: Vault, m: Vault, ids: seq<nat>, i: nat, signer: Signer, chain: Chain, final: nat)
    requires SigningKept(v, m, ids, chain, final)
    requires i < |v.requests| && i !in ids && Pending(v.requests[i]) && SignRow(m, i, signer).Done?
    ensures SigningKept(v, SignRow(m, i, signer).value, ids + [i], chain, final)
  {
    hide SignRow, RowsOk, DistinctNonces, Terminal;
    SignRowKeeps(m, i, signer, chain, final);
  }

  lemma {:induction false} SignRowsKeep(v: Vault, ids: seq<nat>, signer: Signer, chain: Chain, final: nat)
    requires v.hotNonce.Some? && RowsOk(v, chain, final) && DistinctNonces(v.requests)
    requires forall k :: 0 <= k < |ids| ==> ids[k] < |v.requests| && Pending(v.requests[ids[k]])
    requires forall j, k :: 0 <= j < k < |ids| ==> ids[j] < ids[k]
    requires SignRows(v, ids, signer).Done?
    ensures SigningKept(v, SignRows(v, ids, signer).value, ids, chain, final)
    decreases |ids|
  {
    if ids == [] {
      return;
    }
    hide SignRow, SigningKept, RowsOk, DistinctNonces;
    var front, last := ids[..|ids| - 1], ids[|ids| - 1];
    SignRowsKeep(v, front, signer, chain, final);
    assert last !in front && ids == front + [last];
    SignOneMore(v, SignRows(v, front, signer).value, front, last, signer, chain, final);
  }

  lemma SignKeeps(w: World, s: Setup, signer: Signer)
    requires Ok(w, s) && signer.address == s.address
    ensures Ok(Next(w, s, Sign(signer)), s) && Extends(w.vault, Next(w, s, Sign(signer)).vault)
  {
    var ids := Claimed(w.vault.requests, signer.locked, signer.batch);
    if ids != [] && SignPending(w.vault, signer).Done? {
      var v := w.vault.(hotNonce := Some(Nonce.Reconciled(w.vault.hotNonce, signer.address, signer.chainNonce)));
      assert RowsOk(v, w.chain, w.final);
      SignRowsKeep(v, ids, signer, w.chain, w.final);
    }
  }

  /** Replacing one row's outbox by another good one with the same payload. */
  lemma OneRowKeeps(v: Vault, u: Vault, i: nat, o: Outbox, chain: Chain, final: nat)
    requires i < |v.requests| && RowsOk(v, chain, final) && DistinctNonces(v.requests)
    requires u.requests == v.requests[i := v.requests[i].(out := o)] && u.hotNonce == v.hotNonce
    requires RowOk(o, chain, final, v.hotNonce) && o.signedTx == v.requests[i].out.signedTx
    requires v.requests[i].out.status.Confirmed? || v.requests[i].out.status.Failed? ==> o == v.requests[i].out
    ensures RowsOk(u, chain, final) && DistinctNonces(u.requests) && Extends(v, u)
  {
    hide RowOk;
  }

  // ---- phase 2 ------------------------------------------------------------------------------

  predicate SamePayloads(a: seq<Withdrawal>, b: seq<Withdrawal>) {
    |a| == |b| && forall i :: 0 <= i < |a| ==> a[i].out.signedTx == b[i].out.signedTx
  }

  lemma BroadcastRowKeeps(b: Sending, i: nat, accepts: RawTx -> bool, v: Vault, chain: Chain, final: nat)
    requires v.requests == b.requests && RowsOk(v, chain, final) && DistinctNonces(b.requests)
      && SentOk(b.sent, b.requests)
    requires i < |b.requests| && b.requests[i].out.status.Signing?
    ensures var c := BroadcastRow(b, i, accepts);
      && RowsOk(v.(requests := c.requests), chain, final) && DistinctNonces(c.requests)
      && SentOk(c.sent, c.requests) && SamePayloads(b.requests, c.requests)
      && Extends(v, v.(requests := c.requests))
      && c.requests == b.requests[i := c.requests[i]]
  {
    var c := BroadcastRow(b, i, accepts);
    assert RowOk(b.requests[i].out, chain, final, v.hotNonce);
    assert b.requests[i].(out := b.requests[i].out) == b.requests[i] && b.requests[i := b.requests[i]] == b.requests;
    OneRowKeeps(v, v.(requests := c.requests), i, c.requests[i].out, chain, final);
  }

  lemma {:induction false} BroadcastRowsKeep(b: Sending, ids: seq<nat>, accepts: RawTx -> bool, v: Vault,
                                             chain: Chain, final: nat)
    requires v.requests == b.requests && RowsOk(v, chain, final) && DistinctNonces(b.requests)
      && SentOk(b.sent, b.requests)
    requires forall k :: 0 <= k < |ids| ==> ids[k] < |b.requests| && b.requests[ids[k]].out.status.Signing?
    requires forall j, k :: 0 <= j < k < |ids| ==> ids[j] != ids[k]
    ensures var c := BroadcastRows(b, ids, accepts);
      && RowsOk(v.(requests := c.requests), chain, final) && DistinctNonces(c.requests)
      && SentOk(c.sent, c.requests) && SamePayloads(b.requests, c.requests)
      && Extends(v, v.(requests := c.requests))
      && (forall j: nat :: j < |b.requests| && j !in ids ==> c.requests[j] == b.requests[j])
    decreases |ids|
  {
    hide RowOk, BroadcastRow;
    if ids == [] {
    } else {
      var front, last := ids[..|ids| - 1], ids[|ids| - 1];
      BroadcastRowsKeep(b, front, accepts, v, chain, final);
      assert last !in front;
      var m := BroadcastRows(b, front, accepts);
      BroadcastRowKeeps(m, last, accepts, v.(requests := m.requests), chain, final);
      assert ids == front + [last];
    }
  }

  lemma SendKeeps(w: World, s: Setup, accepts: RawTx -> bool)
    requires Ok(w, s)
    ensures Ok(Next(w, s, Send(accepts)), s) && Extends(w.vault, Next(w, s, Send(accepts)).vault)
  {
    assert forall k :: 0 <= k < |Queue(w)| ==> Queue(w)[k] in Queue(w);
    BroadcastRowsKeep(Sending(w.vault.requests, w.sent), Queue(w), accepts, w.vault, w.chain, w.final);
  }

  lemma SendCrashKeeps(w: World, s: Setup, accepts: RawTx -> bool, after: nat)
    requires Ok(w, s)
    ensures Ok(Next(w, s, SendCrash(accepts, after)), s)
  {
    assert forall k :: 0 <= k < |Queue(w)| ==> Queue(w)[k] in Queue(w);
    var ids := Queue(w)[..Min(after, |Queue(w)|)];
    assert forall k :: 0 <= k < |ids| ==> ids[k] in Queue(w);
    BroadcastRowsKeep(Sending(w.vault.requests, w.sent), ids, accepts, w.vault, w.chain, w.final);
  }

  // ---- phase 3 ------------------------------------------------------------------------------

  /** The heart of the grace gate: what a settle or a refund knows about the final chain. */
  lemma VerdictIsSound(o: Outbox, chain: Chain, final: nat, counter: Option<HotWalletNonce>, rpc: Payouts.Rpc, s: Setup)
    requires RowOk(o, chain, final, counter) && o.status.Broadcast?
    requires WellFormed(chain) && |chain| - s.confirmations <= final <= |chain| && Faithful(chain, rpc, s.confirmations)
    ensures var (after, verdict) := Payouts.Judged(o, rpc, Gate(s));
      && (verdict.Settle? ==> Sealed(chain, final, o.signedTx.value, true))
      && (verdict.Refund? ==> Sealed(chain, final, o.signedTx.value, false))
      && (verdict.Keep? && after.unminedSince.Some? ==> FilledBy(chain, o.nonce.value, after.unminedSince.value))
  {
    var raw := o.signedTx.value;
    assert Past(rpc, raw.nonce) <==> FilledBy(chain, raw.nonce, |chain| - 1);
    var verdict := Payouts.Judged(o, rpc, Gate(s)).1;
    match rpc.receipt(raw)
    case Some(r) =>
      if !verdict.Keep? {
        assert chain[r.block] == r.hash;
        assert r.block < final && Fills(chain, r.block, raw.nonce);
      }
    case None =>
      if verdict.Refund? {
        var b :| b <= o.unminedSince.value && Fills(chain, b, raw.nonce);
        assert rpc.head - b >= s.confirmations;
        assert !MinedAt(chain, b, raw, true);
        assert b < final;
      }
  }

  lemma ConcludedOk(o: Outbox, chain: Chain, final: nat, counter: Option<HotWalletNonce>, rpc: Payouts.Rpc, s: Setup)
    requires RowOk(o, chain, final, counter)
    requires WellFormed(chain) && |chain| - s.confirmations <= final <= |chain| && Faithful(chain, rpc, s.confirmations)
    ensures RowOk(Payouts.Concluded(o, rpc, Gate(s)), chain, final, counter)
  {
    hide Sealed, FilledBy, WellFormed, Faithful;
    if o.status.Broadcast? {
      VerdictIsSound(o, chain, final, counter, rpc, s);
    }
  }

  lemma ConfirmRowKeeps(v: Vault, i: nat, rpc: Payouts.Rpc, s: Setup, chain: Chain, final: nat)
    requires i < |v.requests| && ConfirmRow(v, i, rpc, Gate(s)).Done?
    requires RowsOk(v, chain, final) && DistinctNonces(v.requests)
    requires WellFormed(chain) && |chain| - s.confirmations <= final <= |chain| && Faithful(chain, rpc, s.confirmations)
    ensures var u := ConfirmRow(v, i, rpc, Gate(s)).value;
      && |u.requests| == |v.requests| && u.hotNonce == v.hotNonce
      && RowsOk(u, chain, final) && DistinctNonces(u.requests) && Extends(v, u)
  {
    hide RowOk, WellFormed, Faithful;
    var o, u := Payouts.Concluded(v.requests[i].out, rpc, Gate(s)), ConfirmRow(v, i, rpc, Gate(s)).value;
    ConcludedOk(v.requests[i].out, chain, final, v.hotNonce, rpc, s);
    assert u.requests == v.requests[i := v.requests[i].(out := o)];
    OneRowKeeps(v, u, i, o, chain, final);
  }

  lemma {:induction false} ConfirmRowsKeep(v: Vault, n: nat, rpc: Payouts.Rpc, s: Setup, chain: Chain, final: nat)
    requires n <= |v.requests| && ConfirmRows(v, n, rpc, Gate(s)).Done?
    requires RowsOk(v, chain, final) && DistinctNonces(v.requests)
    requires WellFormed(chain) && |chain| - s.confirmations <= final <= |chain| && Faithful(chain, rpc, s.confirmations)
    ensures var u := ConfirmRows(v, n, rpc, Gate(s)).value;
      u.hotNonce == v.hotNonce && RowsOk(u, chain, final) && DistinctNonces(u.requests) && Extends(v, u)
    decreases n
  {
    hide ConfirmRow, RowOk, WellFormed, Faithful;
    if n == 0 {
    } else {
      ConfirmRowsKeep(v, n - 1, rpc, s, chain, final);
      ConfirmRowKeeps(ConfirmRows(v, n - 1, rpc, Gate(s)).value, n - 1, rpc, s, chain, final);
    }
  }

  // ---- the environment ----------------------------------------------------------------------

  /** One row across a reorg that keeps the final blocks and the row's slot. */
  lemma RowSurvivesReorg(o: Outbox, before: Chain, final: nat, after: Chain, final': nat,
                         counter: Option<HotWalletNonce>)
    requires RowOk(o, before, final, counter) && SlotKept(o, before, after)
    requires final <= final' && final <= |before| && final <= |after| && after[..final] == before[..final]
    ensures RowOk(o, after, final', counter)
  {
    assert forall b :: 0 <= b < final ==> after[..final][b] == before[..final][b];
    if o.status.Confirmed? || (o.status.Failed? && o.signedTx.Some?) {
      SealStays(before, final, after, final', o.signedTx.value, o.status.Confirmed?);
    }
  }

  lemma ReorgKeeps(w: World, s: Setup, chain: Chain)
    requires Ok(w, s) && Allowed(w, s, Reorg(chain))
    ensures Ok(Next(w, s, Reorg(chain)), s)
  {
    var w' := Next(w, s, Reorg(chain));
    forall i | 0 <= i < |w.vault.requests|
      ensures RowOk(w.vault.requests[i].out, chain, w'.final, w.vault.hotNonce)
    {
      RowSurvivesReorg(w.vault.requests[i].out, w.chain, w.final, chain, w'.final, w.vault.hotNonce);
    }
  }

  lemma SealStays(before: Chain, final: nat, after: Chain, final': nat, raw: RawTx, paid: bool)
    requires Sealed(before, final, raw, paid) && final <= final' && final <= |before| && final <= |after|
    requires forall b :: 0 <= b < final ==> after[b] == before[b]
    ensures Sealed(after, final', raw, paid)
  {
    var b :| b < final && Fills(before, b, raw.nonce) &&
      ((before[b].mined[raw.nonce] == Payouts.Mined(raw, true)) <==> paid);
    assert Fills(after, b, raw.nonce);
  }

  lemma NextKeeps(w: World, s: Setup, e: Event)
    requires Ok(w, s) && Allowed(w, s, e)
    ensures Ok(Next(w, s, e), s) && Extends(w.vault, Next(w, s, e).vault)
  {
    match e
    case Reserve(_) =>
    case Elsewhere(_, _) =>
    case Sign(signer) => SignKeeps(w, s, signer);
    case Send(accepts) => SendKeeps(w, s, accepts);
    case SendCrash(accepts, after) => SendCrashKeeps(w, s, accepts, after);
    case Confirm(rpc) =>
      if ConfirmRows(w.vault, |w.vault.requests|, rpc, Gate(s)).Done? {
        ConfirmRowsKeep(w.vault, |w.vault.requests|, rpc, s, w.chain, w.final);
      }
    case Reorg(chain) => ReorgKeeps(w, s, chain);
  }

  lemma {:induction false} RunOk(s: Setup, events: seq<Event>)
    requires AllowedRun(s, events)
    ensures Ok(Run(s, events), s)
    decreases |events|
  {
    if events == [] {
    } else {
      var front := events[..|events| - 1];
      RunOk(s, front);
      NextKeeps(Run(s, front), s, events[|events| - 1]);
    }
  }

  // ---- the theorems -------------------------------------------------------------------------

  /** A sealed nonce decides for good whether the payout is paid. */
  lemma SealDecides(chain: Chain, final: nat, raw: RawTx, paid: bool)
    requires WellFormed(chain) && Sealed(chain, final, raw, paid)
    ensures PaidOn(chain, raw) <==> paid
  {
    var b :| b < final && Fills(chain, b, raw.nonce) &&
      ((chain[b].mined[raw.nonce] == Payouts.Mined(raw, true)) <==> paid);
    if paid {
      assert MinedAt(chain, b, raw, true);
    }
    if PaidOn(chain, raw) {
      var c :| MinedAt(chain, c, raw, true);
      assert Fills(chain, c, raw.nonce);
    }
  }

  /**
   * Refund xor payout, in every reachable state: a CONFIRMED request's signed transaction is mined
   * and succeeded, a FAILED request's signed transaction (if it has one) is not.
   */
  lemma RefundXorPayout(s: Setup, events: seq<Event>, i: nat)
    requires AllowedRun(s, events) && i < |Run(s, events).vault.requests|
    ensures var w := Run(s, events);
      var o := w.vault.requests[i].out;
      && (o.status.Confirmed? ==> o.signedTx.Some? && PaidOn(w.chain, o.signedTx.value))
      && (o.status.Failed? && o.signedTx.Some? ==> !PaidOn(w.chain, o.signedTx.value))
  {
    RunOk(s, events);
    var w := Run(s, events);
    var o := w.vault.requests[i].out;
    assert RowOk(o, w.chain, w.final, w.vault.hotNonce);
    if o.status.Confirmed? {
      SealDecides(w.chain, w.final, o.signedTx.value, true);
    } else if o.status.Failed? && o.signedTx.Some? {
      SealDecides(w.chain, w.final, o.signedTx.value, false);
    }
  }

  /**
   * At most one payout transaction per request, and none shared: everything ever handed to the network
   * for a request is its one persisted transaction, and no two requests use the same nonce.
   */
  lemma OnePayoutPerRequest(s: Setup, events: seq<Event>, j: nat, k: nat)
    requires AllowedRun(s, events) && j < |Run(s, events).sent| && k < |Run(s, events).sent|
    ensures var w := Run(s, events);
      var (a, b) := (w.sent[j], w.sent[k]);
      && a.0 < |w.vault.requests| && w.vault.requests[a.0].out.signedTx == Some(a.1)
      && (a.0 == b.0 <==> a.1.nonce == b.1.nonce)
      && (a.0 == b.0 <==> a.1 == b.1)
  {
    RunOk(s, events);
  }

  /** What was signed stays signed as it was, and a terminal row is never touched again. */
  lemma {:induction false} SignedForever(s: Setup, events: seq<Event>, k: nat)
    requires AllowedRun(s, events) && k <= |events|
    ensures Extends(Run(s, events[..k]).vault, Run(s, events).vault)
    decreases |events|
  {
    if k == |events| {
      assert events[..k] == events;
    } else {
      var front := events[..|events| - 1];
      assert front[..k] == events[..k];
      SignedForever(s, front, k);
      RunOk(s, front);
      NextKeeps(Run(s, front), s, events[|events| - 1]);
    }
  }

  // ---- the kept slot cannot be dropped ------------------------------------------------------

  ghost predicate PermittedRun(s: Setup, events: seq<Event>) {
    events == [] ||
    (PermittedRun(s, events[..|events| - 1]) && Permitted(Run(s, events[..|events| - 1]), s, events[|events| - 1]))
  }

  /** A FAILED request, refunded, whose signed transaction is mined and succeeded. */
  ghost predicate RefundedThoughPaid(w: World, i: nat) {
    && i < |w.vault.requests| && w.vault.requests[i].out.status.Failed? && w.vault.requests[i].out.signedTx.Some?
    && PaidOn(w.chain, w.vault.requests[i].out.signedTx.value)
  }

  const ONE_BLOCK := Setup("hot", 1)
  const PAYOUT := RawTx(SendNative("to", 1), 0, 0)
  const RIVAL := RawTx(SendNative("other", 1), 0, 0)
  const REQUEST := Withdrawal(0, 0, "to", 1, FRESH_OUTBOX)
  const SIGNER := Signer([Native], "hot", 0, 0, (i: nat) => Signs, {}, 1)
  const BEFORE: Chain := [Payouts.Block(0, map[0 := Payouts.Mined(RIVAL, true)])]
  const AFTER: Chain := [Payouts.Block(1, map[]), Payouts.Block(2, map[0 := Payouts.Mined(PAYOUT, true)])]

  /** An RPC that shows no receipts yet; nonce 0 is mined. */
  function Blind(head: int): Payouts.Rpc {
    Payouts.Rpc(head, (raw: RawTx) => None, (b: int) => None, 1)
  }

  /** A rival fills the slot, the grace window opens, a reorg swaps the rival for the payout itself. */
  const SWAP := [Reserve(REQUEST), Sign(SIGNER), Send((raw: RawTx) => true),
                 Reorg(BEFORE), Confirm(Blind(0)), Reorg(AFTER), Confirm(Blind(1))]

  ghost predicate SwapAt(k: nat, w: World) {
    k <= |SWAP| && PermittedRun(ONE_BLOCK, SWAP[..k]) && Run(ONE_BLOCK, SWAP[..k]) == w
  }

  lemma SwapStep(k: nat, w: World, e: Event, v: World)
    requires SwapAt(k, w) && k < |SWAP| && SWAP[k] == e && Permitted(w, ONE_BLOCK, e) && Next(w, ONE_BLOCK, e) == v
    ensures SwapAt(k + 1, v)
  {
    hide Next, Permitted;
    assert SWAP[..k + 1][..k] == SWAP[..k];
  }

  lemma SwapStarts()
    ensures SwapAt(0, EMPTY)
  {
    assert SWAP[..0] == [];
  }

  function OneRow(o: Outbox): Vault {
    Vault([], [REQUEST.(out := o)], Some(HotWalletNonce("hot", 1)))
  }

  const SIGNED_ROW := Outbox(Signing, Some(0), Some(PAYOUT), Some(PAYOUT), None, 1)

  lemma SwapSigns()
    ensures SignPending(Vault([], [REQUEST], None), SIGNER) == Done(OneRow(SIGNED_ROW))
  {
    var v := Vault([], [REQUEST], None);
    assert Outs(v.requests) == [FRESH_OUTBOX] && [FRESH_OUTBOX][..0] == [];
    assert Claimed(v.requests, {}, 1) == [0];
    var w := v.(hotNonce := Some(HotWalletNonce("hot", 0)));
    assert [0][..0] == [];
    assert SignRows(w, [0], SIGNER) == SignRow(w, 0, SIGNER);
    assert SignRow(w, 0, SIGNER) == Done(OneRow(SIGNED_ROW)) by {
      var tried := WithOut(w, 0, REQUEST.out.(attempts := 1));
      assert tried.requests[0 := tried.requests[0].(out := SIGNED_ROW)] == OneRow(SIGNED_ROW).requests;
      assert Payouts.SignedOutbox(tried.requests[0].out, PAYOUT) == SIGNED_ROW;
    }
  }

  lemma SwapSends()
    ensures SigningQueue(OneRow(SIGNED_ROW).requests) == [0]
    ensures BroadcastRows(Sending(OneRow(SIGNED_ROW).requests, []), [0], (raw: RawTx) => true)
      == Sending(OneRow(SIGNED_ROW.(status := Broadcast)).requests, [(0, PAYOUT)])
  {
    assert Outs(OneRow(SIGNED_ROW).requests) == [SIGNED_ROW];
    assert [0][..0] == [];
  }

  lemma SwapChains()
    ensures WellFormed(BEFORE) && WellFormed(AFTER) && Faithful(BEFORE, Blind(0), 1) && Faithful(AFTER, Blind(1), 1)
    ensures PaidOn(AFTER, PAYOUT)
  {
    assert Fills(BEFORE, 0, 0) && Fills(AFTER, 1, 0);
    assert MinedAt(AFTER, 1, PAYOUT, true);
    forall n: nat
      ensures Past(Blind(0), n) <==> FilledBy(BEFORE, n, 0)
      ensures Past(Blind(1), n) <==> FilledBy(AFTER, n, 1)
    {
    }
  }

  /** One row, broadcast and without a receipt: the first pass marks it, the second refunds it. */
  lemma SwapConfirms()
    ensures var o := SIGNED_ROW.(status := Broadcast);
      && ConfirmRows(OneRow(o), 1, Blind(0), Gate(ONE_BLOCK)) == Done(OneRow(o.(unminedSince := Some(0))))
      && (var r := ConfirmRows(OneRow(o.(unminedSince := Some(0))), 1, Blind(1), Gate(ONE_BLOCK));
          && r.Done? && |r.value.requests| == 1
          && r.value.requests[0].out == o.(unminedSince := Some(0), status := Failed))
  {
    var o := SIGNED_ROW.(status := Broadcast);
    var v, marked := OneRow(o), OneRow(o.(unminedSince := Some(0)));
    assert ConfirmRows(v, 0, Blind(0), Gate(ONE_BLOCK)) == Done(v);
    assert WithOut(v, 0, o.(unminedSince := Some(0))) == marked;
    assert ConfirmRow(v, 0, Blind(0), Gate(ONE_BLOCK)) == Done(marked);
    assert ConfirmRows(marked, 0, Blind(1), Gate(ONE_BLOCK)) == Done(marked);
    Ledger.MovePosts([], ReversalType, Keys.WithdrawalReverse(0), System(WithdrawalsReserved, 0), Wallet(0, 0), 0, 1,
      WithdrawalRef(0));
    assert WithOut(marked, 0, marked.requests[0].out) == marked;
  }

  ghost predicate LosingRun(s: Setup, events: seq<Event>, i: nat) {
    PermittedRun(s, events) && RefundedThoughPaid(Run(s, events), i)
  }

  /**
   * The kept-slot assumption cannot be dropped: there is a run, permitted in every other respect, in which
   * the reorg empties the slot inside the grace window and mines the payout itself one block later, where
   * its receipt may still be invisible; the next pass refunds a payout that is on chain.
   */
  lemma EmptiedSlotRefundsAPaidPayout()
    ensures exists s, events, i :: LosingRun(s, events, i)
  {
    hide PermittedRun, Run, SignPending, BroadcastRows, ConfirmRows, SigningQueue, Faithful, WellFormed;
    SwapStarts();
    SwapSigns();
    SwapSends();
    SwapChains();
    SwapConfirms();
    var sent := SIGNED_ROW.(status := Broadcast);
    var marked := sent.(unminedSince := Some(0));
    var w1 := World(Vault([], [REQUEST], None), [], [], 0);
    var w2 := w1.(vault := OneRow(SIGNED_ROW));
    var w3 := w2.(vault := OneRow(sent), sent := [(0, PAYOUT)]);
    var w4 := w3.(chain := BEFORE);
    var w5 := w4.(vault := OneRow(marked));
    var w6 := w5.(chain := AFTER, final := 1);
    SwapStep(0, EMPTY, Reserve(REQUEST), w1);
    SwapStep(1, w1, Sign(SIGNER), w2);
    SwapStep(2, w2, Send((raw: RawTx) => true), w3);
    SwapStep(3, w3, Reorg(BEFORE), w4);
    SwapStep(4, w4, Confirm(Blind(0)), w5);
    SwapStep(5, w5, Reorg(AFTER), w6);
    SwapStep(6, w6, Confirm(Blind(1)), Next(w6, ONE_BLOCK, Confirm(Blind(1))));
    assert SWAP[..7] == SWAP;
    assert LosingRun(ONE_BLOCK, SWAP, 0);
  }
}
