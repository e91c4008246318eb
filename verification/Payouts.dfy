/**
 * The part of a payout that the fungible and the NFT outbox share: the chain as the RPC reports it,
 * and the decision to settle, refund or wait. The decision rests on the grace marker
 * `unminedSince`, which this module relates to the whole history of observations.
 */
module Payouts {
  import opened Wrappers
  import opened Tables

  /** A transaction in a block, filed under the hot wallet's nonce it consumed. */
  datatype Mined = Mined(tx: RawTx, ok: bool)

  /** A block also stands for its own hash: block hashing is collision-free. */
  datatype Block = Block(salt: int, mined: map<nat, Mined>)

  datatype Receipt = Receipt(block: int, hash: Block, ok: bool)

  /** What one confirm pass is told about the chain. */
  datatype Rpc = Rpc(head: int, receipt: RawTx -> Option<Receipt>, hashAt: int -> Option<Block>, latestNonce: nat)

  datatype Verdict = Keep | Settle | Refund

  /** `hotWalletKnown` is false when the caller passed no hot-wallet address. */
  datatype Gate = Gate(confirmations: int, hotWalletKnown: bool)

  /** A broadcast row without a receipt: pending, dropped, or mined on a lagging node. */
  function Reconciled(o: Outbox, rpc: Rpc, gate: Gate): (Outbox, Verdict) {
    if !gate.hotWalletKnown || o.nonce.None? then (o, Keep)
    else if rpc.latestNonce <= o.nonce.value then (o.(unminedSince := None), Keep)
    else if o.unminedSince.None? then (o.(unminedSince := Some(rpc.head)), Keep)
    else if rpc.head - o.unminedSince.value >= gate.confirmations then (o, Refund)
    else (o, Keep)
  }

  /** A row of the confirm pass: its columns after the look at the chain, and the verdict. */
  function Judged(o: Outbox, rpc: Rpc, gate: Gate): (Outbox, Verdict) {
    if !o.status.Broadcast? || o.txHash.None? then (o, Keep)
    else match rpc.receipt(o.txHash.value)
      case None => Reconciled(o, rpc, gate)
      case Some(r) =>
        var cleared := o.(unminedSince := None);
        if rpc.head - r.block < gate.confirmations then (cleared, Keep)
        else if rpc.hashAt(r.block) != Some(r.hash) then (cleared, Keep)
        else (cleared, if r.ok then Settle else Refund)
  }

  function Closed(o: Outbox, verdict: Verdict): Outbox {
    match verdict
    case Keep => o
    case Settle => o.(status := Confirmed)
    case Refund => o.(status := Failed)
  }

  function Concluded(o: Outbox, rpc: Rpc, gate: Gate): Outbox {
    Closed(Judged(o, rpc, gate).0, Judged(o, rpc, gate).1)
  }

  /** The branches of a confirm pass as the workers take them, one column assignment at a time. */
  method Confirm(o: Outbox, rpc: Rpc, gate: Gate) returns (row: Outbox, verdict: Verdict)
    ensures (row, verdict) == Judged(o, rpc, gate)
  {
    row, verdict := o, Keep;
    if !o.status.Broadcast? || o.txHash.None? {
      return;
    }
    var receipt := rpc.receipt(o.txHash.value);
    if receipt.None? {
      if !gate.hotWalletKnown || o.nonce.None? {
        return;
      }
      if rpc.latestNonce <= o.nonce.value {
        row := row.(unminedSince := None);
        return;
      }
      if row.unminedSince.None? {
        row := row.(unminedSince := Some(rpc.head));
        return;
      }
      if rpc.head - row.unminedSince.value >= gate.confirmations {
        verdict := Refund;
      }
      return;
    }
    row := row.(unminedSince := None);
    if rpc.head - receipt.value.block < gate.confirmations {
      return;
    }
    var canonical := rpc.hashAt(receipt.value.block);
    if canonical.None? || canonical.value != receipt.value.hash {
      return;
    }
    verdict := if receipt.value.ok then Settle else Refund;
  }

  // ---- what a pass must conclude -------------------------------------------------------------

  /** The receipt lies in a canonical block at least `confirmations` deep. */
  predicate Buried(rpc: Rpc, r: Receipt, confirmations: int) {
    rpc.head - r.block >= confirmations && rpc.hashAt(r.block) == Some(r.hash)
  }

  /** The nonce was consumed although no receipt shows, and has been for `confirmations` blocks. */
  predicate Overdue(o: Outbox, rpc: Rpc, gate: Gate) {
    && gate.hotWalletKnown && o.nonce.Some? && rpc.latestNonce > o.nonce.value
    && o.unminedSince.Some? && rpc.head - o.unminedSince.value >= gate.confirmations
  }

  /**
   * What a confirm pass has to make of a BROADCAST row. With a receipt: CONFIRMED or FAILED as the receipt
   * says once it is buried, and until then open without a marker. Without one: FAILED exactly if overdue.
   */
  predicate Concludes(before: Outbox, after: Outbox, rpc: Rpc, gate: Gate)
    requires before.txHash.Some?
  {
    match rpc.receipt(before.txHash.value)
    case Some(r) =>
      if Buried(rpc, r, gate.confirmations)
      then after == before.(unminedSince := None, status := if r.ok then Confirmed else Failed)
      else after == before.(unminedSince := None)
    case None =>
      && after == before.(unminedSince := after.unminedSince, status := after.status)
      && after.status == (if Overdue(before, rpc, gate) then Failed else Broadcast)
  }

  lemma ConcludedExactly(o: Outbox, rpc: Rpc, gate: Gate)
    ensures if o.status.Broadcast? && o.txHash.Some? then Concludes(o, Concluded(o, rpc, gate), rpc, gate)
      else Concluded(o, rpc, gate) == o
  {
  }

  // ---- claiming, signing and queueing rows --------------------------------------------------

  predicate Pending(o: Outbox) {
    o.status.Requested? || o.status.Approved?
  }

  /** Neither paid nor given up. */
  predicate InFlight(o: Outbox) {
    Pending(o) || o.status.Signing? || o.status.Broadcast?
  }

  /** The oldest pending rows that no other worker holds (SKIP LOCKED), at most `batch` of them. */
  function Claimed(outs: seq<Outbox>, locked: set<nat>, batch: nat): (ids: seq<nat>)
    ensures |ids| <= batch
    ensures forall k :: 0 <= k < |ids| ==> ids[k] < |outs| && Pending(outs[ids[k]]) && ids[k] !in locked
    ensures forall j, k :: 0 <= j < k < |ids| ==> ids[j] < ids[k]
    ensures |ids| < batch ==> forall i :: 0 <= i < |outs| && Pending(outs[i]) && i !in locked ==> i in ids
    ensures forall i, k :: 0 <= k < |ids| && 0 <= i < ids[k] && Pending(outs[i]) && i !in locked ==> i in ids
  {
    if outs == [] then [] else
      var last := |outs| - 1;
      var front := Claimed(outs[..last], locked, batch);
      if Pending(outs[last]) && last !in locked && |front| < batch then front + [last] else front
  }

  function SignedOutbox(o: Outbox, raw: RawTx): Outbox {
    o.(signedTx := Some(raw), txHash := Some(raw), nonce := Some(raw.nonce), status := Signing)
  }

  /** Outbox rows and the counter they draw nonces from. */
  datatype Batch = Batch(outs: seq<Outbox>, next: nat)

  /** One claimed row of an outbox that only retries failed signings. */
  function SignOut(b: Batch, i: nat, call: nat -> Call, signs: nat -> bool, gasPrice: nat): Batch
    requires i < |b.outs|
  {
    var tried := b.outs[i].(attempts := b.outs[i].attempts + 1);
    if signs(i) then Batch(b.outs[i := SignedOutbox(tried, RawTx(call(i), b.next, gasPrice))], b.next + 1)
    else b.(outs := b.outs[i := tried])
  }

  function SignOuts(b: Batch, ids: seq<nat>, call: nat -> Call, signs: nat -> bool, gasPrice: nat): (r: Batch)
    requires forall k :: 0 <= k < |ids| ==> ids[k] < |b.outs|
    ensures |r.outs| == |b.outs|
  {
    if ids == [] then b
    else SignOut(SignOuts(b, ids[..|ids| - 1], call, signs, gasPrice), ids[|ids| - 1], call, signs, gasPrice)
  }

  /** The rows among `ids` hold exactly the nonces from `base` up to `next`, one row each. */
  ghost predicate Allocated(outs: seq<Outbox>, ids: seq<nat>, base: nat, next: nat)
    requires forall k :: 0 <= k < |ids| ==> ids[k] < |outs|
  {
    && base <= next
    && (forall k :: 0 <= k < |ids| && outs[ids[k]].status.Signing? ==>
          outs[ids[k]].nonce.Some? && base <= outs[ids[k]].nonce.value < next)
    && (forall j, k :: 0 <= j < k < |ids| && outs[ids[j]].status.Signing? && outs[ids[k]].status.Signing? ==>
          outs[ids[j]].nonce != outs[ids[k]].nonce)
    && (forall n: nat :: base <= n < next ==> HoldsNonce(outs, ids, n))
  }

  ghost predicate HoldsNonce(outs: seq<Outbox>, ids: seq<nat>, n: nat)
    requires forall k :: 0 <= k < |ids| ==> ids[k] < |outs|
  {
    exists k :: 0 <= k < |ids| && outs[ids[k]].status.Signing? && outs[ids[k]].nonce == Some(n)
  }

  /** Adding one row that was signed at the counter, or was not signed, keeps the allocation exact. */
  lemma AllocateOne(outs: seq<Outbox>, ids: seq<nat>, base: nat, next: nat, i: nat, o: Outbox)
    requires forall k :: 0 <= k < |ids| ==> ids[k] < |outs|
    requires Allocated(outs, ids, base, next) && i < |outs| && i !in ids
    requires o.status.Signing? ==> o.nonce == Some(next)
    ensures Allocated(outs[i := o], ids + [i], base, if o.status.Signing? then next + 1 else next)
  {
    var outs', ids' := outs[i := o], ids + [i];
    forall k | 0 <= k < |ids|
      ensures outs'[ids'[k]] == outs[ids[k]]
    {
      assert ids[k] in ids;
    }
    forall n: nat | base <= n < next
      ensures HoldsNonce(outs', ids', n)
    {
      assert HoldsNonce(outs, ids, n);
      var k :| 0 <= k < |ids| && outs[ids[k]].status.Signing? && outs[ids[k]].nonce == Some(n);
      assert ids'[k] == ids[k];
    }
    if o.status.Signing? {
      assert ids'[|ids|] == i && outs'[i].nonce == Some(next);
    }
  }

  lemma SignOneAllocates(b: Batch, m: Batch, ids: seq<nat>, i: nat, call: nat -> Call, signs: nat -> bool,
                         gasPrice: nat)
    requires |m.outs| == |b.outs| && forall k :: 0 <= k < |ids| ==> ids[k] < |b.outs|
    requires Allocated(m.outs, ids, b.next, m.next) && i < |b.outs| && i !in ids && Pending(m.outs[i])
    ensures var r := SignOut(m, i, call, signs, gasPrice);
      Allocated(r.outs, ids + [i], b.next, r.next) &&
      forall j: nat :: j < |b.outs| && j != i ==> r.outs[j] == m.outs[j]
  {
    hide Allocated;
    AllocateOne(m.outs, ids, b.next, m.next, i, SignOut(m, i, call, signs, gasPrice).outs[i]);
  }

  /** A signing pass draws consecutive nonces, one per signature; a failed signing consumes none. */
  lemma {:induction false} SignOutsAllocate(b: Batch, ids: seq<nat>, call: nat -> Call, signs: nat -> bool,
                                            gasPrice: nat)
    requires forall k :: 0 <= k < |ids| ==> ids[k] < |b.outs| && Pending(b.outs[ids[k]])
    requires forall j, k :: 0 <= j < k < |ids| ==> ids[j] < ids[k]
    ensures var r := SignOuts(b, ids, call, signs, gasPrice);
      Allocated(r.outs, ids, b.next, r.next) &&
      forall j: nat :: j < |b.outs| && j !in ids ==> r.outs[j] == b.outs[j]
    decreases |ids|
  {
    if ids == [] {
      return;
    }
    hide Allocated, SignOut;
    var front, last := ids[..|ids| - 1], ids[|ids| - 1];
    SignOutsAllocate(b, front, call, signs, gasPrice);
    assert last !in front && ids == front + [last];
    SignOneAllocates(b, SignOuts(b, front, call, signs, gasPrice), front, last, call, signs, gasPrice);
  }

  /** A row and the nonce a signing pass gave it. */
  datatype Draw = Draw(row: nat, nonce: nat)

  function NoncesOf(draws: seq<Draw>): seq<nat> {
    seq(|draws|, k requires 0 <= k < |draws| => draws[k].nonce)
  }

  lemma NoncesConcat(a: seq<Draw>, b: seq<Draw>)
    ensures NoncesOf(a + b) == NoncesOf(a) + NoncesOf(b)
  {
  }

  /** The rows among the claimed ones `ids` that a pass signed, with the nonces they hold. */
  function Drawn(outs: seq<Outbox>, ids: seq<nat>): seq<Draw>
    requires forall k :: 0 <= k < |ids| ==> ids[k] < |outs|
  {
    if ids == [] then [] else
      var last := ids[|ids| - 1];
      Drawn(outs, ids[..|ids| - 1]) + Held(outs[last], last)
  }

  function Held(o: Outbox, row: nat): seq<Draw> {
    if o.status.Signing? && o.nonce.Some? then [Draw(row, o.nonce.value)] else []
  }

  lemma {:induction false} DrawnElsewhere(outs: seq<Outbox>, ids: seq<nat>, i: nat, o: Outbox)
    requires forall k :: 0 <= k < |ids| ==> ids[k] < |outs|
    requires i < |outs| && i !in ids
    ensures Drawn(outs[i := o], ids) == Drawn(outs, ids)
    decreases |ids|
  {
    if ids == [] {
    } else {
      var front, last := ids[..|ids| - 1], ids[|ids| - 1];
      assert ids == front + [last];
      DrawnElsewhere(outs, front, i, o);
    }
  }

  lemma DrawOne(outs: seq<Outbox>, ids: seq<nat>, i: nat, o: Outbox)
    requires forall k :: 0 <= k < |ids| ==> ids[k] < |outs|
    requires i < |outs| && i !in ids
    ensures Drawn(outs[i := o], ids + [i]) == Drawn(outs, ids) + Held(o, i)
  {
    assert (ids + [i])[..|ids|] == ids;
    DrawnElsewhere(outs, ids, i, o);
  }

  /** From `b` to `r` the rows `ids` drew the nonces `b.next`, `b.next + 1`, ... and the others stayed. */
  ghost predicate OutsDrew(b: Batch, r: Batch, ids: seq<nat>)
    requires |r.outs| == |b.outs| && forall k :: 0 <= k < |ids| ==> ids[k] < |b.outs|
  {
    var draws := Drawn(r.outs, ids);
    && r.next == b.next + |draws|
    && (forall k :: 0 <= k < |draws| ==> draws[k].nonce == b.next + k)
    && (forall j: nat :: j < |b.outs| && j !in ids ==> r.outs[j] == b.outs[j])
  }

  lemma SignOutDraws(b: Batch, m: Batch, ids: seq<nat>, i: nat, call: nat -> Call, signs: nat -> bool, gasPrice: nat)
    requires |m.outs| == |b.outs| && forall k :: 0 <= k < |ids| ==> ids[k] < |b.outs|
    requires OutsDrew(b, m, ids) && i < |b.outs| && i !in ids && Pending(b.outs[i])
    ensures OutsDrew(b, SignOut(m, i, call, signs, gasPrice), ids + [i])
  {
    hide Drawn;
    DrawOne(m.outs, ids, i, SignOut(m, i, call, signs, gasPrice).outs[i]);
  }

  /** A signing pass draws consecutive nonces in the order of the rows it signs. */
  lemma {:induction false} SignOutsDraw(b: Batch, ids: seq<nat>, call: nat -> Call, signs: nat -> bool, gasPrice: nat)
    requires forall k :: 0 <= k < |ids| ==> ids[k] < |b.outs| && Pending(b.outs[ids[k]])
    requires forall j, k :: 0 <= j < k < |ids| ==> ids[j] < ids[k]
    ensures OutsDrew(b, SignOuts(b, ids, call, signs, gasPrice), ids)
    decreases |ids|
  {
    if ids == [] {
      return;
    }
    hide SignOut, OutsDrew;
    var front, last := ids[..|ids| - 1], ids[|ids| - 1];
    SignOutsDraw(b, front, call, signs, gasPrice);
    assert last !in front && ids == front + [last];
    SignOutDraws(b, SignOuts(b, front, call, signs, gasPrice), front, last, call, signs, gasPrice);
  }

  /** `o` may be broadcast before `p`: by nonce, rows without one last. */
  predicate NonceOrder(o: Outbox, p: Outbox) {
    p.nonce.None? || (o.nonce.Some? && o.nonce.value <= p.nonce.value)
  }

  predicate ByNonce(outs: seq<Outbox>, ids: seq<nat>) {
    && (forall k :: 0 <= k < |ids| ==> ids[k] < |outs|)
    && (forall j, k :: 0 <= j < k < |ids| ==> ids[j] != ids[k] && NonceOrder(outs[ids[j]], outs[ids[k]]))
  }

  function InsertByNonce(outs: seq<Outbox>, ids: seq<nat>, i: nat): (r: seq<nat>)
    requires ByNonce(outs, ids) && i < |outs| && i !in ids
    ensures ByNonce(outs, r)
    ensures forall x :: x in r <==> x in ids || x == i
  {
    if ids == [] then [i]
    else
      var front, last := ids[..|ids| - 1], ids[|ids| - 1];
      assert ids == front + [last];
      if NonceOrder(outs[last], outs[i]) then
        LastInOrder(outs, front, last, i);
        ids + [i]
      else
        var inserted := InsertByNonce(outs, front, i);
        LastStaysLast(outs, inserted, front, last, i);
        inserted + [last]
  }

  lemma LastInOrder(outs: seq<Outbox>, front: seq<nat>, last: nat, i: nat)
    requires last < |outs| && i < |outs| && ByNonce(outs, front + [last])
    requires i !in front + [last] && NonceOrder(outs[last], outs[i])
    ensures ByNonce(outs, front + [last] + [i])
  {
    var ids := front + [last];
    forall j | 0 <= j < |ids|
      ensures ids[j] != i && NonceOrder(outs[ids[j]], outs[i])
    {
      assert ids[j] in ids;
      assert j < |front| ==> NonceOrder(outs[ids[j]], outs[ids[|front|]]);
    }
  }

  lemma LastStaysLast(outs: seq<Outbox>, inserted: seq<nat>, front: seq<nat>, last: nat, i: nat)
    requires last < |outs| && i < |outs| && i != last && ByNonce(outs, front + [last]) && ByNonce(outs, inserted)
    requires !NonceOrder(outs[last], outs[i]) && forall x :: x in inserted <==> x in front || x == i
    ensures ByNonce(outs, inserted + [last])
  {
    forall j | 0 <= j < |inserted|
      ensures inserted[j] != last && NonceOrder(outs[inserted[j]], outs[last])
    {
      assert inserted[j] in inserted;
      if inserted[j] != i {
        var k :| 0 <= k < |front| && front[k] == inserted[j];
        var ids := front + [last];
        assert ids[k] == front[k] && ids[|front|] == last;
      }
    }
  }

  /** The SIGNING rows among the first `n`, in nonce order. */
  function SigningQueue(outs: seq<Outbox>, n: nat): (ids: seq<nat>)
    requires n <= |outs|
    ensures ByNonce(outs, ids)
    ensures forall i: nat :: i in ids <==> i < n && outs[i].status.Signing?
  {
    if n == 0 then []
    else
      var front := SigningQueue(outs, n - 1);
      if outs[n - 1].status.Signing? then InsertByNonce(outs, front, n - 1) else front
  }

  // ---- the marker and the history of observations -------------------------------------------

  /** A run of completed confirm passes over one row. */
  function Watched(o: Outbox, passes: seq<Rpc>, gate: Gate): Outbox {
    if passes == [] then o
    else Concluded(Watched(o, passes[..|passes| - 1], gate), passes[|passes| - 1], gate)
  }

  /** No receipt although the mined nonce is past ours. */
  predicate Superseded(o: Outbox, rpc: Rpc)
    requires o.txHash.Some? && o.nonce.Some?
  {
    rpc.receipt(o.txHash.value).None? && rpc.latestNonce > o.nonce.value
  }

  /** `k` starts the longest suffix of passes that all saw the payout superseded. */
  ghost predicate SuffixStart(o: Outbox, passes: seq<Rpc>, k: int)
    requires o.txHash.Some? && o.nonce.Some?
  {
    && 0 <= k < |passes|
    && (forall j :: k <= j < |passes| ==> Superseded(o, passes[j]))
    && (k > 0 ==> !Superseded(o, passes[k - 1]))
  }

  predicate JustBroadcast(o: Outbox) {
    o.status.Broadcast? && o.txHash.Some? && o.nonce.Some? && o.unminedSince.None?
  }

  lemma {:induction false} WatchedKeepsPayout(o: Outbox, passes: seq<Rpc>, gate: Gate)
    ensures var w := Watched(o, passes, gate);
      w.txHash == o.txHash && w.nonce == o.nonce && w.signedTx == o.signedTx
    decreases |passes|
  {
    if passes == [] {
    } else {
      WatchedKeepsPayout(o, passes[..|passes| - 1], gate);
    }
  }

  /** How one pass moves the marker of a row it leaves open. */
  lemma MarkerStep(o: Outbox, rpc: Rpc, gate: Gate)
    requires o.txHash.Some? && o.nonce.Some? && gate.hotWalletKnown && Concluded(o, rpc, gate).status.Broadcast?
    ensures o.status.Broadcast?
    ensures Concluded(o, rpc, gate).unminedSince
      == if !Superseded(o, rpc) then None else if o.unminedSince.Some? then o.unminedSince else Some(rpc.head)
  {
  }

  /** The superseded suffix began at head `u`. */
  ghost predicate StartsAt(o: Outbox, passes: seq<Rpc>, u: int)
    requires o.txHash.Some? && o.nonce.Some?
  {
    exists k :: SuffixStart(o, passes, k) && passes[k].head == u
  }

  predicate LastSuperseded(o: Outbox, passes: seq<Rpc>)
    requires o.txHash.Some? && o.nonce.Some?
  {
    passes != [] && Superseded(o, passes[|passes| - 1])
  }

  /** The marker is Some(u) exactly when the current superseded suffix began at head u. */
  lemma {:induction false} MarkerIsSuffixStart(o: Outbox, passes: seq<Rpc>, gate: Gate)
    requires JustBroadcast(o) && gate.hotWalletKnown
    requires Watched(o, passes, gate).status.Broadcast?
    ensures forall u :: Watched(o, passes, gate).unminedSince == Some(u) <==> StartsAt(o, passes, u)
    decreases |passes|
  {
    if passes == [] {
      return;
    }
    var front, rpc := passes[..|passes| - 1], passes[|passes| - 1];
    WatchedStep(o, front, rpc, gate);
    hide Concluded, StartsAt, Superseded, Watched;
    assert passes == front + [rpc];
    WatchedKeepsPayout(o, front, gate);
    MarkerStep(Watched(o, front, gate), rpc, gate);
    SupersededAlike(o, Watched(o, front, gate), rpc);
    MarkerIsSuffixStart(o, front, gate);
    MarkerAdvances(o, front, rpc, Watched(o, front, gate).unminedSince);
  }

  lemma WatchedStep(o: Outbox, front: seq<Rpc>, rpc: Rpc, gate: Gate)
    ensures Watched(o, front + [rpc], gate) == Concluded(Watched(o, front, gate), rpc, gate)
  {
    assert (front + [rpc])[..|front|] == front;
  }

  lemma SupersededAlike(o: Outbox, p: Outbox, rpc: Rpc)
    requires o.txHash.Some? && o.nonce.Some? && p.txHash == o.txHash && p.nonce == o.nonce
    ensures Superseded(o, rpc) <==> Superseded(p, rpc)
  {
  }

  /** The step on the marker alone. */
  lemma MarkerAdvances(o: Outbox, front: seq<Rpc>, rpc: Rpc, marker: Option<int>)
    requires o.txHash.Some? && o.nonce.Some?
    requires forall u :: marker == Some(u) <==> StartsAt(o, front, u)
    ensures var moved := if !Superseded(o, rpc) then None else if marker.Some? then marker else Some(rpc.head);
      forall u :: moved == Some(u) <==> StartsAt(o, front + [rpc], u)
  {
    hide StartsAt, Superseded, LastSuperseded;
    StartsExist(o, front);
    forall u
      ensures StartsAt(o, front + [rpc], u) <==>
        Superseded(o, rpc) && if LastSuperseded(o, front) then StartsAt(o, front, u) else u == rpc.head
    {
      StartsStep(o, front, rpc, u);
    }
    if marker.Some? {
      assert StartsAt(o, front, marker.value);
    }
  }

  lemma StartsExist(o: Outbox, passes: seq<Rpc>)
    requires o.txHash.Some? && o.nonce.Some?
    ensures (exists u :: StartsAt(o, passes, u)) <==> LastSuperseded(o, passes)
  {
    SuffixExists(o, passes);
    if LastSuperseded(o, passes) {
      var k :| SuffixStart(o, passes, k);
      assert StartsAt(o, passes, passes[k].head);
    }
  }

  lemma StartsStep(o: Outbox, front: seq<Rpc>, rpc: Rpc, u: int)
    requires o.txHash.Some? && o.nonce.Some?
    ensures StartsAt(o, front + [rpc], u) <==>
      Superseded(o, rpc) && if LastSuperseded(o, front) then StartsAt(o, front, u) else u == rpc.head
  {
    hide Superseded;
    var passes := front + [rpc];
    assert passes[|front|] == rpc;
    if Superseded(o, rpc) {
      SuffixStep(o, front, rpc);
      if LastSuperseded(o, front) {
        if StartsAt(o, front, u) {
          var k :| SuffixStart(o, front, k) && front[k].head == u;
          assert SuffixStart(o, passes, k) && passes[k].head == u;
        }
      } else {
        assert SuffixStart(o, passes, |front|);
      }
    }
  }

  /** One more superseded pass leaves the start of a superseded suffix where it was, or starts one. */
  lemma SuffixStep(o: Outbox, front: seq<Rpc>, rpc: Rpc)
    requires o.txHash.Some? && o.nonce.Some? && Superseded(o, rpc)
    ensures forall k :: SuffixStart(o, front + [rpc], k) <==>
      (if LastSuperseded(o, front) then SuffixStart(o, front, k) else k == |front|)
    ensures forall k :: SuffixStart(o, front, k) ==> (front + [rpc])[k] == front[k]
  {
    hide Superseded;
    var passes := front + [rpc];
    assert forall j :: 0 <= j < |front| ==> passes[j] == front[j];
    assert passes[|front|] == rpc;
    forall k | SuffixStart(o, passes, k)
      ensures if LastSuperseded(o, front) then SuffixStart(o, front, k) else k == |front|
    {
      if k < |front| {
        assert Superseded(o, passes[|front| - 1]);
      }
    }
  }

  /** A suffix starts somewhere exactly when the latest pass saw the payout superseded. */
  lemma SuffixExists(o: Outbox, passes: seq<Rpc>)
    requires o.txHash.Some? && o.nonce.Some?
    ensures (exists k :: SuffixStart(o, passes, k)) <==> LastSuperseded(o, passes)
  {
    if LastSuperseded(o, passes) {
      assert SuffixStart(o, passes, SomeSuffix(o, passes));
    }
  }

  ghost function SomeSuffix(o: Outbox, passes: seq<Rpc>): (k: int)
    requires o.txHash.Some? && o.nonce.Some?
    requires LastSuperseded(o, passes)
    ensures SuffixStart(o, passes, k)
    decreases |passes|
  {
    var front := passes[..|passes| - 1];
    if LastSuperseded(o, front) then SomeSuffix(o, front) else |front|
  }

  /** A suffix of superseded passes whose heads span at least `confirmations` blocks. */
  ghost predicate DroppedFor(o: Outbox, passes: seq<Rpc>, confirmations: int)
    requires o.txHash.Some? && o.nonce.Some?
  {
    exists k :: SuffixStart(o, passes, k) && k < |passes| - 1
      && passes[|passes| - 1].head - passes[k].head >= confirmations
  }

  /**
   * A payout without a receipt is refunded by the pass `rpc` exactly when an unbroken run of passes,
   * ending in this one and spanning `confirmations` blocks, saw it superseded.
   */
  lemma DropNeedsUnbrokenSuffix(o: Outbox, passes: seq<Rpc>, rpc: Rpc, gate: Gate)
    requires JustBroadcast(o) && gate.hotWalletKnown
    requires Watched(o, passes, gate).status.Broadcast? && rpc.receipt(o.txHash.value).None?
    ensures Judged(Watched(o, passes, gate), rpc, gate).1 == Refund <==>
      DroppedFor(o, passes + [rpc], gate.confirmations)
  {
    var before, all := Watched(o, passes, gate), passes + [rpc];
    var n := |passes|;
    WatchedKeepsPayout(o, passes, gate);
    MarkerIsSuffixStart(o, passes, gate);
    if Judged(before, rpc, gate).1 == Refund {
      var k :| SuffixStart(o, passes, k) && passes[k].head == before.unminedSince.value;
      assert SuffixStart(o, all, k) && k < n;
    }
    if DroppedFor(o, all, gate.confirmations) {
      var k :| SuffixStart(o, all, k) && k < n && rpc.head - all[k].head >= gate.confirmations;
      assert Superseded(o, all[n]);
      assert forall j :: k <= j < n ==> passes[j] == all[j];
      assert SuffixStart(o, passes, k);
      assert before.unminedSince == Some(passes[k].head);
    }
  }
}
