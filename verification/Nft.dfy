/**
 * NFT custody: internal transfers of a holding and its exclusive withdrawal outbox, plus the signing
 * phase of the mint outbox. Each endpoint call is one step here; `NftRace` takes it apart.
 */
module Nft {
  import opened Wrappers
  import opened Sums
  import opened Tables
  import Nonce
  import Payouts

  datatype Desk = Desk(holdings: seq<Holding>, transfers: seq<NftTransfer>, requests: seq<NftWithdrawal>)

  datatype Denial = NoRecipient | ToYourself | NftNotFound | RateLimited | BadAddress

  /** `id` is the row answered with: a new one, or the one this client key created before. */
  datatype Reply = Accepted(id: nat) | AcceptedBefore(id: nat) | Denied(reason: Denial)

  // ---- the endpoints ------------------------------------------------------------------------

  /** The scoped key of a transfer is its sender and the client's key. */
  function FindTransfer(transfers: seq<NftTransfer>, sender: nat, client: string): (r: Option<nat>)
    ensures r.Some? ==>
      (r.value < |transfers| && transfers[r.value].sender == sender && transfers[r.value].client == client)
    ensures r.None? ==> forall i :: 0 <= i < |transfers| ==>
      transfers[i].sender != sender || transfers[i].client != client
  {
    if transfers == [] then None else
      var last := |transfers| - 1;
      if transfers[last].sender == sender && transfers[last].client == client then Some(last)
      else FindTransfer(transfers[..last], sender, client)
  }

  function FindRequest(requests: seq<NftWithdrawal>, user: nat, client: string): (r: Option<nat>)
    ensures r.Some? ==>
      (r.value < |requests| && requests[r.value].user == user && requests[r.value].client == client)
    ensures r.None? ==> forall i :: 0 <= i < |requests| ==> requests[i].user != user || requests[i].client != client
  {
    if requests == [] then None else
      var last := |requests| - 1;
      if requests[last].user == user && requests[last].client == client then Some(last)
      else FindRequest(requests[..last], user, client)
  }

  predicate HeldBy(holdings: seq<Holding>, nft: nat, user: nat) {
    nft < |holdings| && holdings[nft].user == user && holdings[nft].status.Held?
  }

  function Transfer(d: Desk, sender: nat, recipient: Option<nat>, nft: nat, client: string): (Desk, Reply) {
    match FindTransfer(d.transfers, sender, client)
    case Some(id) => (d, AcceptedBefore(id))
    case None =>
      if recipient.None? then (d, Denied(NoRecipient))
      else if recipient.value == sender then (d, Denied(ToYourself))
      else if !HeldBy(d.holdings, nft, sender) then (d, Denied(NftNotFound))
      else
        (d.(holdings := d.holdings[nft := d.holdings[nft].(user := recipient.value)],
            transfers := d.transfers + [NftTransfer(nft, sender, recipient.value, client)]),
         Accepted(|d.transfers|))
  }

  datatype RequestArgs = RequestArgs(user: nat, nft: nat, to: string, client: string, limited: bool, validAddress: bool)

  function Request(d: Desk, a: RequestArgs): (Desk, Reply) {
    match FindRequest(d.requests, a.user, a.client)
    case Some(id) => (d, AcceptedBefore(id))
    case None =>
      if a.limited then (d, Denied(RateLimited))
      else if !a.validAddress then (d, Denied(BadAddress))
      else if !HeldBy(d.holdings, a.nft, a.user) then (d, Denied(NftNotFound))
      else
        var h := d.holdings[a.nft];
        (d.(holdings := d.holdings[a.nft := h.(status := Withdrawing)],
            requests := d.requests + [NftWithdrawal(a.user, a.nft, h.contract, h.token, a.to, a.client, FRESH_OUTBOX)]),
         Accepted(|d.requests|))
  }

  method TransferNft(session: Session, sender: nat, recipient: Option<nat>, nft: nat, client: string)
    returns (reply: Reply)
    modifies session`holdings, session`nftTransfers
    ensures (DeskOf(session), reply) == Transfer(old(DeskOf(session)), sender, recipient, nft, client)
  {
    var existing := FindTransfer(session.nftTransfers, sender, client);
    if existing.Some? {
      return AcceptedBefore(existing.value);
    }
    if recipient.None? {
      return Denied(NoRecipient);
    }
    if recipient.value == sender {
      return Denied(ToYourself);
    }
    if !HeldBy(session.holdings, nft, sender) {
      return Denied(NftNotFound);
    }
    session.holdings := session.holdings[nft := session.holdings[nft].(user := recipient.value)];
    session.nftTransfers := session.nftTransfers + [NftTransfer(nft, sender, recipient.value, client)];
    return Accepted(|session.nftTransfers| - 1);
  }

  method RequestWithdrawal(session: Session, a: RequestArgs) returns (reply: Reply)
    modifies session`holdings, session`nftRequests
    ensures (DeskOf(session), reply) == Request(old(DeskOf(session)), a)
  {
    var existing := FindRequest(session.nftRequests, a.user, a.client);
    if existing.Some? {
      return AcceptedBefore(existing.value);
    }
    if a.limited {
      return Denied(RateLimited);
    }
    if !a.validAddress {
      return Denied(BadAddress);
    }
    if !HeldBy(session.holdings, a.nft, a.user) {
      return Denied(NftNotFound);
    }
    var h := session.holdings[a.nft];
    session.holdings := session.holdings[a.nft := h.(status := Withdrawing)];
    session.nftRequests := session.nftRequests +
      [NftWithdrawal(a.user, a.nft, h.contract, h.token, a.to, a.client, FRESH_OUTBOX)];
    return Accepted(|session.nftRequests| - 1);
  }

  function DeskOf(session: Session): Desk
    reads session
  {
    Desk(session.holdings, session.nftTransfers, session.nftRequests)
  }

  // ---- the outbox phases --------------------------------------------------------------------

  function Outs(requests: seq<NftWithdrawal>): seq<Outbox> {
    seq(|requests|, i requires 0 <= i < |requests| => requests[i].out)
  }

  /** The requests with other outbox columns; everything else stays. */
  function WithOuts(requests: seq<NftWithdrawal>, outs: seq<Outbox>): seq<NftWithdrawal>
    requires |outs| == |requests|
  {
    seq(|requests|, i requires 0 <= i < |requests| => requests[i].(out := outs[i]))
  }

  function MintOuts(mints: seq<NftMint>): seq<Outbox> {
    seq(|mints|, i requires 0 <= i < |mints| => mints[i].out)
  }

  function WithMintOuts(mints: seq<NftMint>, outs: seq<Outbox>): seq<NftMint>
    requires |outs| == |mints|
  {
    seq(|mints|, i requires 0 <= i < |mints| => mints[i].(out := outs[i]))
  }

  /** The oracles of one signing pass. */
  datatype Signer = Signer(address: string, chainNonce: nat, gasPrice: nat, signs: nat -> bool, locked: set<nat>,
                           batch: nat)

  /** The pass on bare outbox rows: claim, reconcile the shared counter, sign. */
  function SignPass(outs: seq<Outbox>, row: Option<HotWalletNonce>, call: nat -> Call, s: Signer)
    : (r: (seq<Outbox>, Option<HotWalletNonce>))
    ensures |r.0| == |outs|
  {
    var ids := Payouts.Claimed(outs, s.locked, s.batch);
    if ids == [] then (outs, row)
    else
      var counter := Nonce.Reconciled(row, s.address, s.chainNonce);
      var b := Payouts.SignOuts(Payouts.Batch(outs, counter.nextNonce), ids, call, s.signs, s.gasPrice);
      (b.outs, Some(counter.(nextNonce := b.next)))
  }

  function TransferCall(requests: seq<NftWithdrawal>): nat -> Call {
    (i: nat) => if i < |requests| then SendErc721(requests[i].contract, requests[i].to, requests[i].token)
                else SendErc721("", "", "")
  }

  function MintCall(mints: seq<NftMint>): nat -> Call {
    (i: nat) => if i < |mints| then MintErc721(mints[i].contract, mints[i].to) else MintErc721("", "")
  }

  /** Signing one more claimed row changes that row's outbox columns and the counter only. */
  lemma SignedNext(b: Payouts.Batch, ids: seq<nat>, k: nat, call: nat -> Call, s: Signer)
    requires k < |ids| && forall j :: 0 <= j < |ids| ==> ids[j] < |b.outs|
    ensures var m := Payouts.SignOuts(b, ids[..k], call, s.signs, s.gasPrice);
      var r := Payouts.SignOuts(b, ids[..k + 1], call, s.signs, s.gasPrice);
      var tried := m.outs[ids[k]].(attempts := m.outs[ids[k]].attempts + 1);
      var out :=
        if s.signs(ids[k]) then Payouts.SignedOutbox(tried, RawTx(call(ids[k]), m.next, s.gasPrice)) else tried;
      && r.outs == m.outs[ids[k] := out]
      && r.next == if s.signs(ids[k]) then m.next + 1 else m.next
  {
    assert ids[..k + 1][..k] == ids[..k];
  }

  lemma NothingSigned(b: Payouts.Batch, call: nat -> Call, s: Signer)
    ensures Payouts.SignOuts(b, [], call, s.signs, s.gasPrice) == b
  {
  }

  lemma ClaimsInRange(outs: seq<Outbox>, s: Signer)
    ensures var ids := Payouts.Claimed(outs, s.locked, s.batch); forall k :: 0 <= k < |ids| ==> ids[k] < |outs|
  {
  }

  method SignPendingWithdrawals(session: Session, s: Signer)
    modifies session`nftRequests, session`hotNonce
    ensures var (outs, row) := SignPass(Outs(old(session.nftRequests)), old(session.hotNonce),
        TransferCall(old(session.nftRequests)), s);
      session.nftRequests == WithOuts(old(session.nftRequests), outs) && session.hotNonce == row
  {
    hide Payouts.Claimed, Payouts.SignOuts, Payouts.SignedOutbox;
    ghost var start := session.nftRequests;
    var ids := Payouts.Claimed(Outs(session.nftRequests), s.locked, s.batch);
    ClaimsInRange(Outs(start), s);
    assert WithOuts(start, Outs(start)) == start;
    if ids == [] {
      return;
    }
    var counter := Nonce.NonceRow(session, s.address, s.chainNonce);
    ghost var b := Payouts.Batch(Outs(start), counter.nextNonce);
    var next := counter.nextNonce;
    NothingSigned(b, TransferCall(start), s);
    for k := 0 to |ids|
      invariant session.nftRequests == WithOuts(start,
        Payouts.SignOuts(b, ids[..k], TransferCall(start), s.signs, s.gasPrice).outs)
      invariant next == Payouts.SignOuts(b, ids[..k], TransferCall(start), s.signs, s.gasPrice).next
    {
      SignedNext(b, ids, k, TransferCall(start), s);
      var i := ids[k];
      var r := session.nftRequests[i];
      r := r.(out := r.out.(attempts := r.out.attempts + 1));
      if s.signs(i) {
        var raw := RawTx(SendErc721(r.contract, r.to, r.token), next, s.gasPrice);
        r := r.(out := Payouts.SignedOutbox(r.out, raw));
        next := next + 1;
      }
      session.nftRequests := session.nftRequests[i := r];
    }
    assert ids[..|ids|] == ids;
    session.hotNonce := Some(counter.(nextNonce := next));
  }

  method SignPendingMints(session: Session, s: Signer)
    modifies session`mints, session`hotNonce
    ensures var (outs, row) := SignPass(MintOuts(old(session.mints)), old(session.hotNonce),
        MintCall(old(session.mints)), s);
      session.mints == WithMintOuts(old(session.mints), outs) && session.hotNonce == row
  {
    hide Payouts.Claimed, Payouts.SignOuts, Payouts.SignedOutbox;
    ghost var start := session.mints;
    var ids := Payouts.Claimed(MintOuts(session.mints), s.locked, s.batch);
    ClaimsInRange(MintOuts(start), s);
    assert WithMintOuts(start, MintOuts(start)) == start;
    if ids == [] {
      return;
    }
    var counter := Nonce.NonceRow(session, s.address, s.chainNonce);
    ghost var b := Payouts.Batch(MintOuts(start), counter.nextNonce);
    var next := counter.nextNonce;
    NothingSigned(b, MintCall(start), s);
    for k := 0 to |ids|
      invariant session.mints == WithMintOuts(start,
        Payouts.SignOuts(b, ids[..k], MintCall(start), s.signs, s.gasPrice).outs)
      invariant next == Payouts.SignOuts(b, ids[..k], MintCall(start), s.signs, s.gasPrice).next
    {
      SignedNext(b, ids, k, MintCall(start), s);
      var i := ids[k];
      var r := session.mints[i];
      r := r.(out := r.out.(attempts := r.out.attempts + 1));
      if s.signs(i) {
        r := r.(out := Payouts.SignedOutbox(r.out, RawTx(MintErc721(r.contract, r.to), next, s.gasPrice)));
        next := next + 1;
      }
      session.mints := session.mints[i := r];
    }
    assert ids[..|ids|] == ids;
    session.hotNonce := Some(counter.(nextNonce := next));
  }

  function BroadcastOut(o: Outbox, accepts: RawTx -> bool): Outbox {
    if o.status.Signing? && o.signedTx.Some? && accepts(o.signedTx.value)
    then o.(txHash := o.signedTx, status := Broadcast) else o
  }

  function BroadcastPass(requests: seq<NftWithdrawal>, accepts: RawTx -> bool): seq<NftWithdrawal> {
    seq(|requests|, i requires 0 <= i < |requests| => requests[i].(out := BroadcastOut(requests[i].out, accepts)))
  }

  method BroadcastSignedWithdrawals(session: Session, accepts: RawTx -> bool)
    modifies session`nftRequests
    ensures session.nftRequests == BroadcastPass(old(session.nftRequests), accepts)
  {
    var ids := Payouts.SigningQueue(Outs(session.nftRequests), |session.nftRequests|);
    ghost var start := session.nftRequests;
    for k := 0 to |ids|
      invariant |session.nftRequests| == |start|
      invariant forall i: nat :: i < |start| ==>
        session.nftRequests[i] ==
          if i in ids[..k] then start[i].(out := BroadcastOut(start[i].out, accepts)) else start[i]
    {
      var i := ids[k];
      assert i in ids && i !in ids[..k];
      assert ids[..k + 1] == ids[..k] + [i];
      var o := session.nftRequests[i].out;
      if o.signedTx.None? || !accepts(o.signedTx.value) {
        continue;
      }
      o := o.(txHash := o.signedTx, status := Broadcast);
      session.nftRequests := session.nftRequests[i := session.nftRequests[i].(out := o)];
    }
    assert ids[..|ids|] == ids;
  }

  function MintBroadcastPass(mints: seq<NftMint>, accepts: RawTx -> bool): seq<NftMint> {
    seq(|mints|, i requires 0 <= i < |mints| => mints[i].(out := BroadcastOut(mints[i].out, accepts)))
  }

  method BroadcastSignedMints(session: Session, accepts: RawTx -> bool)
    modifies session`mints
    ensures session.mints == MintBroadcastPass(old(session.mints), accepts)
  {
    var ids := Payouts.SigningQueue(MintOuts(session.mints), |session.mints|);
    ghost var start := session.mints;
    for k := 0 to |ids|
      invariant |session.mints| == |start|
      invariant forall i: nat :: i < |start| ==>
        session.mints[i] ==
          if i in ids[..k] then start[i].(out := BroadcastOut(start[i].out, accepts)) else start[i]
    {
      var i := ids[k];
      assert i in ids && i !in ids[..k];
      assert ids[..k + 1] == ids[..k] + [i];
      var o := session.mints[i].out;
      if o.signedTx.None? || !accepts(o.signedTx.value) {
        continue;
      }
      o := o.(txHash := o.signedTx, status := Broadcast);
      session.mints := session.mints[i := session.mints[i].(out := o)];
    }
    assert ids[..|ids|] == ids;
  }

  // ---- the confirm phase --------------------------------------------------------------------

  datatype Vault = Vault(holdings: seq<Holding>, requests: seq<NftWithdrawal>)

  function Release(holdings: seq<Holding>, h: nat, status: HoldingStatus): seq<Holding> {
    if h < |holdings| then holdings[h := holdings[h].(status := status)] else holdings
  }

  function ConfirmRow(v: Vault, i: nat, rpc: Payouts.Rpc, gate: Payouts.Gate): Vault
    requires i < |v.requests|
  {
    var r := v.requests[i];
    var (o, verdict) := Payouts.Judged(r.out, rpc, gate);
    Vault(
      match verdict
      case Keep => v.holdings
      case Settle => Release(v.holdings, r.holding, Withdrawn)
      case Refund => Release(v.holdings, r.holding, Held),
      v.requests[i := r.(out := Payouts.Closed(o, verdict))])
  }

  function ConfirmRows(v: Vault, n: nat, rpc: Payouts.Rpc, gate: Payouts.Gate): (r: Vault)
    requires n <= |v.requests|
    ensures |r.requests| == |v.requests| && |r.holdings| == |v.holdings|
  {
    if n == 0 then v else ConfirmRow(ConfirmRows(v, n - 1, rpc, gate), n - 1, rpc, gate)
  }

  method MarkWithdrawn(session: Session, h: nat)
    modifies session`holdings
    ensures session.holdings == Release(old(session.holdings), h, Withdrawn)
  {
    if h < |session.holdings| {
      session.holdings := session.holdings[h := session.holdings[h].(status := Withdrawn)];
    }
  }

  method FailAndRelease(session: Session, i: nat)
    requires i < |session.nftRequests|
    modifies session`holdings, session`nftRequests
    ensures session.holdings == Release(old(session.holdings), old(session.nftRequests)[i].holding, Held)
    ensures var r := old(session.nftRequests)[i];
      session.nftRequests == old(session.nftRequests)[i := r.(out := r.out.(status := Failed))]
  {
    var r := session.nftRequests[i];
    if r.holding < |session.holdings| {
      session.holdings := session.holdings[r.holding := session.holdings[r.holding].(status := Held)];
    }
    session.nftRequests := session.nftRequests[i := r.(out := r.out.(status := Failed))];
  }

  method ConfirmWithdrawals(session: Session, rpc: Payouts.Rpc, gate: Payouts.Gate)
    modifies session`holdings, session`nftRequests
    ensures Vault(session.holdings, session.nftRequests) ==
      ConfirmRows(Vault(old(session.holdings), old(session.nftRequests)), |old(session.nftRequests)|, rpc, gate)
  {
    ghost var start := Vault(session.holdings, session.nftRequests);
    for i := 0 to |session.nftRequests|
      invariant |session.nftRequests| == |start.requests|
      invariant Vault(session.holdings, session.nftRequests) == ConfirmRows(start, i, rpc, gate)
    {
      var r := session.nftRequests[i];
      var o, verdict := Payouts.Confirm(r.out, rpc, gate);
      session.nftRequests := session.nftRequests[i := r.(out := o)];
      match verdict {
        case Keep =>
        case Settle =>
          MarkWithdrawn(session, r.holding);
          session.nftRequests := session.nftRequests[i := r.(out := o.(status := Confirmed))];
        case Refund =>
          FailAndRelease(session, i);
      }
    }
  }

  // ---- runs ---------------------------------------------------------------------------------

  /** `origins` remembers, for the record, who first held each token. */
  datatype World = World(desk: Desk, hotNonce: Option<HotWalletNonce>, origins: seq<nat>)

  datatype Event =
    | Acquire(user: nat, contract: string, token: string)   // a token not held before comes in
    | Move(sender: nat, recipient: Option<nat>, nft: nat, client: string)
    | Ask(request: RequestArgs)
    | Sign(signer: Signer)
    | Send(accepts: RawTx -> bool)
    | Confirm(rpc: Payouts.Rpc, gate: Payouts.Gate)

  function Next(w: World, e: Event): World {
    match e
    case Acquire(user, contract, token) =>
      w.(desk := w.desk.(holdings := w.desk.holdings + [Holding(user, contract, token, Held)]),
        origins := w.origins + [user])
    case Move(sender, recipient, nft, client) => w.(desk := Transfer(w.desk, sender, recipient, nft, client).0)
    case Ask(request) => w.(desk := Request(w.desk, request).0)
    case Sign(s) =>
      var (outs, row) := SignPass(Outs(w.desk.requests), w.hotNonce, TransferCall(w.desk.requests), s);
      w.(desk := w.desk.(requests := WithOuts(w.desk.requests, outs)), hotNonce := row)
    case Send(accepts) => w.(desk := w.desk.(requests := BroadcastPass(w.desk.requests, accepts)))
    case Confirm(rpc, gate) =>
      var v := ConfirmRows(Vault(w.desk.holdings, w.desk.requests), |w.desk.requests|, rpc, gate);
      w.(desk := w.desk.(holdings := v.holdings, requests := v.requests))
  }

  function Run(events: seq<Event>): World {
    if events == [] then World(Desk([], [], []), None, [])
    else Next(Run(events[..|events| - 1]), events[|events| - 1])
  }

  // ---- exclusivity --------------------------------------------------------------------------

  function Open(h: nat): NftWithdrawal -> int {
    (r: NftWithdrawal) => if r.holding == h && Payouts.InFlight(r.out) then 1 else 0
  }

  function Paid(h: nat): NftWithdrawal -> int {
    (r: NftWithdrawal) => if r.holding == h && r.out.status.Confirmed? then 1 else 0
  }

  predicate Exclusive(holdings: seq<Holding>, requests: seq<NftWithdrawal>, h: nat)
    requires h < |holdings|
  {
    && SumBy(requests, Open(h)) == (if holdings[h].status.Withdrawing? then 1 else 0)
    && SumBy(requests, Paid(h)) == (if holdings[h].status.Withdrawn? then 1 else 0)
  }

  /** An in-flight request is the current owner's. */
  predicate OwnersAgree(holdings: seq<Holding>, requests: seq<NftWithdrawal>) {
    forall i :: 0 <= i < |requests| ==>
      requests[i].holding < |holdings| &&
      (Payouts.InFlight(requests[i].out) ==> requests[i].user == holdings[requests[i].holding].user)
  }

  ghost predicate Guarded(holdings: seq<Holding>, requests: seq<NftWithdrawal>) {
    OwnersAgree(holdings, requests) && forall h: nat :: h < |holdings| ==> Exclusive(holdings, requests, h)
  }

  /** Follows a holding's transfer log from its first owner; None if a transfer is not by the owner. */
  function Traced(transfers: seq<NftTransfer>, h: nat, origin: nat): Option<nat> {
    if transfers == [] then Some(origin) else
      var before := Traced(transfers[..|transfers| - 1], h, origin);
      var t := transfers[|transfers| - 1];
      if t.holding != h then before
      else if before == Some(t.sender) then Some(t.recipient)
      else None
  }

  ghost predicate Provenance(w: World) {
    && |w.origins| == |w.desk.holdings|
    && (forall k :: 0 <= k < |w.desk.transfers| ==> w.desk.transfers[k].holding < |w.desk.holdings|)
    && (forall h: nat :: h < |w.desk.holdings| ==>
          Traced(w.desk.transfers, h, w.origins[h]) == Some(w.desk.holdings[h].user))
  }

  ghost predicate Ok(w: World) {
    Guarded(w.desk.holdings, w.desk.requests) && Provenance(w)
  }

  // ---- what each event keeps ----------------------------------------------------------------

  /** Changing outbox columns without opening or closing anything. */
  lemma SameShapeGuarded(holdings: seq<Holding>, before: seq<NftWithdrawal>, after: seq<NftWithdrawal>)
    requires Guarded(holdings, before) && |after| == |before|
    requires forall i :: 0 <= i < |before| ==>
      after[i].holding == before[i].holding && after[i].user == before[i].user &&
      (after[i].out == before[i].out || (Payouts.InFlight(before[i].out) && Payouts.InFlight(after[i].out)))
    ensures Guarded(holdings, after)
  {
    forall h: nat | h < |holdings|
      ensures Exclusive(holdings, after, h)
    {
      assert Exclusive(holdings, before, h);
      SumByPointwise(before, after, Open(h));
      SumByPointwise(before, after, Paid(h));
    }
  }

  lemma {:induction false} SignOutsShape(b: Payouts.Batch, ids: seq<nat>, call: nat -> Call, signs: nat -> bool,
                                         gasPrice: nat)
    requires forall k :: 0 <= k < |ids| ==> ids[k] < |b.outs| && Payouts.Pending(b.outs[ids[k]])
    ensures var r := Payouts.SignOuts(b, ids, call, signs, gasPrice);
      forall i :: 0 <= i < |b.outs| ==>
        r.outs[i] == b.outs[i] || (Payouts.InFlight(b.outs[i]) && Payouts.InFlight(r.outs[i]))
    decreases |ids|
  {
    if ids == [] {
    } else {
      SignOutsShape(b, ids[..|ids| - 1], call, signs, gasPrice);
    }
  }

  /** A request that is the only open one, or the only paid one, of its holding. */
  lemma {:induction false} SumAtLeast(requests: seq<NftWithdrawal>, f: NftWithdrawal -> int, i: nat)
    requires i < |requests| && forall r :: 0 <= f(r)
    ensures SumBy(requests, f) >= f(requests[i])
    decreases |requests|
  {
    var front := requests[..|requests| - 1];
    SumByNonNegative(front, f);
    if i < |front| {
      SumAtLeast(front, f, i);
    }
  }

  function Closing(holdings: seq<Holding>, h: nat, o: Outbox): seq<Holding> {
    if Payouts.InFlight(o) then holdings else Release(holdings, h, if o.status.Failed? then Held else Withdrawn)
  }

  /** Closing the only open request of a holding, or leaving it open. */
  lemma CloseGuarded(holdings: seq<Holding>, requests: seq<NftWithdrawal>, i: nat, o: Outbox)
    requires Guarded(holdings, requests) && i < |requests| && Payouts.InFlight(requests[i].out)
    requires Payouts.InFlight(o) || o.status.Confirmed? || o.status.Failed?
    ensures Guarded(Closing(holdings, requests[i].holding, o), requests[i := requests[i].(out := o)])
  {
    var r := requests[i];
    var r' := r.(out := o);
    var holdings', requests' := Closing(holdings, r.holding, o), requests[i := r'];
    assert Exclusive(holdings, requests, r.holding);
    SumAtLeast(requests, Open(r.holding), i);
    forall h: nat | h < |holdings'|
      ensures Exclusive(holdings', requests', h)
    {
      assert Exclusive(holdings, requests, h);
      SumByUpdate(requests, i, r', Open(h));
      SumByUpdate(requests, i, r', Paid(h));
    }
  }

  lemma ConfirmRowGuarded(v: Vault, i: nat, rpc: Payouts.Rpc, gate: Payouts.Gate)
    requires Guarded(v.holdings, v.requests) && i < |v.requests|
    ensures var u := ConfirmRow(v, i, rpc, gate);
      Guarded(u.holdings, u.requests) &&
      forall h :: 0 <= h < |v.holdings| ==> u.holdings[h].user == v.holdings[h].user
  {
    hide Guarded, Payouts.Reconciled;
    var r := v.requests[i];
    if r.out.status.Broadcast? {
      ConcludedStatus(r.out, rpc, gate);
      CloseGuarded(v.holdings, v.requests, i, Payouts.Concluded(r.out, rpc, gate));
    } else {
      assert v.requests[i := r] == v.requests;
    }
  }

  lemma ConcludedStatus(o: Outbox, rpc: Payouts.Rpc, gate: Payouts.Gate)
    requires o.status.Broadcast?
    ensures var status := Payouts.Concluded(o, rpc, gate).status;
      match Payouts.Judged(o, rpc, gate).1
      case Keep => status == Broadcast
      case Settle => status == Confirmed
      case Refund => status == Failed
  {
  }

  lemma {:induction false} ConfirmRowsGuarded(v: Vault, n: nat, rpc: Payouts.Rpc, gate: Payouts.Gate)
    requires Guarded(v.holdings, v.requests) && n <= |v.requests|
    ensures var u := ConfirmRows(v, n, rpc, gate);
      Guarded(u.holdings, u.requests) &&
      forall h :: 0 <= h < |v.holdings| ==> u.holdings[h].user == v.holdings[h].user
    decreases n
  {
    hide ConfirmRow, Guarded;
    if n == 0 {
    } else {
      ConfirmRowsGuarded(v, n - 1, rpc, gate);
      ConfirmRowGuarded(ConfirmRows(v, n - 1, rpc, gate), n - 1, rpc, gate);
    }
  }

  lemma RequestGuarded(holdings: seq<Holding>, requests: seq<NftWithdrawal>, nft: nat, r: NftWithdrawal)
    requires Guarded(holdings, requests) && HeldBy(holdings, nft, r.user)
    requires r.holding == nft && r.out == FRESH_OUTBOX
    ensures Guarded(holdings[nft := holdings[nft].(status := Withdrawing)], requests + [r])
  {
    var holdings' := holdings[nft := holdings[nft].(status := Withdrawing)];
    forall h: nat | h < |holdings'|
      ensures Exclusive(holdings', requests + [r], h)
    {
      assert Exclusive(holdings, requests, h);
      SumByAppend(requests, r, Open(h));
      SumByAppend(requests, r, Paid(h));
    }
  }

  lemma RequestKeeps(w: World, a: RequestArgs)
    requires Ok(w)
    ensures Ok(Next(w, Ask(a)))
  {
    if Request(w.desk, a).1.Accepted? {
      var h := w.desk.holdings[a.nft];
      RequestGuarded(w.desk.holdings, w.desk.requests, a.nft,
        NftWithdrawal(a.user, a.nft, h.contract, h.token, a.to, a.client, FRESH_OUTBOX));
    }
  }

  lemma MoveGuarded(holdings: seq<Holding>, requests: seq<NftWithdrawal>, nft: nat, recipient: nat)
    requires Guarded(holdings, requests) && nft < |holdings| && holdings[nft].status.Held?
    ensures Guarded(holdings[nft := holdings[nft].(user := recipient)], requests)
  {
    var holdings' := holdings[nft := holdings[nft].(user := recipient)];
    forall h: nat | h < |holdings'|
      ensures Exclusive(holdings', requests, h)
    {
      assert Exclusive(holdings, requests, h);
    }
    forall i | 0 <= i < |requests| && Payouts.InFlight(requests[i].out)
      ensures requests[i].user == holdings'[requests[i].holding].user
    {
      assert Exclusive(holdings, requests, nft);
      SumAtLeast(requests, Open(nft), i);
    }
  }

  lemma MoveTraced(transfers: seq<NftTransfer>, t: NftTransfer, h: nat, origin: nat)
    ensures Traced(transfers + [t], h, origin) ==
      if t.holding != h then Traced(transfers, h, origin)
      else if Traced(transfers, h, origin) == Some(t.sender) then Some(t.recipient) else None
  {
    assert (transfers + [t])[..|transfers|] == transfers;
  }

  lemma MoveKeeps(w: World, sender: nat, recipient: Option<nat>, nft: nat, client: string)
    requires Ok(w)
    ensures Ok(Next(w, Move(sender, recipient, nft, client)))
  {
    hide Guarded, Traced;
    if Transfer(w.desk, sender, recipient, nft, client).1.Accepted? {
      MoveGuarded(w.desk.holdings, w.desk.requests, nft, recipient.value);
      forall h: nat | h < |w.desk.holdings| {
        MoveTraced(w.desk.transfers, NftTransfer(nft, sender, recipient.value, client), h, w.origins[h]);
      }
    }
  }

  lemma AcquireKeeps(w: World, user: nat, contract: string, token: string)
    requires Ok(w)
    ensures Ok(Next(w, Acquire(user, contract, token)))
  {
    var w' := Next(w, Acquire(user, contract, token));
    var n := |w.desk.holdings|;
    forall h: nat | h < |w'.desk.holdings|
      ensures Exclusive(w'.desk.holdings, w'.desk.requests, h)
      ensures Traced(w'.desk.transfers, h, w'.origins[h]) == Some(w'.desk.holdings[h].user)
    {
      if h < n {
        assert Exclusive(w.desk.holdings, w.desk.requests, h);
      } else {
        SumByZero(w.desk.requests, Open(h));
        SumByZero(w.desk.requests, Paid(h));
        UntouchedTrace(w.desk.transfers, h, user);
      }
    }
  }

  lemma {:induction false} UntouchedTrace(transfers: seq<NftTransfer>, h: nat, origin: nat)
    requires forall k :: 0 <= k < |transfers| ==> transfers[k].holding != h
    ensures Traced(transfers, h, origin) == Some(origin)
    decreases |transfers|
  {
    if transfers == [] {
    } else {
      UntouchedTrace(transfers[..|transfers| - 1], h, origin);
    }
  }

  lemma SignKeeps(w: World, s: Signer)
    requires Ok(w)
    ensures Ok(Next(w, Sign(s)))
  {
    hide Exclusive, OwnersAgree, Traced, Payouts.SignOuts, Payouts.Claimed;
    var outs := Outs(w.desk.requests);
    SignOutsShape(Payouts.Batch(outs, Nonce.Reconciled(w.hotNonce, s.address, s.chainNonce).nextNonce),
      Payouts.Claimed(outs, s.locked, s.batch), TransferCall(w.desk.requests), s.signs, s.gasPrice);
    SameShapeGuarded(w.desk.holdings, w.desk.requests, Next(w, Sign(s)).desk.requests);
  }

  lemma SendKeeps(w: World, accepts: RawTx -> bool)
    requires Ok(w)
    ensures Ok(Next(w, Send(accepts)))
  {
    hide Exclusive, OwnersAgree, Traced;
    SameShapeGuarded(w.desk.holdings, w.desk.requests, Next(w, Send(accepts)).desk.requests);
  }

  lemma ConfirmKeeps(w: World, rpc: Payouts.Rpc, gate: Payouts.Gate)
    requires Ok(w)
    ensures Ok(Next(w, Confirm(rpc, gate)))
  {
    hide Guarded, Traced, ConfirmRows;
    ConfirmRowsGuarded(Vault(w.desk.holdings, w.desk.requests), |w.desk.requests|, rpc, gate);
  }

  lemma NextKeeps(w: World, e: Event)
    requires Ok(w)
    ensures Ok(Next(w, e))
  {
    hide Ok, Next;
    match e
    case Acquire(user, contract, token) => AcquireKeeps(w, user, contract, token);
    case Move(sender, recipient, nft, client) => MoveKeeps(w, sender, recipient, nft, client);
    case Ask(a) => RequestKeeps(w, a);
    case Sign(s) => SignKeeps(w, s);
    case Send(accepts) => SendKeeps(w, accepts);
    case Confirm(rpc, gate) => ConfirmKeeps(w, rpc, gate);
  }

  lemma {:induction false} RunOk(events: seq<Event>)
    ensures Ok(Run(events))
    decreases |events|
  {
    if events == [] {
    } else {
      RunOk(events[..|events| - 1]);
      NextKeeps(Run(events[..|events| - 1]), events[|events| - 1]);
    }
  }

  /**
   * Exclusivity in every reachable state: a holding is WITHDRAWING iff it has exactly one in-flight
   * request (and no confirmed one), HELD iff it has neither, WITHDRAWN iff it has exactly one
   * confirmed request (and no in-flight one).
   */
  lemma HoldingExclusive(events: seq<Event>, h: nat)
    requires h < |Run(events).desk.holdings|
    ensures var d := Run(events).desk;
      var open, paid := SumBy(d.requests, Open(h)), SumBy(d.requests, Paid(h));
      && (d.holdings[h].status.Withdrawing? <==> open == 1 && paid == 0)
      && (d.holdings[h].status.Held? <==> open == 0 && paid == 0)
      && (d.holdings[h].status.Withdrawn? <==> open == 0 && paid == 1)
  {
    RunOk(events);
    assert Exclusive(Run(events).desk.holdings, Run(events).desk.requests, h);
  }

  /** A holding's transfer log is a connected path from its first owner to its current one. */
  lemma HoldingProvenance(events: seq<Event>, h: nat)
    requires h < |Run(events).desk.holdings|
    ensures var w := Run(events);
      h < |w.origins| && Traced(w.desk.transfers, h, w.origins[h]) == Some(w.desk.holdings[h].user)
  {
    RunOk(events);
  }
}
