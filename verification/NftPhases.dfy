/**
 * What each committed phase of the NFT outbox makes of each request and its holding, stated on the rows, the
 * chain and the client's answers alone; and, over whole runs, which token goes where.
 */
module NftPhases {
  import opened Wrappers
  import opened Sums
  import opened Tables
  import Nft
  import NftSafety
  import Nonce
  import PayoutSafety
  import Payouts

  // ---- signing ------------------------------------------------------------------------------

  /** What signing has to make of a claimed row: a durable transaction, or one attempt more. */
  predicate SignedAs(o: Outbox, after: Outbox, call: Call, signs: bool, gasPrice: nat) {
    if !signs then after == o.(attempts := o.attempts + 1)
    else
      && after.signedTx.Some? && after.signedTx.value.call == call && after.signedTx.value.gasPrice == gasPrice
      && after == o.(status := Signing, nonce := Some(after.signedTx.value.nonce), signedTx := after.signedTx,
           txHash := after.signedTx, attempts := o.attempts + 1)
  }

  predicate AllSigned(before: seq<Outbox>, after: seq<Outbox>, ids: seq<nat>, call: nat -> Call, signs: nat -> bool,
                      gasPrice: nat)
    requires |after| == |before|
  {
    forall i: nat :: i < |before| ==>
      if i in ids then SignedAs(before[i], after[i], call(i), signs(i), gasPrice) else after[i] == before[i]
  }

  lemma SignedOneMore(before: seq<Outbox>, middle: seq<Outbox>, ids: seq<nat>, i: nat, o: Outbox, call: nat -> Call,
                      signs: nat -> bool, gasPrice: nat)
    requires |middle| == |before| && AllSigned(before, middle, ids, call, signs, gasPrice)
    requires i < |before| && i !in ids
    ensures middle[i] == before[i]
    ensures SignedAs(before[i], o, call(i), signs(i), gasPrice) ==>
      AllSigned(before, middle[i := o], ids + [i], call, signs, gasPrice)
  {
    hide SignedAs;
  }

  lemma SignOutExactly(b: Payouts.Batch, i: nat, call: nat -> Call, signs: nat -> bool, gasPrice: nat)
    requires i < |b.outs|
    ensures var outs := Payouts.SignOut(b, i, call, signs, gasPrice).outs;
      outs == b.outs[i := outs[i]] && SignedAs(b.outs[i], outs[i], call(i), signs(i), gasPrice)
  {
  }

  lemma {:induction false} SignOutsExactly(b: Payouts.Batch, ids: seq<nat>, call: nat -> Call, signs: nat -> bool,
                                           gasPrice: nat)
    requires forall k :: 0 <= k < |ids| ==> ids[k] < |b.outs|
    requires forall j, k :: 0 <= j < k < |ids| ==> ids[j] < ids[k]
    ensures AllSigned(b.outs, Payouts.SignOuts(b, ids, call, signs, gasPrice).outs, ids, call, signs, gasPrice)
    decreases |ids|
  {
    if ids == [] {
      return;
    }
    hide Payouts.SignOut, SignedAs, AllSigned;
    var front, last := ids[..|ids| - 1], ids[|ids| - 1];
    SignOutsExactly(b, front, call, signs, gasPrice);
    assert last !in front && ids == front + [last];
    var m := Payouts.SignOuts(b, front, call, signs, gasPrice);
    SignedOneMore(b.outs, m.outs, front, last, Payouts.SignOut(m, last, call, signs, gasPrice).outs[last], call, signs,
      gasPrice);
    SignOutExactly(m, last, call, signs, gasPrice);
  }

  lemma SignPassExactly(outs: seq<Outbox>, row: Option<HotWalletNonce>, call: nat -> Call, s: Nft.Signer)
    ensures AllSigned(outs, Nft.SignPass(outs, row, call, s).0, Payouts.Claimed(outs, s.locked, s.batch), call, s.signs,
      s.gasPrice)
  {
    hide SignedAs, Payouts.SignOuts, Payouts.Claimed;
    var ids := Payouts.Claimed(outs, s.locked, s.batch);
    if ids != [] {
      SignOutsExactly(Payouts.Batch(outs, Nonce.Reconciled(row, s.address, s.chainNonce).nextNonce), ids, call, s.signs,
        s.gasPrice);
    }
  }

  /** A request before and after a signing pass. */
  ghost predicate SigningMade(before: seq<NftWithdrawal>, after: seq<NftWithdrawal>, s: Nft.Signer, i: nat) {
    && i < |before| == |after| && after[i] == before[i].(out := after[i].out)
    && if i in Payouts.Claimed(Nft.Outs(before), s.locked, s.batch)
       then SignedAs(before[i].out, after[i].out, SendErc721(before[i].contract, before[i].to, before[i].token),
              s.signs(i), s.gasPrice)
       else after[i] == before[i]
  }

  lemma SignPhase(w: Nft.World, s: Nft.Signer, i: nat)
    requires i < |w.desk.requests|
    ensures SigningMade(w.desk.requests, Nft.Next(w, Nft.Sign(s)).desk.requests, s, i)
  {
    hide SignedAs, Nft.SignPass, Payouts.Claimed;
    SignPassExactly(Nft.Outs(w.desk.requests), w.hotNonce, Nft.TransferCall(w.desk.requests), s);
    assert Nft.Outs(w.desk.requests)[i] == w.desk.requests[i].out;
  }

  /** The same for a mint, which pays the row's recipient a token of the row's contract. */
  lemma MintPhase(mints: seq<NftMint>, row: Option<HotWalletNonce>, s: Nft.Signer, i: nat)
    requires i < |mints|
    ensures var after := Nft.WithMintOuts(mints, Nft.SignPass(Nft.MintOuts(mints), row, Nft.MintCall(mints), s).0);
      && after[i] == mints[i].(out := after[i].out)
      && if i in Payouts.Claimed(Nft.MintOuts(mints), s.locked, s.batch)
         then SignedAs(mints[i].out, after[i].out, MintErc721(mints[i].contract, mints[i].to), s.signs(i), s.gasPrice)
         else after[i] == mints[i]
  {
    hide SignedAs, Nft.SignPass, Payouts.Claimed;
    SignPassExactly(Nft.MintOuts(mints), row, Nft.MintCall(mints), s);
    assert Nft.MintOuts(mints)[i] == mints[i].out;
  }

  // ---- broadcasting and confirming ----------------------------------------------------------

  /** A request before and after a broadcast pass. */
  predicate SentAs(r: NftWithdrawal, after: NftWithdrawal, accepts: RawTx -> bool) {
    after ==
      if r.out.status.Signing? && r.out.signedTx.Some? && accepts(r.out.signedTx.value)
      then r.(out := r.out.(txHash := r.out.signedTx, status := Broadcast)) else r
  }

  lemma SendPhase(w: Nft.World, accepts: RawTx -> bool, i: nat)
    requires i < |w.desk.requests|
    ensures var after := Nft.Next(w, Nft.Send(accepts)).desk;
      |after.requests| == |w.desk.requests| && SentAs(w.desk.requests[i], after.requests[i], accepts)
  {
  }

  lemma {:induction false} ConfirmedRows(v: Nft.Vault, n: nat, rpc: Payouts.Rpc, gate: Payouts.Gate)
    requires n <= |v.requests|
    ensures var rows := Nft.ConfirmRows(v, n, rpc, gate).requests;
      forall i :: 0 <= i < |v.requests| ==>
        rows[i] == v.requests[i].(out := if i < n then Payouts.Concluded(v.requests[i].out, rpc, gate)
                                         else v.requests[i].out)
    decreases n
  {
    if n == 0 {
    } else {
      hide Payouts.Judged;
      ConfirmedRows(v, n - 1, rpc, gate);
    }
  }

  /**
   * A request before and after a confirm pass: as the chain says, with its holding WITHDRAWN exactly if the
   * request is confirmed now and HELD exactly if it failed now.
   */
  predicate ConfirmedAs(before: Nft.Desk, after: Nft.Desk, rpc: Payouts.Rpc, gate: Payouts.Gate, i: nat) {
    && i < |before.requests| == |after.requests|
    && (var r, r' := before.requests[i], after.requests[i];
        && r' == r.(out := r'.out)
        && if r.out.status.Broadcast? && r.out.txHash.Some?
           then
             && Payouts.Concludes(r.out, r'.out, rpc, gate)
             && r.holding < |before.holdings| == |after.holdings|
             && after.holdings[r.holding] == before.holdings[r.holding].(status :=
                  match r'.out.status
                  case Confirmed => Withdrawn
                  case Failed => Held
                  case _ => Withdrawing)
           else r' == r)
  }

  /** No other open request has the holding of the open request `i`. */
  lemma OnlyOpen(holdings: seq<Holding>, requests: seq<NftWithdrawal>, i: nat, j: nat)
    requires Nft.Guarded(holdings, requests) && i < |requests| && j < |requests| && i != j
    requires Payouts.InFlight(requests[i].out) && requests[j].holding == requests[i].holding
    ensures !Payouts.InFlight(requests[j].out)
  {
    var h := requests[i].holding;
    assert Nft.Exclusive(holdings, requests, h);
    var closed := requests[i].(out := requests[i].out.(status := Failed));
    SumByUpdate(requests, i, closed, Nft.Open(h));
    Nft.SumAtLeast(requests[i := closed], Nft.Open(h), j);
  }

  /** Every other request of the holding stays closed, so the holding's status follows request `i`. */
  lemma HoldingFollows(before: seq<Holding>, requests: seq<NftWithdrawal>, after: seq<Holding>,
                       requests': seq<NftWithdrawal>, i: nat)
    requires Nft.Guarded(before, requests) && Nft.Guarded(after, requests')
    requires i < |requests| == |requests'| && Payouts.InFlight(requests[i].out)
    requires forall j :: 0 <= j < |requests| ==> requests'[j] == requests[j].(out := requests'[j].out)
    requires forall j :: 0 <= j < |requests| && !Payouts.InFlight(requests[j].out) ==> requests'[j] == requests[j]
    requires |after| == |before|
    ensures var h := requests[i].holding;
      h < |after| && after[h].status ==
        if Payouts.InFlight(requests'[i].out) then Withdrawing
        else if requests'[i].out.status.Confirmed? then Withdrawn else Held
  {
    var h := requests[i].holding;
    assert Nft.Exclusive(before, requests, h) && Nft.Exclusive(after, requests', h);
    forall j: nat | j < |requests|
      ensures Nft.Open(h)(requests'[j]) == Nft.Open(h)(requests[i := requests'[i]][j])
      ensures Nft.Paid(h)(requests'[j]) == Nft.Paid(h)(requests[i := requests'[i]][j])
    {
      if j != i && requests[j].holding == h {
        OnlyOpen(before, requests, i, j);
      }
    }
    SumByPointwise(requests', requests[i := requests'[i]], Nft.Open(h));
    SumByPointwise(requests', requests[i := requests'[i]], Nft.Paid(h));
    SumByUpdate(requests, i, requests'[i], Nft.Open(h));
    SumByUpdate(requests, i, requests'[i], Nft.Paid(h));
    Nft.SumAtLeast(requests, Nft.Open(h), i);
  }

  /** A holding keeps its owner and its token. */
  predicate SameToken(h: Holding, h': Holding) {
    h' == h.(status := h'.status)
  }

  lemma {:induction false} ConfirmedHoldings(v: Nft.Vault, n: nat, rpc: Payouts.Rpc, gate: Payouts.Gate)
    requires n <= |v.requests|
    ensures var holdings := Nft.ConfirmRows(v, n, rpc, gate).holdings;
      forall h :: 0 <= h < |v.holdings| ==> SameToken(v.holdings[h], holdings[h])
    decreases n
  {
    if n == 0 {
    } else {
      hide Payouts.Judged;
      ConfirmedHoldings(v, n - 1, rpc, gate);
    }
  }

  lemma ConfirmPhase(w: Nft.World, rpc: Payouts.Rpc, gate: Payouts.Gate, i: nat)
    requires Nft.Ok(w) && i < |w.desk.requests|
    ensures ConfirmedAs(w.desk, Nft.Next(w, Nft.Confirm(rpc, gate)).desk, rpc, gate, i)
  {
    hide Nft.ConfirmRows, Nft.Guarded, Nft.Provenance, Payouts.Concluded;
    var v := Nft.Vault(w.desk.holdings, w.desk.requests);
    var u := Nft.Next(w, Nft.Confirm(rpc, gate)).desk;
    ConfirmedRows(v, |v.requests|, rpc, gate);
    ConfirmedHoldings(v, |v.requests|, rpc, gate);
    Nft.ConfirmRowsGuarded(v, |v.requests|, rpc, gate);
    forall j | 0 <= j < |v.requests|
      ensures !Payouts.InFlight(v.requests[j].out) ==> u.requests[j] == v.requests[j]
    {
      Payouts.ConcludedExactly(v.requests[j].out, rpc, gate);
    }
    Payouts.ConcludedExactly(v.requests[i].out, rpc, gate);
    if v.requests[i].out.status.Broadcast? {
      HoldingFollows(v.holdings, v.requests, u.holdings, u.requests, i);
    }
  }

  // ---- which token goes where ---------------------------------------------------------------

  /** Request `i` is what the call `a` asked for. */
  ghost predicate AskedBy(acts: seq<Nft.Event>, r: NftWithdrawal, a: Nft.RequestArgs) {
    Nft.Ask(a) in acts && r.user == a.user && r.holding == a.nft && r.to == a.to && r.client == a.client
  }

  /** There is a transaction to ask the chain about. */
  predicate HashShown(o: Outbox) {
    (o.status.Broadcast? ==> o.txHash.Some?) && (o.signedTx.Some? ==> o.txHash.Some?)
  }

  /** The request names the token of its holding, and what is signed for it sends that token as asked. */
  ghost predicate RowTraced(acts: seq<Nft.Event>, d: Nft.Desk, i: nat)
    requires i < |d.requests|
  {
    var r := d.requests[i];
    && (exists a :: AskedBy(acts, r, a))
    && r.holding < |d.holdings|
    && r.contract == d.holdings[r.holding].contract && r.token == d.holdings[r.holding].token
    && HashShown(r.out)
    && (r.out.signedTx.Some? ==> r.out.signedTx.value.call == SendErc721(r.contract, r.to, r.token))
  }

  ghost predicate Traced(acts: seq<Nft.Event>, d: Nft.Desk) {
    forall i: nat :: i < |d.requests| ==> RowTraced(acts, d, i)
  }

  /** A row of the request table after one event. */
  predicate RowCarried(r: NftWithdrawal, after: NftWithdrawal) {
    && after == r.(out := after.out)
    && (HashShown(r.out) ==> HashShown(after.out))
    && (after.out.signedTx == r.out.signedTx ||
        (after.out.signedTx.Some? && after.out.signedTx.value.call == SendErc721(r.contract, r.to, r.token)))
  }

  predicate SameNft(h: Holding, h': Holding) {
    h'.contract == h.contract && h'.token == h.token
  }

  ghost predicate Carries(d: Nft.Desk, u: Nft.Desk, e: Nft.Event) {
    && |d.holdings| <= |u.holdings| && |d.requests| <= |u.requests|
    && (forall h :: 0 <= h < |d.holdings| ==> SameNft(d.holdings[h], u.holdings[h]))
    && (forall i: nat :: i < |d.requests| ==> RowCarried(d.requests[i], u.requests[i]))
    && (forall i: nat :: |d.requests| <= i < |u.requests| ==> RowTraced([e], u, i))
  }

  lemma TracedStep(acts: seq<Nft.Event>, d: Nft.Desk, u: Nft.Desk, e: Nft.Event)
    requires Traced(acts, d) && Carries(d, u, e)
    ensures Traced(acts + [e], u)
  {
    forall i: nat | i < |u.requests|
      ensures RowTraced(acts + [e], u, i)
    {
      if i < |d.requests| {
        assert RowTraced(acts, d, i) && RowCarried(d.requests[i], u.requests[i]);
        var a :| AskedBy(acts, d.requests[i], a);
        assert AskedBy(acts + [e], u.requests[i], a);
      } else {
        assert RowTraced([e], u, i);
        var a :| AskedBy([e], u.requests[i], a);
        assert AskedBy(acts + [e], u.requests[i], a);
      }
    }
  }

  lemma NextCarries(w: Nft.World, e: Nft.Event)
    requires Nft.Ok(w)
    ensures Carries(w.desk, Nft.Next(w, e).desk, e)
  {
    match e
    case Acquire(_, _, _) =>
    case Move(_, _, _, _) =>
    case Ask(a) => AskCarries(w, a);
    case Sign(s) => SignCarries(w, s);
    case Send(_) =>
    case Confirm(rpc, gate) => ConfirmCarries(w, rpc, gate);
  }

  lemma AskCarries(w: Nft.World, a: Nft.RequestArgs)
    ensures Carries(w.desk, Nft.Next(w, Nft.Ask(a)).desk, Nft.Ask(a))
  {
    var u := Nft.Next(w, Nft.Ask(a)).desk;
    if |u.requests| > |w.desk.requests| {
      assert AskedBy([Nft.Ask(a)], u.requests[|w.desk.requests|], a);
    }
  }

  lemma SignCarries(w: Nft.World, s: Nft.Signer)
    ensures Carries(w.desk, Nft.Next(w, Nft.Sign(s)).desk, Nft.Sign(s))
  {
    hide Nft.SignPass, Payouts.Claimed;
    forall i: nat | i < |w.desk.requests|
      ensures RowCarried(w.desk.requests[i], Nft.Next(w, Nft.Sign(s)).desk.requests[i])
    {
      SignPhase(w, s, i);
    }
  }

  lemma ConfirmCarries(w: Nft.World, rpc: Payouts.Rpc, gate: Payouts.Gate)
    requires Nft.Ok(w)
    ensures Carries(w.desk, Nft.Next(w, Nft.Confirm(rpc, gate)).desk, Nft.Confirm(rpc, gate))
  {
    hide Nft.ConfirmRows, Nft.Ok;
    ConfirmedHoldings(Nft.Vault(w.desk.holdings, w.desk.requests), |w.desk.requests|, rpc, gate);
    forall i: nat | i < |w.desk.requests|
      ensures RowCarried(w.desk.requests[i], Nft.Next(w, Nft.Confirm(rpc, gate)).desk.requests[i])
    {
      ConfirmPhase(w, rpc, gate, i);
    }
  }

  /** In every run a request names its holding's token and recipient as asked for, and so does what is signed for it. */
  lemma {:induction false} SignedAsAsked(events: seq<Nft.Event>)
    ensures Traced(events, Nft.Run(events).desk)
    decreases |events|
  {
    if events == [] {
      return;
    }
    hide Traced, Carries, Nft.Next, Nft.Ok;
    var front, e := events[..|events| - 1], events[|events| - 1];
    SignedAsAsked(front);
    Nft.RunOk(front);
    NextCarries(Nft.Run(front), e);
    TracedStep(front, Nft.Run(front).desk, Nft.Next(Nft.Run(front), e).desk, e);
    assert events == front + [e];
  }

  /**
   * In every run, what a confirm pass makes of every request and its holding; a BROADCAST request always has
   * a transaction to ask about.
   */
  lemma ConfirmDecides(events: seq<Nft.Event>, rpc: Payouts.Rpc, gate: Payouts.Gate, i: nat)
    requires i < |Nft.Run(events).desk.requests|
    ensures ConfirmedAs(Nft.Run(events).desk, Nft.Next(Nft.Run(events), Nft.Confirm(rpc, gate)).desk, rpc, gate, i)
    ensures var o := Nft.Run(events).desk.requests[i].out; o.status.Broadcast? ==> o.txHash.Some?
  {
    hide Nft.Run, Nft.Next, ConfirmedAs;
    Nft.RunOk(events);
    ConfirmPhase(Nft.Run(events), rpc, gate, i);
    SignedAsAsked(events);
    assert RowTraced(events, Nft.Run(events).desk, i);
  }

  /** The endpoint calls and outbox phases of a run against the chain. */
  function ActsOf(events: seq<NftSafety.Happening>): seq<Nft.Event> {
    if events == [] then [] else
      var front, e := ActsOf(events[..|events| - 1]), events[|events| - 1];
      if e.Act? then front + [e.event] else front
  }

  lemma {:induction false} ScenesTraced(s: PayoutSafety.Setup, events: seq<NftSafety.Happening>)
    requires NftSafety.PossibleRun(s, events)
    ensures Traced(ActsOf(events), NftSafety.Scenes(s, events).nft.desk)
    decreases |events|
  {
    if events == [] {
      return;
    }
    hide Traced, Carries, Nft.Next, NftSafety.Sane;
    var front, e := events[..|events| - 1], events[|events| - 1];
    var w := NftSafety.Scenes(s, front);
    ScenesTraced(s, front);
    NftSafety.RunSane(s, front);
    if e.Act? {
      SaneIsOk(w, s);
      NextCarries(w.nft, e.event);
      TracedStep(ActsOf(front), w.nft.desk, Nft.Next(w.nft, e.event).desk, e.event);
    }
  }

  lemma SaneIsOk(w: NftSafety.Scene, s: PayoutSafety.Setup)
    requires NftSafety.Sane(w, s)
    ensures Nft.Ok(w.nft)
  {
  }

  /** The holding's token was sent, by a mined and successful transaction, to where its withdrawal asked for. */
  ghost predicate SentWhereAsked(acts: seq<Nft.Event>, w: NftSafety.Scene, h: nat, i: nat, a: Nft.RequestArgs) {
    && h < |w.nft.desk.holdings| && i < |w.nft.desk.requests| && NftSafety.Left(w, i, h)
    && Nft.Ask(a) in acts && a.nft == h
    && w.nft.desk.requests[i].out.signedTx.value.call
         == SendErc721(w.nft.desk.holdings[h].contract, a.to, w.nft.desk.holdings[h].token)
  }

  lemma WithdrawnWhereAsked(s: PayoutSafety.Setup, events: seq<NftSafety.Happening>, h: nat)
    requires NftSafety.PossibleRun(s, events) && h < |NftSafety.Scenes(s, events).nft.desk.holdings|
    requires NftSafety.Scenes(s, events).nft.desk.holdings[h].status.Withdrawn?
    ensures exists i, a :: SentWhereAsked(ActsOf(events), NftSafety.Scenes(s, events), h, i, a)
  {
    hide NftSafety.Scenes, NftSafety.PossibleRun, PayoutSafety.PaidOn;
    var w := NftSafety.Scenes(s, events);
    ScenesTraced(s, events);
    NftSafety.HoldingMatchesChain(s, events, h);
    var i :| NftSafety.Left(w, i, h);
    assert RowTraced(ActsOf(events), w.nft.desk, i);
    var a :| AskedBy(ActsOf(events), w.nft.desk.requests[i], a);
    assert SentWhereAsked(ActsOf(events), w, h, i, a);
  }

  // ---- mints --------------------------------------------------------------------------------

  datatype MintWorld = MintWorld(mints: seq<NftMint>, row: Option<HotWalletNonce>)

  datatype MintEvent =
    | MintAsked(user: nat, contract: string, to: string)
    | MintsSigned(signer: Nft.Signer)
    | MintsSent(accepts: RawTx -> bool)
    | CounterMoved(row: Option<HotWalletNonce>)      // the other outboxes move the shared counter

  function MintNext(w: MintWorld, e: MintEvent): MintWorld {
    match e
    case MintAsked(user, contract, to) => w.(mints := w.mints + [NftMint(user, contract, to, FRESH_OUTBOX)])
    case MintsSigned(s) =>
      var (outs, row) := Nft.SignPass(Nft.MintOuts(w.mints), w.row, Nft.MintCall(w.mints), s);
      MintWorld(Nft.WithMintOuts(w.mints, outs), row)
    case MintsSent(accepts) => w.(mints := Nft.MintBroadcastPass(w.mints, accepts))
    case CounterMoved(row) => w.(row := row)
  }

  function MintRun(events: seq<MintEvent>): MintWorld {
    if events == [] then MintWorld([], None)
    else MintNext(MintRun(events[..|events| - 1]), events[|events| - 1])
  }

  /** A mint was asked for, and what is signed for it mints to whom it names. */
  ghost predicate MintTraced(events: seq<MintEvent>, m: NftMint) {
    && MintAsked(m.user, m.contract, m.to) in events
    && (m.out.signedTx.Some? ==> m.out.signedTx.value.call == MintErc721(m.contract, m.to))
    && (m.out.txHash.Some? ==> m.out.txHash == m.out.signedTx)
  }

  lemma MintStep(events: seq<MintEvent>, w: MintWorld, e: MintEvent)
    requires forall i :: 0 <= i < |w.mints| ==> MintTraced(events, w.mints[i])
    ensures forall i :: 0 <= i < |MintNext(w, e).mints| ==> MintTraced(events + [e], MintNext(w, e).mints[i])
  {
    hide Nft.SignPass, Payouts.Claimed;
    forall i: nat | i < |MintNext(w, e).mints|
      ensures MintTraced(events + [e], MintNext(w, e).mints[i])
    {
      if i < |w.mints| {
        assert MintTraced(events, w.mints[i]);
        if e.MintsSigned? {
          MintPhase(w.mints, w.row, e.signer, i);
        }
      } else {
        assert e in events + [e];
      }
    }
  }

  /** In every run of requests, signing and broadcast passes. */
  lemma MintsSignedAsAsked(events: seq<MintEvent>, i: nat)
    requires i < |MintRun(events).mints|
    ensures MintTraced(events, MintRun(events).mints[i])
  {
    AllMintsTraced(events);
  }

  lemma {:induction false} AllMintsTraced(events: seq<MintEvent>)
    ensures forall i :: 0 <= i < |MintRun(events).mints| ==> MintTraced(events, MintRun(events).mints[i])
    decreases |events|
  {
    if events == [] {
    } else {
      hide MintTraced, MintNext;
      var front, e := events[..|events| - 1], events[|events| - 1];
      AllMintsTraced(front);
      MintStep(front, MintRun(front), e);
      assert events == front + [e];
    }
  }
}
