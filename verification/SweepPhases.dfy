/**
 * What each committed pass of the NFT sweeper makes of each sweep, stated on the row, the chain and the
 * client's answers alone; and, over whole runs, which token is sent where.
 */
module SweepPhases {
  import opened Wrappers
  import opened Tables
  import opened Sweeper
  import Payouts

  lemma ClaimsInRange(sweeps: seq<Sweep>, wanted: set<SweepStatus>, locked: set<nat>, batch: nat)
    ensures var ids := ClaimSweeps(sweeps, wanted, locked, batch);
      && (forall k :: 0 <= k < |ids| ==> ids[k] < |sweeps| && sweeps[ids[k]].status in wanted)
      && (forall j, k :: 0 <= j < k < |ids| ==> ids[j] < ids[k])
  {
  }

  // ---- confirming ---------------------------------------------------------------------------

  /** The sweep's nonce was consumed although no receipt shows, and has been for `confirmations` blocks. */
  predicate Overdue(s: Sweep, rpc: Payouts.Rpc, confirmations: int) {
    && s.sweepNonce.Some? && rpc.latestNonce > s.sweepNonce.value
    && s.unminedSince.Some? && rpc.head - s.unminedSince.value >= confirmations
  }

  /** A receipt of the sweep's transaction that is buried, with the outcome `ok`. */
  predicate Mined(s: Sweep, rpc: Payouts.Rpc, confirmations: int, ok: bool)
    requires s.sweepHash.Some?
  {
    && rpc.receipt(s.sweepHash.value).Some? && rpc.receipt(s.sweepHash.value).value.ok == ok
    && Payouts.Buried(rpc, rpc.receipt(s.sweepHash.value).value, confirmations)
  }

  /**
   * What a confirm pass has to make of a SWEEPING row: SWEPT exactly if its transaction succeeded for good and
   * the hot wallet owns the token; FAILED exactly if it reverted for good, or shows no receipt and is overdue;
   * and SWEEPING otherwise. A receipt clears the marker.
   */
  predicate CheckedAs(s: Sweep, after: Sweep, c: Checker, i: nat)
    requires s.sweepHash.Some?
  {
    var rpc := c.rpc(i);
    && after == s.(status := after.status, unminedSince := after.unminedSince)
    && (after.status.Swept? <==> Mined(s, rpc, c.confirmations, true) && c.ownedByHotWallet(i))
    && (after.status.SweepFailed? <==>
          || Mined(s, rpc, c.confirmations, false)
          || (rpc.receipt(s.sweepHash.value).None? && Overdue(s, rpc, c.confirmations)))
    && (after.status.Swept? || after.status.SweepFailed? || after.status.Sweeping?)
    && (rpc.receipt(s.sweepHash.value).Some? ==> after.unminedSince.None?)
  }

  lemma CheckedExactly(c: Checker, i: nat, s: Sweep)
    requires s.status.Sweeping? && s.sweepHash.Some?
    ensures CheckedAs(s, Checked(c)(i, s), c, i)
  {
  }

  lemma ConfirmPhase(w: World, c: Checker, i: nat)
    requires |w.lives| == |w.sweeps| && i < |w.sweeps|
    requires forall k :: 0 <= k < |w.sweeps| && w.sweeps[k].status.Sweeping? ==> w.sweeps[k].sweepHash.Some?
    ensures var after := Next(w, Confirming(c)).sweeps;
      |after| == |w.sweeps| &&
      if i in ClaimSweeps(w.sweeps, {Sweeping}, c.locked, c.batch)
      then w.sweeps[i].sweepHash.Some? && CheckedAs(w.sweeps[i], after[i], c, i) else after[i] == w.sweeps[i]
  {
    hide Checked, ForEach, ClaimSweeps, CheckedAs;
    var ids := ClaimSweeps(w.sweeps, {Sweeping}, c.locked, c.batch);
    ClaimsInRange(w.sweeps, {Sweeping}, c.locked, c.batch);
    ForEachRow(w.sweeps, ids, Checked(c));
    if i in ids {
      CheckedExactly(c, i, w.sweeps[i]);
    }
  }

  // The marker over several passes, as for payouts.

  /** The part of a sweep that a payout row has too. */
  function AsOutbox(s: Sweep): Outbox {
    Outbox(Broadcast, s.sweepNonce, s.sweepTx, s.sweepHash, s.unminedSince, s.attempts)
  }

  /** A run of confirm passes over one row. */
  function WatchedSweep(s: Sweep, i: nat, passes: seq<Checker>): Sweep {
    if passes == [] then s else Checked(passes[|passes| - 1])(i, WatchedSweep(s, i, passes[..|passes| - 1]))
  }

  function RpcsOf(i: nat, passes: seq<Checker>): seq<Payouts.Rpc> {
    seq(|passes|, k requires 0 <= k < |passes| => passes[k].rpc(i))
  }

  lemma SweepMarkerStep(s: Sweep, i: nat, c: Checker)
    requires s.sweepHash.Some? && s.sweepNonce.Some? && Checked(c)(i, s).status.Sweeping?
    ensures s.status.Sweeping?
    ensures var after := Checked(c)(i, s);
      && after.sweepHash == s.sweepHash && after.sweepNonce == s.sweepNonce
      && after.unminedSince == if !Payouts.Superseded(AsOutbox(s), c.rpc(i)) then None
                               else if s.unminedSince.Some? then s.unminedSince else Some(c.rpc(i).head)
  {
  }

  lemma {:induction false} WatchedKeepsSweep(s: Sweep, i: nat, passes: seq<Checker>)
    ensures var w := WatchedSweep(s, i, passes); w.sweepHash == s.sweepHash && w.sweepNonce == s.sweepNonce
    decreases |passes|
  {
    if passes == [] {
    } else {
      WatchedKeepsSweep(s, i, passes[..|passes| - 1]);
    }
  }

  /** A sweep's marker is Some(u) exactly when the current suffix of passes that saw it superseded began at head u. */
  lemma {:induction false} SweepMarkerIsSuffixStart(s: Sweep, i: nat, passes: seq<Checker>)
    requires s.status.Sweeping? && s.sweepHash.Some? && s.sweepNonce.Some? && s.unminedSince.None?
    requires WatchedSweep(s, i, passes).status.Sweeping?
    ensures forall u ::
      WatchedSweep(s, i, passes).unminedSince == Some(u) <==> Payouts.StartsAt(AsOutbox(s), RpcsOf(i, passes), u)
    decreases |passes|
  {
    if passes == [] {
      return;
    }
    var front, c := passes[..|passes| - 1], passes[|passes| - 1];
    var before := WatchedSweep(s, i, front);
    WatchedKeepsSweep(s, i, front);
    SweepMarkerStep(before, i, c);
    assert Payouts.Superseded(AsOutbox(before), c.rpc(i)) == Payouts.Superseded(AsOutbox(s), c.rpc(i));
    hide Checked, Payouts.StartsAt, Payouts.Superseded;
    SweepMarkerIsSuffixStart(s, i, front);
    assert RpcsOf(i, passes) == RpcsOf(i, front) + [c.rpc(i)];
    Payouts.MarkerAdvances(AsOutbox(s), RpcsOf(i, front), c.rpc(i), before.unminedSince);
  }

  // ---- sweeping -----------------------------------------------------------------------------

  /**
   * What sweeping has to make of a FUNDED row: one attempt more; a transaction that sends its token to the hot
   * wallet, signed unless there was one; and SWEEPING exactly if the network accepts it.
   */
  predicate MovedAs(s: Sweep, after: Sweep, m: Mover, i: nat) {
    var tried, home := s.(attempts := s.attempts + 1), SendErc721(s.token.contract, m.hotWallet, s.token.id);
    match s.sweepTx
    case Some(raw) => after == if m.accepts(raw) then tried.(sweepHash := s.sweepTx, status := Sweeping) else tried
    case None =>
      var raw := RawTx(home, m.nonce(i), m.gasPrice);
      after ==
        if !m.signs(i) then tried
        else tried.(sweepTx := Some(raw), sweepHash := Some(raw), sweepNonce := Some(m.nonce(i)),
                    status := if m.accepts(raw) then Sweeping else s.status)
  }

  lemma MovePhase(w: World, m: Mover, i: nat)
    requires |w.lives| == |w.sweeps| && i < |w.sweeps|
    ensures var after := Next(w, Moving(m)).sweeps;
      |after| == |w.sweeps| &&
      if i in ClaimSweeps(w.sweeps, {Funded}, m.locked, m.batch) then MovedAs(w.sweeps[i], after[i], m, i)
      else after[i] == w.sweeps[i]
  {
    hide SweptOut, ForEach, ClaimSweeps, MovedAs;
    var ids := ClaimSweeps(w.sweeps, {Funded}, m.locked, m.batch);
    ClaimsInRange(w.sweeps, {Funded}, m.locked, m.batch);
    ForEachRow(w.sweeps, ids, SweptOut(m));
    MovedExactly(m, i, w.sweeps[i]);
  }

  lemma MovedExactly(m: Mover, i: nat, s: Sweep)
    ensures MovedAs(s, SweptOut(m)(i, s), m, i)
  {
  }

  // ---- funding ------------------------------------------------------------------------------

  /** A transfer of one gas budget to the row's own address. */
  predicate FundsGas(s: Sweep, g: Option<RawTx>, nonce: nat, gasPrice: nat) {
    g == Some(RawTx(SendNative(s.address, 2_000_000_000_000_000), nonce, gasPrice))
  }

  /**
   * What funding has to make of a claimed row: FUNDED exactly if its address has enough; otherwise a FUNDING row
   * sends its gas transfer again at the nonce it holds, and a PENDING one is given a nonce and sends its first.
   */
  predicate FundedAs(s: Sweep, after: Sweep, f: Funder, i: nat) {
    if f.enough(i) then after == s.(status := Funded)
    else if s.status.Funding? then
      if s.gasFundNonce.None? || !f.accepts(i) then after == s
      else after == s.(gasFundTx := after.gasFundTx) && FundsGas(s, after.gasFundTx, s.gasFundNonce.value, f.gasPrice)
    else if !f.signs(i) then after == s.(attempts := s.attempts + 1)
    else
      && after.gasFundNonce.Some? && FundsGas(s, after.gasFundTx, after.gasFundNonce.value, f.gasPrice)
      && after == s.(attempts := s.attempts + 1, gasFundTx := after.gasFundTx, gasFundNonce := after.gasFundNonce,
           status := Funding)
  }

  lemma FundRowExactly(t: Till, i: nat, f: Funder)
    requires i < |t.sweeps| && (t.loaded ==> t.row.Some?)
    requires t.sweeps[i].status.SweepPending? || t.sweeps[i].status.Funding?
    ensures var r := FundRow(t, i, f);
      FundedAs(t.sweeps[i], r.sweeps[i], f, i) && r.sweeps == t.sweeps[i := r.sweeps[i]]
  {
    assert t.sweeps[i := t.sweeps[i]] == t.sweeps;
  }

  predicate AllFunded(before: seq<Sweep>, after: seq<Sweep>, ids: seq<nat>, f: Funder)
    requires |after| == |before|
  {
    forall i: nat :: i < |before| ==>
      if i in ids then FundedAs(before[i], after[i], f, i) else after[i] == before[i]
  }

  lemma FundedOneMore(before: seq<Sweep>, middle: seq<Sweep>, ids: seq<nat>, i: nat, s: Sweep, f: Funder)
    requires |middle| == |before| && AllFunded(before, middle, ids, f)
    requires i < |before| && i !in ids
    ensures middle[i] == before[i]
    ensures FundedAs(before[i], s, f, i) ==> AllFunded(before, middle[i := s], ids + [i], f)
  {
    hide FundedAs;
  }

  predicate Fundable(sweeps: seq<Sweep>, ids: seq<nat>) {
    && (forall k :: 0 <= k < |ids| ==>
          ids[k] < |sweeps| && (sweeps[ids[k]].status.SweepPending? || sweeps[ids[k]].status.Funding?))
    && (forall j, k :: 0 <= j < k < |ids| ==> ids[j] < ids[k])
  }

  lemma FundableFront(sweeps: seq<Sweep>, ids: seq<nat>)
    requires Fundable(sweeps, ids) && ids != []
    ensures var front, last := ids[..|ids| - 1], ids[|ids| - 1];
      && Fundable(sweeps, front) && last !in front && ids == front + [last]
      && last < |sweeps| && (sweeps[last].status.SweepPending? || sweeps[last].status.Funding?)
  {
  }

  lemma {:induction false} FundRowsExactly(t: Till, ids: seq<nat>, f: Funder)
    requires (t.loaded ==> t.row.Some?) && Fundable(t.sweeps, ids)
    ensures AllFunded(t.sweeps, FundRows(t, ids, f).sweeps, ids, f)
    decreases |ids|
  {
    if ids == [] {
      return;
    }
    var front, last := ids[..|ids| - 1], ids[|ids| - 1];
    FundableFront(t.sweeps, ids);
    FundRowsExactly(t, front, f);
    hide FundRow, FundedAs, AllFunded, Fundable;
    var m := FundRows(t, front, f);
    FundedOneMore(t.sweeps, m.sweeps, front, last, FundRow(m, last, f).sweeps[last], f);
    FundRowExactly(m, last, f);
  }

  lemma FundPhase(w: World, f: Funder, i: nat)
    requires |w.lives| == |w.sweeps| && i < |w.sweeps|
    ensures var after := Next(w, GasFunding(f)).sweeps;
      |after| == |w.sweeps| &&
      if i in ClaimSweeps(w.sweeps, {SweepPending, Funding}, f.locked, f.batch)
      then FundedAs(w.sweeps[i], after[i], f, i) else after[i] == w.sweeps[i]
  {
    hide FundRows, ClaimSweeps, FundedAs;
    var ids := ClaimSweeps(w.sweeps, {SweepPending, Funding}, f.locked, f.batch);
    ClaimsInRange(w.sweeps, {SweepPending, Funding}, f.locked, f.batch);
    FundRowsExactly(Till(w.sweeps, w.row, false), ids, f);
  }

  // ---- discovery ----------------------------------------------------------------------------

  predicate Tracked(sweeps: seq<Sweep>, token: TokenId) {
    exists i :: 0 <= i < |sweeps| && sweeps[i].token == token
  }

  predicate Mentions(deposits: seq<CreditedNft>, token: TokenId) {
    exists k :: 0 <= k < |deposits| && deposits[k].token == token
  }

  /** An old row: a failed sweep of a deposited token starts over while it has attempts left. */
  predicate RediscoveredAs(s: Sweep, after: Sweep, deposits: seq<CreditedNft>) {
    after ==
      if s.status.SweepFailed? && s.attempts < 3 && Mentions(deposits, s.token)
      then Sweep(s.token, s.address, SweepPending, None, None, None, None, None, None, s.attempts) else s
  }

  /** The deposits of tokens that have no row, in order. */
  function Untracked(sweeps: seq<Sweep>, deposits: seq<CreditedNft>): seq<CreditedNft> {
    if deposits == [] then [] else
      var front, d := Untracked(sweeps, deposits[..|deposits| - 1]), deposits[|deposits| - 1];
      if Tracked(sweeps, d.token) then front else front + [d]
  }

  predicate NewSweep(s: Sweep, d: CreditedNft) {
    s == Sweep(d.token, d.address, SweepPending, None, None, None, None, None, None, 0)
  }

  ghost predicate DiscoveredAs(before: seq<Sweep>, after: seq<Sweep>, deposits: seq<CreditedNft>) {
    var added := Untracked(before, deposits);
    && |after| == |before| + |added|
    && (forall i :: 0 <= i < |before| ==> RediscoveredAs(before[i], after[i], deposits))
    && (forall k :: 0 <= k < |added| ==> NewSweep(after[|before| + k], added[k]))
  }

  lemma {:induction false} DiscoveredExactly(sweeps: seq<Sweep>, deposits: seq<CreditedNft>)
    requires UniqueTokens(sweeps)
    ensures DiscoveredAs(sweeps, Discovered(sweeps, deposits), deposits)
    decreases |deposits|
  {
    if deposits == [] {
      return;
    }
    var front, d := deposits[..|deposits| - 1], deposits[|deposits| - 1];
    DiscoveredExactly(sweeps, front);
    assert deposits == front + [d];
    var rows, after := Discovered(sweeps, front), Discovered(sweeps, deposits);
    forall i | 0 <= i < |sweeps|
      ensures RediscoveredAs(sweeps[i], after[i], deposits)
    {
      assert RediscoveredAs(sweeps[i], rows[i], front);
      MentionsAppend(front, d, sweeps[i].token);
    }
  }

  lemma MentionsAppend(deposits: seq<CreditedNft>, d: CreditedNft, token: TokenId)
    ensures Mentions(deposits + [d], token) <==> Mentions(deposits, token) || d.token == token
  {
    if Mentions(deposits, token) {
      var k :| 0 <= k < |deposits| && deposits[k].token == token;
      assert (deposits + [d])[k].token == token;
    }
    if d.token == token {
      assert (deposits + [d])[|deposits|].token == token;
    }
  }

  predicate DistinctTokens(deposits: seq<CreditedNft>) {
    forall j, k :: 0 <= j < k < |deposits| ==> deposits[j].token != deposits[k].token
  }

  predicate NoneTracked(sweeps: seq<Sweep>, added: seq<CreditedNft>) {
    forall k :: 0 <= k < |added| ==> !Tracked(sweeps, added[k].token)
  }

  lemma {:induction false} UntrackedTokens(sweeps: seq<Sweep>, deposits: seq<CreditedNft>)
    ensures NoneTracked(sweeps, Untracked(sweeps, deposits))
    decreases |deposits|
  {
    if deposits == [] {
    } else {
      UntrackedTokens(sweeps, deposits[..|deposits| - 1]);
    }
  }

  /** The unique index is violated exactly if two of the new rows are for one token. */
  lemma UniqueExactly(before: seq<Sweep>, after: seq<Sweep>, deposits: seq<CreditedNft>)
    requires UniqueTokens(before) && DiscoveredAs(before, after, deposits)
    ensures UniqueTokens(after) <==> DistinctTokens(Untracked(before, deposits))
  {
    hide Tracked, Untracked, Mentions;
    var added := Untracked(before, deposits);
    UntrackedTokens(before, deposits);
    assert forall i :: 0 <= i < |before| ==> RediscoveredAs(before[i], after[i], deposits);
    forall k | 0 <= k < |added|
      ensures after[|before| + k].token == added[k].token
      ensures forall i :: 0 <= i < |before| ==> before[i].token != added[k].token
    {
      assert NewSweep(after[|before| + k], added[k]);
      NotTracked(before, added[k].token);
    }
    TokensAlike(before, after, added);
  }

  lemma NotTracked(sweeps: seq<Sweep>, token: TokenId)
    requires !Tracked(sweeps, token)
    ensures forall i :: 0 <= i < |sweeps| ==> sweeps[i].token != token
  {
  }

  lemma TokensAlike(before: seq<Sweep>, after: seq<Sweep>, added: seq<CreditedNft>)
    requires UniqueTokens(before) && |after| == |before| + |added|
    requires forall i :: 0 <= i < |before| ==> after[i].token == before[i].token
    requires forall k :: 0 <= k < |added| ==> after[|before| + k].token == added[k].token
    requires forall k, i :: 0 <= k < |added| && 0 <= i < |before| ==> before[i].token != added[k].token
    ensures UniqueTokens(after) <==> DistinctTokens(added)
  {
    var n := |before|;
    if UniqueTokens(after) {
      forall j, k | 0 <= j < k < |added|
        ensures added[j].token != added[k].token
      {
        assert after[n + j].token != after[n + k].token;
      }
    }
    if DistinctTokens(added) {
      forall j, k | 0 <= j < k < |after|
        ensures after[j].token != after[k].token
      {
        if j >= n {
          assert added[j - n].token != added[k - n].token;
        } else if k >= n {
          assert before[j].token != added[k - n].token;
        }
      }
    }
  }

  /** A discovery pass: all of it, or nothing if two deposits would both be new rows for one token. */
  lemma DiscoveryPhase(w: World, deposits: seq<CreditedNft>)
    requires |w.lives| == |w.sweeps| && UniqueTokens(w.sweeps)
    ensures var after := Next(w, Discovery(deposits)).sweeps;
      && UniqueTokens(after)
      && if DistinctTokens(Untracked(w.sweeps, deposits)) then DiscoveredAs(w.sweeps, after, deposits)
         else after == w.sweeps
  {
    hide DiscoveredAs, DistinctTokens, Untracked, UniqueTokens, Discovered;
    DiscoveredExactly(w.sweeps, deposits);
    UniqueExactly(w.sweeps, Discovered(w.sweeps, deposits), deposits);
  }

  // ---- in every run -------------------------------------------------------------------------

  /** The persisted transaction sends the sweep's token to the hot wallet of the pass that signed it. */
  ghost predicate SendsHome(events: seq<Event>, token: TokenId, raw: RawTx) {
    exists m :: Moving(m) in events && raw.call == SendErc721(token.contract, m.hotWallet, token.id)
  }

  /** Once swept out, a row has a transaction to ask about; what it has is the persisted one, and goes home. */
  ghost predicate RowOk(events: seq<Event>, s: Sweep) {
    && s.sweepHash == s.sweepTx
    && (s.status.Sweeping? || s.status.Swept? || s.status.SweepFailed? ==> s.sweepTx.Some?)
    && (s.sweepTx.Some? ==> s.sweepNonce == Some(s.sweepTx.value.nonce) && SendsHome(events, s.token, s.sweepTx.value))
  }

  ghost predicate RowsOk(events: seq<Event>, w: World) {
    && |w.lives| == |w.sweeps| && UniqueTokens(w.sweeps)
    && forall i :: 0 <= i < |w.sweeps| ==> RowOk(events, w.sweeps[i])
  }

  lemma RowLater(events: seq<Event>, e: Event, s: Sweep)
    requires RowOk(events, s)
    ensures RowOk(events + [e], s)
  {
    if s.sweepTx.Some? {
      var m :| Moving(m) in events && s.sweepTx.value.call == SendErc721(s.token.contract, m.hotWallet, s.token.id);
      assert Moving(m) in events + [e];
    }
  }

  lemma DiscoveredRow(events: seq<Event>, w: World, deposits: seq<CreditedNft>, i: nat)
    requires RowsOk(events, w) && i < |Next(w, Discovery(deposits)).sweeps|
    ensures RowOk(events + [Discovery(deposits)], Next(w, Discovery(deposits)).sweeps[i])
  {
    hide Next, Untracked, UniqueTokens, DistinctTokens, SendsHome, Mentions;
    DiscoveryPhase(w, deposits);
    var after := Next(w, Discovery(deposits)).sweeps;
    if i < |w.sweeps| {
      RowLater(events, Discovery(deposits), w.sweeps[i]);
      assert after == w.sweeps || RediscoveredAs(w.sweeps[i], after[i], deposits);
    } else {
      assert NewSweep(after[|w.sweeps| + (i - |w.sweeps|)], Untracked(w.sweeps, deposits)[i - |w.sweeps|]);
    }
  }

  lemma MovedRow(events: seq<Event>, w: World, m: Mover, i: nat)
    requires RowsOk(events, w) && i < |w.sweeps| && w.sweeps[i].token == Next(w, Moving(m)).sweeps[i].token
    ensures RowOk(events + [Moving(m)], Next(w, Moving(m)).sweeps[i])
  {
    hide Next, ClaimSweeps, UniqueTokens;
    MovePhase(w, m, i);
    RowLater(events, Moving(m), w.sweeps[i]);
    assert Moving(m) in events + [Moving(m)];
  }

  /** What every event keeps, row by row. */
  lemma RowKept(events: seq<Event>, w: World, e: Event, i: nat)
    requires RowsOk(events, w) && i < |Next(w, e).sweeps|
    ensures RowOk(events + [e], Next(w, e).sweeps[i])
    ensures !e.Discovery? ==> |Next(w, e).sweeps| == |w.sweeps| && Next(w, e).sweeps[i].token == w.sweeps[i].token
  {
    hide Next, ClaimSweeps, UniqueTokens, SendsHome;
    match e
    case Discovery(deposits) => DiscoveredRow(events, w, deposits, i);
    case GasFunding(f) =>
      SameRows(w, e);
      RowLater(events, e, w.sweeps[i]);
      FundPhase(w, f, i);
    case Moving(m) =>
      SameRows(w, e);
      MovePhase(w, m, i);
      MovedRow(events, w, m, i);
    case Confirming(c) =>
      SameRows(w, e);
      RowLater(events, e, w.sweeps[i]);
      assert forall k :: 0 <= k < |w.sweeps| ==> RowOk(events, w.sweeps[k]);
      ConfirmPhase(w, c, i);
    case Elsewhere(_) =>
      SameRows(w, e);
      RowLater(events, e, w.sweeps[i]);
  }

  lemma SameRows(w: World, e: Event)
    requires |w.lives| == |w.sweeps| && !e.Discovery?
    ensures |Next(w, e).sweeps| == |w.sweeps|
    ensures e.Elsewhere? ==> Next(w, e).sweeps == w.sweeps
  {
    match e
    case Moving(m) => ClaimsInRange(w.sweeps, {Funded}, m.locked, m.batch);
    case Confirming(c) => ClaimsInRange(w.sweeps, {Sweeping}, c.locked, c.batch);
    case _ =>
  }

  lemma NextRowsOk(events: seq<Event>, w: World, e: Event)
    requires RowsOk(events, w)
    ensures RowsOk(events + [e], Next(w, e))
  {
    hide Next, RowOk;
    forall i: nat | i < |Next(w, e).sweeps|
      ensures RowOk(events + [e], Next(w, e).sweeps[i])
      ensures !e.Discovery? ==> |Next(w, e).sweeps| == |w.sweeps| && Next(w, e).sweeps[i].token == w.sweeps[i].token
    {
      RowKept(events, w, e, i);
    }
    if e.Discovery? {
      DiscoveryPhase(w, e.deposits);
    } else {
      SameRows(w, e);
    }
  }

  lemma StartsOk()
    ensures RowsOk([], World([], None, []))
  {
  }

  lemma RunStep(events: seq<Event>)
    requires events != []
    ensures Run(events) == Next(Run(events[..|events| - 1]), events[|events| - 1])
  {
    hide Next;
  }

  lemma {:induction false} RunRowsOk(events: seq<Event>)
    ensures RowsOk(events, Run(events))
    decreases |events|
  {
    if events == [] {
      StartsOk();
      return;
    }
    RunStep(events);
    hide RowsOk, Next, Run;
    var front, e := events[..|events| - 1], events[|events| - 1];
    RunRowsOk(front);
    NextRowsOk(front, Run(front), e);
    FrontAndLast(events);
  }

  /** In every run, every sweep transaction ever persisted sends the sweep's own token to the hot wallet. */
  lemma SweepsGoHome(events: seq<Event>, i: nat)
    requires i < |Run(events).sweeps|
    ensures var s := Run(events).sweeps[i];
      s.sweepHash == s.sweepTx && (s.sweepTx.Some? ==> SendsHome(events, s.token, s.sweepTx.value))
  {
    hide Run, SendsHome;
    RunRowsOk(events);
    assert RowOk(events, Run(events).sweeps[i]);
  }

  /** In every run, what a confirm pass makes of every sweep; a claimed one always has a transaction to ask about. */
  lemma ConfirmDecides(events: seq<Event>, c: Checker, i: nat)
    requires i < |Run(events).sweeps|
    ensures var w := Run(events);
      var after := Next(w, Confirming(c)).sweeps;
      |after| == |w.sweeps| &&
      if i in ClaimSweeps(w.sweeps, {Sweeping}, c.locked, c.batch)
      then w.sweeps[i].sweepHash.Some? && CheckedAs(w.sweeps[i], after[i], c, i) else after[i] == w.sweeps[i]
  {
    hide Run, Next, ClaimSweeps, CheckedAs, SendsHome;
    RunRowsOk(events);
    assert forall k :: 0 <= k < |Run(events).sweeps| ==> RowOk(events, Run(events).sweeps[k]);
    ConfirmPhase(Run(events), c, i);
  }

  /** In every run, what a discovery pass makes of the sweeps. */
  lemma DiscoveryDecides(events: seq<Event>, deposits: seq<CreditedNft>)
    ensures var w := Run(events);
      var after := Next(w, Discovery(deposits)).sweeps;
      if DistinctTokens(Untracked(w.sweeps, deposits)) then DiscoveredAs(w.sweeps, after, deposits)
      else after == w.sweeps
  {
    hide Run, Next, DiscoveredAs, DistinctTokens, Untracked, RowOk;
    RunRowsOk(events);
    DiscoveryPhase(Run(events), deposits);
  }
}
