/**
 * The NFT deposit sweeper: discover, fund gas from the hot wallet, sweep, confirm. A failed sweep is
 * re-armed a bounded number of times, although `attempts` is bumped in two different phases.
 */
module Sweeper {
  import opened Wrappers
  import opened Tables
  import Nonce
  import Payouts

  const GAS_BUDGET_WEI := 2_000_000_000_000_000
  const MAX_SWEEP_ATTEMPTS := 3

  // ---- discovery ----------------------------------------------------------------------------

  /** A credited NFT deposit: the token and the address that owns it. */
  datatype CreditedNft = CreditedNft(token: TokenId, address: string)

  function FindSweep(sweeps: seq<Sweep>, token: TokenId): (r: Option<nat>)
    ensures r.Some? ==> r.value < |sweeps| && sweeps[r.value].token == token
    ensures r.None? ==> forall i :: 0 <= i < |sweeps| ==> sweeps[i].token != token
  {
    if sweeps == [] then None
    else if sweeps[|sweeps| - 1].token == token then Some(|sweeps| - 1)
    else FindSweep(sweeps[..|sweeps| - 1], token)
  }

  function Armed(d: CreditedNft): Sweep {
    Sweep(d.token, d.address, SweepPending, None, None, None, None, None, None, 0)
  }

  function Rearmed(s: Sweep): Sweep {
    if s.status.SweepFailed? && s.attempts < MAX_SWEEP_ATTEMPTS
    then Sweep(s.token, s.address, SweepPending, None, None, None, None, None, None, s.attempts)
    else s
  }

  /** The outer join is read once, so every deposit is matched against the rows before the pass. */
  function Discovered(sweeps: seq<Sweep>, deposits: seq<CreditedNft>): (r: seq<Sweep>)
    ensures |r| >= |sweeps|
  {
    if deposits == [] then sweeps else
      var rows := Discovered(sweeps, deposits[..|deposits| - 1]);
      var d := deposits[|deposits| - 1];
      match FindSweep(sweeps, d.token)
      case Some(i) => rows[i := Rearmed(rows[i])]
      case None => rows + [Armed(d)]
  }

  predicate UniqueTokens(sweeps: seq<Sweep>) {
    forall i, j :: 0 <= i < j < |sweeps| ==> sweeps[i].token != sweeps[j].token
  }

  /** Two new rows for one token violate the unique index and roll the pass back. */
  function Discover(sweeps: seq<Sweep>, deposits: seq<CreditedNft>): seq<Sweep> {
    var rows := Discovered(sweeps, deposits);
    if UniqueTokens(rows) then rows else sweeps
  }

  method DiscoverSweeps(session: Session, deposits: seq<CreditedNft>) returns (committed: bool)
    modifies session`sweeps
    ensures session.sweeps == Discover(old(session.sweeps), deposits)
    ensures committed <==> UniqueTokens(Discovered(old(session.sweeps), deposits))
  {
    var before := session.sweeps;
    for k := 0 to |deposits|
      invariant session.sweeps == Discovered(before, deposits[..k])
    {
      assert deposits[..k + 1][..k] == deposits[..k];
      var d := deposits[k];
      var existing := FindSweep(before, d.token);
      if existing.None? {
        session.sweeps := session.sweeps + [Armed(d)];
        continue;
      }
      var i := existing.value;
      var s := session.sweeps[i];
      if s.status.SweepFailed? && s.attempts < MAX_SWEEP_ATTEMPTS {
        s := s.(status := SweepPending, gasFundTx := None, gasFundNonce := None);
        s := s.(sweepTx := None, sweepHash := None, sweepNonce := None, unminedSince := None);
      }
      assert s == Rearmed(session.sweeps[i]);
      session.sweeps := session.sweeps[i := s];
    }
    assert deposits[..|deposits|] == deposits;
    committed := UniqueTokens(session.sweeps);
    if !committed {
      session.sweeps := before;
    }
  }

  // ---- claiming -----------------------------------------------------------------------------

  function ClaimSweeps(sweeps: seq<Sweep>, wanted: set<SweepStatus>, locked: set<nat>, batch: nat): (ids: seq<nat>)
    ensures |ids| <= batch
    ensures forall k :: 0 <= k < |ids| ==> ids[k] < |sweeps| && sweeps[ids[k]].status in wanted && ids[k] !in locked
    ensures forall j, k :: 0 <= j < k < |ids| ==> ids[j] < ids[k]
    ensures |ids| < batch ==> forall i :: 0 <= i < |sweeps| && sweeps[i].status in wanted && i !in locked ==> i in ids
    ensures forall i, k :: 0 <= k < |ids| && 0 <= i < ids[k] && sweeps[i].status in wanted && i !in locked ==> i in ids
  {
    if sweeps == [] then [] else
      var last := |sweeps| - 1;
      var front := ClaimSweeps(sweeps[..last], wanted, locked, batch);
      if sweeps[last].status in wanted && last !in locked && |front| < batch then front + [last] else front
  }

  // ---- funding ------------------------------------------------------------------------------

  /** The oracles of one funding pass, per claimed row. */
  datatype Funder = Funder(
    address: string, chainNonce: nat, gasPrice: nat,
    enough: nat -> bool, signs: nat -> bool, accepts: nat -> bool, locked: set<nat>, batch: nat)

  /** `row` is the shared nonce counter, reconciled when the first gas transaction needs it. */
  datatype Till = Till(sweeps: seq<Sweep>, row: Option<HotWalletNonce>, loaded: bool)

  function GasTx(s: Sweep, nonce: nat, gasPrice: nat): RawTx {
    RawTx(SendNative(s.address, GAS_BUDGET_WEI), nonce, gasPrice)
  }

  function FundRow(t: Till, i: nat, f: Funder): (r: Till)
    requires i < |t.sweeps| && (t.loaded ==> t.row.Some?)
    ensures |r.sweeps| == |t.sweeps| && (r.loaded ==> r.row.Some?)
  {
    var s := t.sweeps[i];
    if f.enough(i) then t.(sweeps := t.sweeps[i := s.(status := Funded)])
    else if s.status.Funding? then
      if s.gasFundNonce.None? || !f.accepts(i) then t
      else t.(sweeps := t.sweeps[i := s.(gasFundTx := Some(GasTx(s, s.gasFundNonce.value, f.gasPrice)))])
    else if !s.status.SweepPending? then t
    else
      var row := if t.loaded then t.row.value else Nonce.Reconciled(t.row, f.address, f.chainNonce);
      var tried := s.(attempts := s.attempts + 1);
      if !f.signs(i) then Till(t.sweeps[i := tried], Some(row), true)
      else
        var nonce := row.nextNonce;
        Till(t.sweeps[i := tried.(gasFundTx := Some(GasTx(s, nonce, f.gasPrice)), gasFundNonce := Some(nonce),
          status := Funding)],
             Some(row.(nextNonce := nonce + 1)), true)
  }

  function FundRows(t: Till, ids: seq<nat>, f: Funder): (r: Till)
    requires (t.loaded ==> t.row.Some?) && forall k :: 0 <= k < |ids| ==> ids[k] < |t.sweeps|
    ensures |r.sweeps| == |t.sweeps| && (r.loaded ==> r.row.Some?)
  {
    if ids == [] then t else FundRow(FundRows(t, ids[..|ids| - 1], f), ids[|ids| - 1], f)
  }

  function Fund(sweeps: seq<Sweep>, row: Option<HotWalletNonce>, f: Funder): Till {
    FundRows(Till(sweeps, row, false), ClaimSweeps(sweeps, {SweepPending, Funding}, f.locked, f.batch), f)
  }

  method FundOne(session: Session, i: nat, f: Funder, loaded: bool) returns (nowLoaded: bool)
    requires i < |session.sweeps| && (loaded ==> session.hotNonce.Some?)
    modifies session`sweeps, session`hotNonce
    ensures Till(session.sweeps, session.hotNonce, nowLoaded) ==
      FundRow(Till(old(session.sweeps), old(session.hotNonce), loaded), i, f)
  {
    nowLoaded := loaded;
    var s := session.sweeps[i];
    if f.enough(i) {
      session.sweeps := session.sweeps[i := s.(status := Funded)];
      return;
    }
    if s.status.Funding? {
      if s.gasFundNonce.Some? && f.accepts(i) {
        session.sweeps := session.sweeps[i := s.(gasFundTx := Some(GasTx(s, s.gasFundNonce.value, f.gasPrice)))];
      }
      return;
    }
    if !s.status.SweepPending? {
      return;
    }
    if !loaded {
      var _ := Nonce.NonceRow(session, f.address, f.chainNonce);
      nowLoaded := true;
    }
    var nonce := session.hotNonce.value.nextNonce;
    s := s.(attempts := s.attempts + 1);
    if f.signs(i) {
      s := s.(gasFundTx := Some(GasTx(s, nonce, f.gasPrice)), gasFundNonce := Some(nonce));
      session.hotNonce := Some(session.hotNonce.value.(nextNonce := nonce + 1));
      s := s.(status := Funding);
    }
    session.sweeps := session.sweeps[i := s];
  }

  method FundPending(session: Session, f: Funder)
    modifies session`sweeps, session`hotNonce
    ensures var t := Fund(old(session.sweeps), old(session.hotNonce), f);
      session.sweeps == t.sweeps && session.hotNonce == t.row
  {
    hide FundRow;
    var ids := ClaimSweeps(session.sweeps, {SweepPending, Funding}, f.locked, f.batch);
    var loaded := false;
    ghost var start := Till(session.sweeps, session.hotNonce, false);
    for k := 0 to |ids|
      invariant |session.sweeps| == |start.sweeps| && (loaded ==> session.hotNonce.Some?)
      invariant Till(session.sweeps, session.hotNonce, loaded) == FundRows(start, ids[..k], f)
    {
      assert ids[..k + 1][..k] == ids[..k];
      loaded := FundOne(session, ids[k], f, loaded);
    }
    assert ids[..|ids|] == ids;
  }

  // ---- the nonces a funding pass draws --------------------------------------------------------

  /** The rows among `ids` that went from PENDING to FUNDING, with the gas nonces they hold. */
  function GasDrawn(before: seq<Sweep>, after: seq<Sweep>, ids: seq<nat>): seq<Payouts.Draw>
    requires |after| == |before| && forall k :: 0 <= k < |ids| ==> ids[k] < |before|
  {
    if ids == [] then [] else
      var last := ids[|ids| - 1];
      GasDrawn(before, after, ids[..|ids| - 1]) + GasHeld(before[last], after[last], last)
  }

  predicate NewlyFunding(before: Sweep, after: Sweep) {
    before.status.SweepPending? && after.status.Funding?
  }

  function GasHeld(before: Sweep, after: Sweep, row: nat): seq<Payouts.Draw> {
    if NewlyFunding(before, after) && after.gasFundNonce.Some?
    then [Payouts.Draw(row, after.gasFundNonce.value)] else []
  }

  lemma {:induction false} GasDrawnElsewhere(before: seq<Sweep>, after: seq<Sweep>, ids: seq<nat>, i: nat, s: Sweep)
    requires |after| == |before| && i < |after| && i !in ids && forall k :: 0 <= k < |ids| ==> ids[k] < |before|
    ensures GasDrawn(before, after[i := s], ids) == GasDrawn(before, after, ids)
    decreases |ids|
  {
    if ids == [] {
    } else {
      var front, last := ids[..|ids| - 1], ids[|ids| - 1];
      assert ids == front + [last];
      GasDrawnElsewhere(before, after, front, i, s);
    }
  }

  /**
   * One row: a PENDING row that gets funded takes the counter's next nonce for a transfer of the gas
   * budget; a failed signing, an already funded row and a re-sent one take none and keep their nonce.
   */
  lemma FundRowDraws(t: Till, i: nat, f: Funder)
    requires i < |t.sweeps| && (t.loaded ==> t.row.Some?)
    ensures var r, s := FundRow(t, i, f), t.sweeps[i];
      var row := if t.loaded then t.row.value else Nonce.Reconciled(t.row, f.address, f.chainNonce);
      && r.sweeps == t.sweeps[i := r.sweeps[i]]
      && (t.loaded ==> r.loaded)
      && (!r.loaded ==> r.row == t.row && !NewlyFunding(s, r.sweeps[i]))
      && (r.loaded ==> r.row == Some(row.(nextNonce := row.nextNonce + |GasHeld(s, r.sweeps[i], i)|)))
      && (if NewlyFunding(s, r.sweeps[i])
          then r.sweeps[i].gasFundNonce == Some(row.nextNonce)
               && r.sweeps[i].gasFundTx == Some(GasTx(s, row.nextNonce, f.gasPrice))
          else r.sweeps[i].gasFundNonce == s.gasFundNonce)
  {
    assert t.sweeps[i := t.sweeps[i]] == t.sweeps;
  }

  /** The counter gave out exactly the nonces of `draws`, or was not needed. */
  ghost predicate CounterDrew(t: Till, r: Till, draws: seq<Payouts.Draw>, f: Funder) {
    && (!r.loaded ==> r.row == t.row && draws == [])
    && (r.loaded ==> Nonce.Drew(t.row, r.row, Payouts.NoncesOf(draws), f.address, f.chainNonce))
  }

  /** What became of one row: funded under the gas nonce it holds, or its nonce left alone. */
  predicate RowFunded(before: Sweep, after: Sweep, gasPrice: nat) {
    if NewlyFunding(before, after)
    then after.gasFundNonce.Some? && after.gasFundTx == Some(GasTx(before, after.gasFundNonce.value, gasPrice))
    else after.gasFundNonce == before.gasFundNonce
  }

  ghost predicate FundingDrew(t: Till, r: Till, ids: seq<nat>, f: Funder)
    requires |r.sweeps| == |t.sweeps| && forall k :: 0 <= k < |ids| ==> ids[k] < |t.sweeps|
  {
    && CounterDrew(t, r, GasDrawn(t.sweeps, r.sweeps, ids), f)
    && (forall j: nat :: j < |t.sweeps| && j !in ids ==> r.sweeps[j] == t.sweeps[j])
    && (forall j: nat :: j < |t.sweeps| ==> RowFunded(t.sweeps[j], r.sweeps[j], f.gasPrice))
  }

  lemma CounterStep(t: Till, m: Till, draws: seq<Payouts.Draw>, i: nat, f: Funder)
    requires !t.loaded && (m.loaded ==> m.row.Some?) && CounterDrew(t, m, draws, f) && i < |m.sweeps|
    ensures var r := FundRow(m, i, f);
      CounterDrew(t, r, draws + GasHeld(m.sweeps[i], r.sweeps[i], i), f)
  {
    hide FundRow, GasTx;
    var r := FundRow(m, i, f);
    FundRowDraws(m, i, f);
    var held := GasHeld(m.sweeps[i], r.sweeps[i], i);
    if r.loaded {
      Payouts.NoncesConcat(draws, held);
      var mid := if m.loaded then m.row else Some(Nonce.Reconciled(t.row, f.address, f.chainNonce));
      Nonce.DrewMore(t.row, mid, r.row, Payouts.NoncesOf(draws), Payouts.NoncesOf(held), f.address, f.chainNonce);
    }
  }

  lemma FundStepDraws(t: Till, m: Till, ids: seq<nat>, i: nat, f: Funder)
    requires !t.loaded && (m.loaded ==> m.row.Some?)
    requires |m.sweeps| == |t.sweeps| && forall k :: 0 <= k < |ids| ==> ids[k] < |t.sweeps|
    requires FundingDrew(t, m, ids, f) && i < |t.sweeps| && i !in ids
    ensures FundingDrew(t, FundRow(m, i, f), ids + [i], f)
  {
    hide FundRow, GasTx, CounterDrew;
    var r := FundRow(m, i, f);
    FundRowDraws(m, i, f);
    assert m.sweeps[i] == t.sweeps[i];
    assert (ids + [i])[..|ids|] == ids;
    GasDrawnElsewhere(t.sweeps, m.sweeps, ids, i, r.sweeps[i]);
    CounterStep(t, m, GasDrawn(t.sweeps, m.sweeps, ids), i, f);
  }

  lemma {:induction false} FundRowsDraw(t: Till, ids: seq<nat>, f: Funder)
    requires !t.loaded && (forall k :: 0 <= k < |ids| ==> ids[k] < |t.sweeps|)
    requires forall j, k :: 0 <= j < k < |ids| ==> ids[j] < ids[k]
    ensures FundingDrew(t, FundRows(t, ids, f), ids, f)
    decreases |ids|
  {
    if ids == [] {
    } else {
      hide FundRow, FundingDrew;
      var front, last := ids[..|ids| - 1], ids[|ids| - 1];
      FundRowsDraw(t, front, f);
      assert last !in front && ids == front + [last];
      FundStepDraws(t, FundRows(t, front, f), front, last, f);
    }
  }

  /**
   * One funding pass gives exactly its newly FUNDING rows the consecutive nonces from the reconciled
   * counter, one each, and changes no other row's nonce; the counter is untouched if no row needed it.
   */
  lemma FundDraws(sweeps: seq<Sweep>, row: Option<HotWalletNonce>, f: Funder)
    ensures FundingDrew(Till(sweeps, row, false), Fund(sweeps, row, f),
      ClaimSweeps(sweeps, {SweepPending, Funding}, f.locked, f.batch), f)
  {
    FundRowsDraw(Till(sweeps, row, false), ClaimSweeps(sweeps, {SweepPending, Funding}, f.locked, f.batch), f);
  }

  // ---- sweeping and confirming ---------------------------------------------------------------

  /** Applies a row function to the rows `ids`. */
  function ForEach(sweeps: seq<Sweep>, ids: seq<nat>, f: (nat, Sweep) -> Sweep): (r: seq<Sweep>)
    requires forall k :: 0 <= k < |ids| ==> ids[k] < |sweeps|
    ensures |r| == |sweeps|
  {
    if ids == [] then sweeps else
      var rows := ForEach(sweeps, ids[..|ids| - 1], f);
      var i := ids[|ids| - 1];
      rows[i := f(i, rows[i])]
  }

  /** The oracles of one sweeping pass; `nonce` is the next nonce of the row's own deposit address. */
  datatype Mover = Mover(
    hotWallet: string, gasPrice: nat, nonce: nat -> nat, signs: nat -> bool, accepts: RawTx -> bool,
    locked: set<nat>, batch: nat)

  /** The deposit address sends its token to the hot wallet. */
  function SweepTransfer(m: Mover, i: nat, s: Sweep): RawTx {
    RawTx(SendErc721(s.token.contract, m.hotWallet, s.token.id), m.nonce(i), m.gasPrice)
  }

  function SweptOut(m: Mover): (nat, Sweep) -> Sweep {
    (i: nat, s: Sweep) =>
      var tried := s.(attempts := s.attempts + 1);
      if s.sweepTx.None? && !m.signs(i) then tried
      else
        var raw := if s.sweepTx.Some? then s.sweepTx.value else SweepTransfer(m, i, s);
        var signed := if s.sweepTx.Some? then tried
                      else tried.(sweepTx := Some(raw), sweepHash := Some(raw), sweepNonce := Some(raw.nonce));
        if m.accepts(raw) then signed.(sweepHash := Some(raw), status := Sweeping) else signed
  }

  method SweepOne(s: Sweep, i: nat, m: Mover) returns (r: Sweep)
    ensures r == SweptOut(m)(i, s)
  {
    r := s.(attempts := s.attempts + 1);
    if r.sweepTx.None? {
      if !m.signs(i) {
        return;
      }
      var raw := SweepTransfer(m, i, s);
      r := r.(sweepTx := Some(raw), sweepHash := Some(raw), sweepNonce := Some(raw.nonce));
    }
    if m.accepts(r.sweepTx.value) {
      r := r.(sweepHash := r.sweepTx);
      r := r.(status := Sweeping);
    }
  }

  method SweepFunded(session: Session, m: Mover)
    modifies session`sweeps
    ensures session.sweeps ==
      ForEach(old(session.sweeps), ClaimSweeps(old(session.sweeps), {Funded}, m.locked, m.batch), SweptOut(m))
  {
    hide SweptOut, ClaimSweeps;
    var ids := ClaimSweeps(session.sweeps, {Funded}, m.locked, m.batch);
    ghost var start := session.sweeps;
    for k := 0 to |ids|
      invariant |session.sweeps| == |start|
      invariant session.sweeps == ForEach(start, ids[..k], SweptOut(m))
    {
      assert ids[..k + 1][..k] == ids[..k];
      var s := SweepOne(session.sweeps[ids[k]], ids[k], m);
      session.sweeps := session.sweeps[ids[k] := s];
    }
    assert ids[..|ids|] == ids;
  }

  /** Each row is asked about its own deposit address: `rpc(i).latestNonce` is that address's nonce. */
  datatype Checker = Checker(
    rpc: nat -> Payouts.Rpc, ownedByHotWallet: nat -> bool, confirmations: int, locked: set<nat>, batch: nat)

  function Checked(c: Checker): (nat, Sweep) -> Sweep {
    (i: nat, s: Sweep) =>
      var rpc := c.rpc(i);
      if s.sweepHash.None? then s
      else match rpc.receipt(s.sweepHash.value)
        case None =>
          if s.sweepNonce.None? then s
          else if rpc.latestNonce <= s.sweepNonce.value then s.(unminedSince := None)
          else if s.unminedSince.None? then s.(unminedSince := Some(rpc.head))
          else if rpc.head - s.unminedSince.value >= c.confirmations then s.(status := SweepFailed)
          else s
        case Some(r) =>
          var cleared := s.(unminedSince := None);
          if rpc.head - r.block < c.confirmations || rpc.hashAt(r.block) != Some(r.hash) then cleared
          else if !r.ok then cleared.(status := SweepFailed)
          else if !c.ownedByHotWallet(i) then cleared
          else cleared.(status := Swept)
  }

  method CheckOne(sweep: Sweep, i: nat, c: Checker) returns (s: Sweep)
    ensures s == Checked(c)(i, sweep)
  {
    s := sweep;
    if s.sweepHash.None? {
      return;
    }
    var rpc := c.rpc(i);
    var receipt := rpc.receipt(s.sweepHash.value);
    if receipt.None? {
      if s.sweepNonce.None? {
        return;
      }
      if rpc.latestNonce <= s.sweepNonce.value {
        s := s.(unminedSince := None);
      } else if s.unminedSince.None? {
        s := s.(unminedSince := Some(rpc.head));
      } else if rpc.head - s.unminedSince.value >= c.confirmations {
        s := s.(status := SweepFailed);
      }
      return;
    }
    s := s.(unminedSince := None);
    if rpc.head - receipt.value.block < c.confirmations {
      return;
    }
    var canonical := rpc.hashAt(receipt.value.block);
    if canonical.None? || canonical.value != receipt.value.hash {
      return;
    }
    if !receipt.value.ok {
      s := s.(status := SweepFailed);
    } else if c.ownedByHotWallet(i) {
      s := s.(status := Swept);
    }
  }

  method ConfirmSweeps(session: Session, c: Checker)
    modifies session`sweeps
    ensures session.sweeps ==
      ForEach(old(session.sweeps), ClaimSweeps(old(session.sweeps), {Sweeping}, c.locked, c.batch), Checked(c))
  {
    hide Checked, ClaimSweeps;
    var ids := ClaimSweeps(session.sweeps, {Sweeping}, c.locked, c.batch);
    ghost var start := session.sweeps;
    for k := 0 to |ids|
      invariant |session.sweeps| == |start|
      invariant session.sweeps == ForEach(start, ids[..k], Checked(c))
    {
      assert ids[..k + 1][..k] == ids[..k];
      var s := CheckOne(session.sweeps[ids[k]], ids[k], c);
      session.sweeps := session.sweeps[ids[k] := s];
    }
    assert ids[..|ids|] == ids;
  }

  // ---- runs ---------------------------------------------------------------------------------

  /** What a committed pass handed to the network for a row it claimed: a fresh or a re-sent gas transfer. */
  function GasSent(before: Sweep, after: Sweep, gasPrice: nat): seq<RawTx> {
    if (NewlyFunding(before, after) || (before.status.Funding? && after.status.Funding?)) && after.gasFundNonce.Some?
    then [GasTx(before, after.gasFundNonce.value, gasPrice)] else []
  }

  /**
   * The past of a sweep over the committed passes: how often it became PENDING, the gas nonces it was
   * given, and the gas transfers sent for it.
   */
  datatype Life = Life(armed: nat, nonces: seq<nat>, gas: seq<RawTx>)

  const BORN := Life(1, [], [])

  function Lived(life: Life, before: Sweep, after: Sweep, sent: seq<RawTx>): Life {
    Life(life.armed + (if before.status.SweepFailed? && after.status.SweepPending? then 1 else 0),
         life.nonces + Payouts.NoncesOf(GasHeld(before, after, 0)),
         life.gas + sent)
  }

  datatype World = World(sweeps: seq<Sweep>, row: Option<HotWalletNonce>, lives: seq<Life>)

  datatype Event =
    | Discovery(deposits: seq<CreditedNft>)
    | GasFunding(f: Funder)
    | Moving(m: Mover)
    | Confirming(c: Checker)
    | Elsewhere(row: Option<HotWalletNonce>)      // the other outboxes move the shared counter

  /** A pass leaves `rows`; `claimed` and `gasPrice` say what gas transfers it sent. */
  function Count(w: World, rows: seq<Sweep>, row: Option<HotWalletNonce>, claimed: seq<nat>, gasPrice: nat): World
    requires |rows| >= |w.sweeps| == |w.lives|
  {
    World(rows, row,
      seq(|rows|, i requires 0 <= i < |rows| =>
        if i >= |w.sweeps| then BORN
        else Lived(w.lives[i], w.sweeps[i], rows[i],
          if i in claimed then GasSent(w.sweeps[i], rows[i], gasPrice) else [])))
  }

  function Next(w: World, e: Event): (r: World)
    requires |w.lives| == |w.sweeps|
    ensures |r.lives| == |r.sweeps| && |r.sweeps| >= |w.sweeps|
  {
    match e
    case Discovery(deposits) => Count(w, Discover(w.sweeps, deposits), w.row, [], 0)
    case GasFunding(f) =>
      var t := Fund(w.sweeps, w.row, f);
      Count(w, t.sweeps, t.row, ClaimSweeps(w.sweeps, {SweepPending, Funding}, f.locked, f.batch), f.gasPrice)
    case Moving(m) =>
      Count(w, ForEach(w.sweeps, ClaimSweeps(w.sweeps, {Funded}, m.locked, m.batch), SweptOut(m)), w.row, [], 0)
    case Confirming(c) =>
      Count(w, ForEach(w.sweeps, ClaimSweeps(w.sweeps, {Sweeping}, c.locked, c.batch), Checked(c)), w.row, [], 0)
    case Elsewhere(row) => w.(row := row)
  }

  function Run(events: seq<Event>): (r: World)
    ensures |r.lives| == |r.sweeps|
  {
    if events == [] then World([], None, []) else Next(Run(events[..|events| - 1]), events[|events| - 1])
  }

  // ---- the bound ----------------------------------------------------------------------------

  /** How a pass may move the gas nonce: given when funding starts, otherwise kept or cleared. */
  predicate NonceStep(s: Sweep, t: Sweep) {
    t.address == s.address &&
    if NewlyFunding(s, t) then t.gasFundNonce.Some? else t.gasFundNonce.None? || t.gasFundNonce == s.gasFundNonce
  }

  /** The row transitions that exist, and how they move `attempts`. */
  predicate RowStep(s: Sweep, t: Sweep) {
    && s.attempts <= t.attempts && NonceStep(s, t)
    && match (s.status, t.status)
       case (SweepPending, Funding) => true
       case (SweepPending, Funded) => true
       case (Funding, Funded) => true
       case (Funded, Sweeping) => s.attempts < t.attempts
       case (Sweeping, Swept) => true
       case (Sweeping, SweepFailed) => true
       case (SweepFailed, SweepPending) => s.attempts < MAX_SWEEP_ATTEMPTS
       case (a, b) => a == b
  }

  predicate GasTransfer(g: RawTx, address: string, nonces: seq<nat>) {
    g.call == SendNative(address, GAS_BUDGET_WEI) && g.nonce in nonces
  }

  /** Every arming but the current one has cost an attempt, and is given at most one gas nonce. */
  predicate LifeOk(s: Sweep, life: Life) {
    && 1 <= life.armed <= MAX_SWEEP_ATTEMPTS && |life.nonces| <= life.armed
    && (s.status.SweepPending? ==> |life.nonces| < life.armed)
    && life.armed - 1 <= s.attempts
    && (s.status.Sweeping? || s.status.Swept? || s.status.SweepFailed? ==> life.armed <= s.attempts)
    && (s.gasFundNonce.Some? ==> s.gasFundNonce.value in life.nonces)
    && (forall g :: g in life.gas ==> GasTransfer(g, s.address, life.nonces))
  }

  ghost predicate Ok(w: World) {
    |w.lives| == |w.sweeps| && forall i :: 0 <= i < |w.sweeps| ==> LifeOk(w.sweeps[i], w.lives[i])
  }

  lemma LifeKeeps(s: Sweep, t: Sweep, life: Life, sent: seq<RawTx>, gasPrice: nat)
    requires LifeOk(s, life) && RowStep(s, t) && (sent == [] || sent == GasSent(s, t, gasPrice))
    ensures LifeOk(t, Lived(life, s, t, sent))
  {
    var after := Lived(life, s, t, sent);
    if NewlyFunding(s, t) {
      assert after.nonces == life.nonces + [t.gasFundNonce.value];
    } else {
      assert after.nonces == life.nonces;
    }
    forall g | g in after.gas
      ensures GasTransfer(g, t.address, after.nonces)
    {
      if g in life.gas {
        assert GasTransfer(g, s.address, life.nonces);
      }
    }
  }

  lemma CountKeeps(w: World, rows: seq<Sweep>, row: Option<HotWalletNonce>, claimed: seq<nat>, gasPrice: nat)
    requires Ok(w) && |rows| >= |w.sweeps|
    requires forall i :: 0 <= i < |w.sweeps| ==> RowStep(w.sweeps[i], rows[i])
    requires forall i :: |w.sweeps| <= i < |rows| ==> LifeOk(rows[i], BORN)
    ensures Ok(Count(w, rows, row, claimed, gasPrice))
  {
    hide LifeOk, RowStep, Lived, GasSent;
    var after := Count(w, rows, row, claimed, gasPrice);
    forall i | 0 <= i < |rows|
      ensures LifeOk(rows[i], after.lives[i])
    {
      if i < |w.sweeps| {
        LifeKeeps(w.sweeps[i], rows[i], w.lives[i],
          if i in claimed then GasSent(w.sweeps[i], rows[i], gasPrice) else [], gasPrice);
      }
    }
  }

  predicate IsArmed(s: Sweep) {
    s == Armed(CreditedNft(s.token, s.address))
  }

  lemma {:induction false} DiscoveredSteps(sweeps: seq<Sweep>, deposits: seq<CreditedNft>)
    ensures var rows := Discovered(sweeps, deposits);
      && (forall i :: 0 <= i < |sweeps| ==> rows[i] == sweeps[i] || rows[i] == Rearmed(sweeps[i]))
      && (forall i :: |sweeps| <= i < |rows| ==> IsArmed(rows[i]))
    decreases |deposits|
  {
    if deposits == [] {
    } else {
      DiscoveredSteps(sweeps, deposits[..|deposits| - 1]);
    }
  }

  lemma FundRowSteps(t: Till, i: nat, f: Funder)
    requires i < |t.sweeps| && (t.loaded ==> t.row.Some?)
    requires t.sweeps[i].status.SweepPending? || t.sweeps[i].status.Funding?
    ensures var r := FundRow(t, i, f); r.sweeps == t.sweeps[i := r.sweeps[i]] && RowStep(t.sweeps[i], r.sweeps[i])
  {
  }

  lemma {:induction false} FundRowsSteps(t: Till, ids: seq<nat>, f: Funder)
    requires (t.loaded ==> t.row.Some?)
    requires forall k :: 0 <= k < |ids| ==>
      ids[k] < |t.sweeps| && (t.sweeps[ids[k]].status.SweepPending? || t.sweeps[ids[k]].status.Funding?)
    requires forall j, k :: 0 <= j < k < |ids| ==> ids[j] < ids[k]
    ensures var r := FundRows(t, ids, f);
      && (forall i: nat :: i < |t.sweeps| ==> RowStep(t.sweeps[i], r.sweeps[i]))
      && (forall i: nat :: i < |t.sweeps| && i !in ids ==> r.sweeps[i] == t.sweeps[i])
    decreases |ids|
  {
    if ids == [] {
    } else {
      hide FundRow, RowStep;
      var front, last := ids[..|ids| - 1], ids[|ids| - 1];
      FundRowsSteps(t, front, f);
      assert last !in front;
      var m, r := FundRows(t, front, f), FundRows(t, ids, f);
      FundRowSteps(m, last, f);
      assert ids == front + [last];
      forall i: nat | i < |t.sweeps|
        ensures RowStep(t.sweeps[i], r.sweeps[i]) && (i !in ids ==> r.sweeps[i] == t.sweeps[i])
      {
        assert i != last ==> r.sweeps[i] == m.sweeps[i];
      }
    }
  }

  lemma {:induction false} ForEachRow(sweeps: seq<Sweep>, ids: seq<nat>, f: (nat, Sweep) -> Sweep)
    requires forall k :: 0 <= k < |ids| ==> ids[k] < |sweeps|
    requires forall j, k :: 0 <= j < k < |ids| ==> ids[j] < ids[k]
    ensures forall i: nat :: i < |sweeps| ==>
      ForEach(sweeps, ids, f)[i] == if i in ids then f(i, sweeps[i]) else sweeps[i]
    decreases |ids|
  {
    if ids == [] {
    } else {
      var front, last := ids[..|ids| - 1], ids[|ids| - 1];
      ForEachRow(sweeps, front, f);
      assert last !in front;
      assert ids == front + [last];
    }
  }

  lemma DiscoveryKeeps(w: World, deposits: seq<CreditedNft>)
    requires Ok(w)
    ensures Ok(Next(w, Discovery(deposits)))
  {
    DiscoveredSteps(w.sweeps, deposits);
    CountKeeps(w, Discover(w.sweeps, deposits), w.row, [], 0);
  }

  lemma FundingKeeps(w: World, f: Funder)
    requires Ok(w)
    ensures Ok(Next(w, GasFunding(f)))
  {
    hide FundRow, Ok;
    var ids := ClaimSweeps(w.sweeps, {SweepPending, Funding}, f.locked, f.batch);
    FundRowsSteps(Till(w.sweeps, w.row, false), ids, f);
    CountKeeps(w, Fund(w.sweeps, w.row, f).sweeps, Fund(w.sweeps, w.row, f).row, ids, f.gasPrice);
  }

  lemma ForEachKeeps(w: World, ids: seq<nat>, f: (nat, Sweep) -> Sweep)
    requires Ok(w) && forall k :: 0 <= k < |ids| ==> ids[k] < |w.sweeps|
    requires forall j, k :: 0 <= j < k < |ids| ==> ids[j] < ids[k]
    requires forall k :: 0 <= k < |ids| ==> RowStep(w.sweeps[ids[k]], f(ids[k], w.sweeps[ids[k]]))
    ensures Ok(Count(w, ForEach(w.sweeps, ids, f), w.row, [], 0))
  {
    ForEachSteps(w.sweeps, ids, f);
    CountKeeps(w, ForEach(w.sweeps, ids, f), w.row, [], 0);
  }

  lemma ForEachSteps(sweeps: seq<Sweep>, ids: seq<nat>, f: (nat, Sweep) -> Sweep)
    requires forall k :: 0 <= k < |ids| ==> ids[k] < |sweeps|
    requires forall j, k :: 0 <= j < k < |ids| ==> ids[j] < ids[k]
    requires forall k :: 0 <= k < |ids| ==> RowStep(sweeps[ids[k]], f(ids[k], sweeps[ids[k]]))
    ensures forall i :: 0 <= i < |sweeps| ==> RowStep(sweeps[i], ForEach(sweeps, ids, f)[i])
  {
    ForEachRow(sweeps, ids, f);
    forall i: nat | i < |sweeps|
      ensures RowStep(sweeps[i], ForEach(sweeps, ids, f)[i])
    {
      if i in ids {
        var k :| 0 <= k < |ids| && ids[k] == i;
      }
    }
  }

  lemma SweptOutSteps(m: Mover, i: nat, s: Sweep)
    requires s.status.Funded?
    ensures RowStep(s, SweptOut(m)(i, s))
  {
  }

  lemma MovingKeeps(w: World, m: Mover)
    requires Ok(w)
    ensures Ok(Next(w, Moving(m)))
  {
    hide ForEach, SweptOut, RowStep, Ok;
    var ids := ClaimSweeps(w.sweeps, {Funded}, m.locked, m.batch);
    forall k | 0 <= k < |ids|
      ensures RowStep(w.sweeps[ids[k]], SweptOut(m)(ids[k], w.sweeps[ids[k]]))
    {
      SweptOutSteps(m, ids[k], w.sweeps[ids[k]]);
    }
    ForEachKeeps(w, ids, SweptOut(m));
  }

  lemma CheckedSteps(c: Checker, i: nat, s: Sweep)
    requires s.status.Sweeping?
    ensures RowStep(s, Checked(c)(i, s))
  {
  }

  lemma ConfirmingKeeps(w: World, c: Checker)
    requires Ok(w)
    ensures Ok(Next(w, Confirming(c)))
  {
    hide ForEach, Checked, RowStep, Ok;
    var ids := ClaimSweeps(w.sweeps, {Sweeping}, c.locked, c.batch);
    forall k | 0 <= k < |ids|
      ensures RowStep(w.sweeps[ids[k]], Checked(c)(ids[k], w.sweeps[ids[k]]))
    {
      CheckedSteps(c, ids[k], w.sweeps[ids[k]]);
    }
    ForEachKeeps(w, ids, Checked(c));
  }

  lemma NextKeeps(w: World, e: Event)
    requires Ok(w)
    ensures Ok(Next(w, e))
  {
    match e
    case Discovery(deposits) => DiscoveryKeeps(w, deposits);
    case GasFunding(f) => FundingKeeps(w, f);
    case Moving(m) => MovingKeeps(w, m);
    case Confirming(c) => ConfirmingKeeps(w, c);
    case Elsewhere(row) =>
  }

  lemma {:induction false} RunOk(events: seq<Event>)
    ensures Ok(Run(events))
    decreases |events|
  {
    if events == [] {
    } else {
      RunOk(events[..|events| - 1]);
      NextKeeps(Run(events[..|events| - 1]), events[|events| - 1]);
    }
  }

  /** Armed within the limit, at most one gas nonce each time, and gas transfers at those nonces only. */
  ghost predicate WithinLimit(s: Sweep, life: Life) {
    && 1 <= life.armed <= MAX_SWEEP_ATTEMPTS
    && |life.nonces| <= life.armed
    && (forall g :: g in life.gas ==> GasTransfer(g, s.address, life.nonces))
  }

  /**
   * In every run every sweep is armed at most MAX_SWEEP_ATTEMPTS times and is given at most one gas nonce
   * each time, and every gas transfer ever sent for it, first or re-sent, is one gas budget to its own
   * address at one of those nonces.
   */
  lemma SweepRetriesBounded(events: seq<Event>)
    ensures forall i :: 0 <= i < |Run(events).sweeps| ==> WithinLimit(Run(events).sweeps[i], Run(events).lives[i])
  {
    RunOk(events);
    forall i | 0 <= i < |Run(events).sweeps|
      ensures WithinLimit(Run(events).sweeps[i], Run(events).lives[i])
    {
      assert LifeOk(Run(events).sweeps[i], Run(events).lives[i]);
    }
  }

  // ---- the cost -----------------------------------------------------------------------------

  function Worth(g: RawTx): nat {
    match g.call
    case SendNative(_, value) => value
    case _ => 0
  }

  function Spent(mined: seq<RawTx>): nat {
    if mined == [] then 0 else Spent(mined[..|mined| - 1]) + Worth(mined[|mined| - 1])
  }

  predicate MinedOnce(mined: seq<RawTx>) {
    forall i, j :: 0 <= i < j < |mined| ==> mined[i].nonce != mined[j].nonce
  }

  function NonceSet(nonces: seq<nat>): (r: set<nat>)
    ensures |r| <= |nonces| && forall n :: n in r <==> n in nonces
  {
    if nonces == [] then {} else
      assert nonces == nonces[..|nonces| - 1] + [nonces[|nonces| - 1]];
      NonceSet(nonces[..|nonces| - 1]) + {nonces[|nonces| - 1]}
  }

  lemma {:induction false} DistinctFit(mined: seq<RawTx>, nonces: set<nat>)
    requires MinedOnce(mined) && forall g :: g in mined ==> g.nonce in nonces
    ensures |mined| <= |nonces|
    decreases |mined|
  {
    if mined == [] {
    } else {
      var front, last := mined[..|mined| - 1], mined[|mined| - 1];
      assert mined == front + [last];
      assert forall g :: g in front ==> g in mined;
      forall g | g in front
        ensures g.nonce in nonces - {last.nonce}
      {
        var k :| 0 <= k < |front| && front[k] == g;
        assert mined[k].nonce != mined[|front|].nonce;
      }
      DistinctFit(front, nonces - {last.nonce});
      assert last in mined;
    }
  }

  lemma {:induction false} SpentIsBudgets(mined: seq<RawTx>, address: string)
    requires forall g :: g in mined ==> g.call == SendNative(address, GAS_BUDGET_WEI)
    ensures Spent(mined) == |mined| * GAS_BUDGET_WEI
    decreases |mined|
  {
    if mined == [] {
    } else {
      assert mined == mined[..|mined| - 1] + [mined[|mined| - 1]];
      SpentIsBudgets(mined[..|mined| - 1], address);
    }
  }

  lemma MinedWithinLimit(s: Sweep, life: Life, mined: seq<RawTx>)
    requires WithinLimit(s, life) && MinedOnce(mined) && forall g :: g in mined ==> g in life.gas
    ensures Spent(mined) <= MAX_SWEEP_ATTEMPTS * GAS_BUDGET_WEI
  {
    assert forall g :: g in mined ==> GasTransfer(g, s.address, life.nonces);
    DistinctFit(mined, NonceSet(life.nonces));
    SpentIsBudgets(mined, s.address);
  }

  /**
   * In every run, whatever of a sweep's gas transfers a chain mines (it mines a nonce once) moves at most
   * MAX_SWEEP_ATTEMPTS gas budgets.
   */
  lemma SweepCostBounded(events: seq<Event>, i: nat, mined: seq<RawTx>)
    ensures i < |Run(events).sweeps| && MinedOnce(mined)
      && (forall g :: g in mined ==> g in Run(events).lives[i].gas)
      ==> Spent(mined) <= MAX_SWEEP_ATTEMPTS * GAS_BUDGET_WEI
  {
    SweepRetriesBounded(events);
    if i < |Run(events).sweeps| && MinedOnce(mined) && (forall g :: g in mined ==> g in Run(events).lives[i].gas) {
      MinedWithinLimit(Run(events).sweeps[i], Run(events).lives[i], mined);
    }
  }
}
