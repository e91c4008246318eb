/** What a whole watcher pass guarantees about every row, and how an orphaned deposit comes back. */
module Reorgs {
  import opened Wrappers
  import opened Tables
  import opened Watcher
  import DepositLedger
  import Ledger

  // ---- the rows after a pass ----------------------------------------------------------------

  lemma {:induction false} CreditRowsRows(b: Books, n: nat, client: Client)
    requires n <= |b.deposits| && CreditRows(b, n, client).Done?
    ensures var c := CreditRows(b, n, client).value;
      |c.deposits| == |b.deposits| &&
      forall j :: 0 <= j < |b.deposits| ==>
        c.deposits[j] == if j < n then Judged(b.deposits[j], client) else b.deposits[j]
    decreases n
  {
    if n == 0 {
    } else {
      CreditRowsRows(b, n - 1, client);
    }
  }

  lemma {:induction false} ReorgRowsRows(b: Books, n: nat, client: Client, floor: int)
    requires n <= |b.deposits| && ReorgRows(b, n, client, floor).Done?
    ensures var c := ReorgRows(b, n, client, floor).value;
      |c.deposits| == |b.deposits| &&
      forall j :: 0 <= j < |b.deposits| ==>
        c.deposits[j] == if j < n then Rechecked(b.deposits[j], client, floor) else b.deposits[j]
    decreases n
  {
    if n == 0 {
    } else {
      ReorgRowsRows(b, n - 1, client, floor);
    }
  }

  /** A row's way through one pass: recorded, promoted, judged, rechecked. */
  function Final(recorded: Deposit, client: Client, cfg: Config): Deposit {
    Rechecked(Judged(Promoted(recorded, client.head - cfg.confirmations), client), client, client.head - Window(cfg))
  }

  lemma PassRows(s: State, watch: Watch, client: Client, cfg: Config, nftLowest: Option<int>)
    requires Pass(s, watch, client, cfg, nftLowest).Done?
    ensures var rows := Pass(s, watch, client, cfg, nftLowest).value.books.deposits;
      var recorded := Recorded(s, watch, client, cfg);
      |rows| == |recorded| && forall j :: 0 <= j < |rows| ==> rows[j] == Final(recorded[j], client, cfg)
  {
    var due := Due(s, watch, client, cfg);
    CreditRowsRows(due, |due.deposits|, client);
    var credited := CreditRows(due, |due.deposits|, client).value;
    ReorgRowsRows(credited, |credited.deposits|, client, client.head - Window(cfg));
  }

  /**
   * After any pass at head h, every owned row that is not orphaned has a matching or unknown block
   * hash, or was credited below the reorg window.
   */
  lemma NoStaleRowInWindow(s: State, watch: Watch, client: Client, cfg: Config, nftLowest: Option<int>, j: nat)
    requires Pass(s, watch, client, cfg, nftLowest).Done?
    requires j < |Pass(s, watch, client, cfg, nftLowest).value.books.deposits|
    ensures var d := Pass(s, watch, client, cfg, nftLowest).value.books.deposits[j];
      d.user.Some? && !d.status.Orphaned? ==>
        || client.hashAt(d.block).None?
        || client.hashAt(d.block).value == d.hash
        || (d.status.Credited? && d.block <= client.head - Window(cfg))
  {
    PassRows(s, watch, client, cfg, nftLowest);
  }

  /** No row credited in a pass is reversed in the same pass: its credit is live afterwards. */
  lemma FreshCreditSurvives(s: State, watch: Watch, client: Client, cfg: Config, nftLowest: Option<int>, j: nat)
    requires DepositLedger.Backed(s.books)
    requires j < |Recorded(s, watch, client, cfg)|
    requires var due := Promoted(Recorded(s, watch, client, cfg)[j], client.head - cfg.confirmations);
      !due.status.Credited? && Judged(due, client).status.Credited?
    ensures Pass(s, watch, client, cfg, nftLowest).Done?
    ensures var after := Pass(s, watch, client, cfg, nftLowest).value.books;
      j < |after.deposits| && after.deposits[j].status.Credited? &&
      DepositLedger.Live(after.txs, j, after.deposits[j].revision)
  {
    DepositLedger.PassKeeps(s, watch, client, cfg, nftLowest);
    PassRows(s, watch, client, cfg, nftLowest);
    var after := Pass(s, watch, client, cfg, nftLowest).value.books;
    assert after.deposits[j].status.Credited?;
    assert DepositLedger.KeysMatchRows(after);
  }

  // ---- the cursor rewind --------------------------------------------------------------------

  /** The rows as the reorg check of the pass finds them. */
  function AfterCrediting(s: State, watch: Watch, client: Client, cfg: Config): Ledger.Step<Books> {
    var due := Due(s, watch, client, cfg);
    CreditRows(due, |due.deposits|, client)
  }

  lemma {:induction false} LowestOrphanedIsMinimum(deposits: seq<Deposit>, n: nat, client: Client, floor: int)
    requires n <= |deposits|
    ensures var lowest := LowestOrphaned(deposits, n, client, floor);
      && (lowest.None? <==> forall j :: 0 <= j < n ==> !ReorgedOut(deposits[j], client, floor))
      && (lowest.Some? ==>
            && (exists j :: 0 <= j < n && ReorgedOut(deposits[j], client, floor) && deposits[j].block == lowest.value)
            && (forall j :: 0 <= j < n && ReorgedOut(deposits[j], client, floor) ==> lowest.value <= deposits[j].block))
    decreases n
  {
    if n == 0 {
    } else {
      LowestOrphanedIsMinimum(deposits, n - 1, client, floor);
    }
  }

  /**
   * A row the reorg check of the pass orphans, at or below block `b`: inside the reorg window, with another block
   * now at its height.
   */
  ghost predicate OrphanedUpTo(rows: seq<Deposit>, j: int, client: Client, cfg: Config, b: int) {
    && 0 <= j < |rows| && !rows[j].status.Orphaned? && rows[j].block <= b
    && rows[j].block > client.head - (cfg.confirmations + Max(cfg.reorgDepth, cfg.finalityDepth))
    && client.hashAt(rows[j].block).Some? && client.hashAt(rows[j].block) != Some(rows[j].hash)
  }

  /** How far the passes up to and including this one have scanned. */
  function ReachedBlock(cursor: Option<Cursor>, head: int): int {
    if cursor.None? then head else Max(cursor.value.lastScanned, head)
  }

  /**
   * Where the next scan starts: block `b` is scanned again, or for the first time, exactly if this pass
   * did not reach it, or the NFT watcher that shares the cursor reported an orphan at or below it, or the
   * reorg check orphaned a row at or below it.
   */
  lemma RewindExactly(s: State, watch: Watch, client: Client, cfg: Config, nftLowest: Option<int>, b: int)
    requires Pass(s, watch, client, cfg, nftLowest).Done?
    ensures var rows := AfterCrediting(s, watch, client, cfg).value.deposits;
      var after := Pass(s, watch, client, cfg, nftLowest).value.cursor;
      after.Some? && after.value.lastFinalized == Max(0, client.head - cfg.confirmations) &&
      (after.value.lastScanned < b <==>
        || ReachedBlock(s.cursor, client.head) < b
        || (nftLowest.Some? && nftLowest.value <= b)
        || exists j :: OrphanedUpTo(rows, j, client, cfg, b))
  {
    var rows := AfterCrediting(s, watch, client, cfg).value.deposits;
    var floor := client.head - Window(cfg);
    LowestOrphanedIsMinimum(rows, |rows|, client, floor);
    var lowest := LowestOrphaned(rows, |rows|, client, floor);
    if lowest.Some? && lowest.value <= b {
      var j :| 0 <= j < |rows| && ReorgedOut(rows[j], client, floor) && rows[j].block == lowest.value;
      assert OrphanedUpTo(rows, j, client, cfg, b);
    }
  }

  /** Row `j` is confirmed when the pass starts crediting, and the crediting loop orphans it. */
  predicate OrphanedWhileCrediting(s: State, watch: Watch, client: Client, cfg: Config, j: nat) {
    && j < |Recorded(s, watch, client, cfg)|
    && (var due := Promoted(Recorded(s, watch, client, cfg)[j], client.head - cfg.confirmations);
        due.status.DepositConfirmed? && Judged(due, client).status.Orphaned?)
  }

  /**
   * A row orphaned by the crediting loop stays orphaned and does not itself move the cursor: whatever
   * block `b` its transaction moved to, `b` is scanned next exactly if the pass did not reach it or
   * something else rewinds, namely the NFT watcher or another row that the reorg check orphans.
   */
  lemma CreditingOrphanRewinds(s: State, watch: Watch, client: Client, cfg: Config, nftLowest: Option<int>, j: nat,
                               b: int)
    requires Pass(s, watch, client, cfg, nftLowest).Done? && OrphanedWhileCrediting(s, watch, client, cfg, j)
    ensures var rows := AfterCrediting(s, watch, client, cfg).value.deposits;
      var after := Pass(s, watch, client, cfg, nftLowest).value;
      && j < |after.books.deposits| && after.books.deposits[j].status.Orphaned? && after.cursor.Some?
      && (after.cursor.value.lastScanned < b <==>
           || ReachedBlock(s.cursor, client.head) < b
           || (nftLowest.Some? && nftLowest.value <= b)
           || exists k :: k != j && OrphanedUpTo(rows, k, client, cfg, b))
  {
    RewindExactly(s, watch, client, cfg, nftLowest, b);
    PassRows(s, watch, client, cfg, nftLowest);
    var due := Due(s, watch, client, cfg);
    CreditRowsRows(due, |due.deposits|, client);
  }

  /** The block of a row that the crediting loop orphaned, already scanned, is not scanned again. */
  ghost predicate LeftBehind(s: State, watch: Watch, client: Client, cfg: Config, j: nat) {
    && Pass(s, watch, client, cfg, None).Done? && OrphanedWhileCrediting(s, watch, client, cfg, j)
    && s.cursor.Some? && s.cursor.value.lastScanned == ReachedBlock(s.cursor, client.head)
    && (var after := Pass(s, watch, client, cfg, None).value;
        && after.cursor.Some? && after.cursor.value.lastScanned == s.cursor.value.lastScanned
        && j < |after.books.deposits| && after.books.deposits[j].status.Orphaned?
        && after.books.deposits[j].block <= after.cursor.value.lastScanned)
  }

  /** It happens: a lone stale row at block 7, found out while crediting at head 20. */
  lemma CreditingLoopLeavesBehind()
    ensures exists s: State, watch: Watch, client: Client, cfg: Config :: LeftBehind(s, watch, client, cfg, 0)
  {
    var d := Deposit("tx", 0, 7, "stale", 0, 3, Seen, Some(0), 0);
    var s := State(Books([], [d]), Some(Cursor(20, 15)));
    var none := (a: int, b: int) => [];
    var client := Client(20, (b: int) => Some("canonical"), none, none, none);
    var watch := Watch(map[], map[], None, false, None);
    var cfg := Config(5, 5, 64, 0);
    assert Recorded(s, watch, client, cfg) == [d];
    var due := Due(s, watch, client, cfg);
    var orphan := d.(status := Orphaned);
    assert due.deposits == [d.(status := DepositConfirmed)];
    assert CreditRows(due, 0, client) == Done(due);
    assert CreditRow(due, 0, client) == Done(Books([], [orphan])) by {
      assert due.deposits[0 := orphan] == [orphan];
    }
    assert CreditRows(due, 1, client) == CreditRow(due, 0, client);
    var b := Books([], [orphan]);
    assert ReorgRows(b, 0, client, client.head - Window(cfg)) == Done(b);
    assert b.deposits[0 := orphan] == b.deposits;
    assert ReorgRows(b, 1, client, client.head - Window(cfg)) == Done(b);
    assert LowestOrphaned(b.deposits, 1, client, client.head - Window(cfg)).None?;
    assert Pass(s, watch, client, cfg, None) == Done(State(b, Some(Cursor(20, 15))));
    assert LeftBehind(s, watch, client, cfg, 0);
  }

  // ---- recovery of a re-mined transaction ---------------------------------------------------

  ghost predicate SameTransfer(a: Deposit, b: Deposit) {
    a.txHash == b.txHash && a.logIndex == b.logIndex
  }

  ghost predicate UniqueRows(deposits: seq<Deposit>) {
    forall i, j :: 0 <= i < j < |deposits| ==> !SameTransfer(deposits[i], deposits[j])
  }

  lemma InsertedRow(deposits: seq<Deposit>, d: Deposit, i: nat)
    requires UniqueRows(deposits) && i < |deposits|
    ensures UniqueRows(Inserted(deposits, d)) && |deposits| <= |Inserted(deposits, d)|
    ensures SameTransfer(Inserted(deposits, d)[i], deposits[i])
    ensures Inserted(deposits, d)[i] ==
      if SameTransfer(deposits[i], d) && deposits[i].status.Orphaned? then Resurrected(deposits[i], d) else deposits[i]
  {
    match FindDeposit(deposits, d.txHash, d.logIndex)
    case None =>
      assert !SameTransfer(deposits[i], d);
    case Some(k) =>
      assert SameTransfer(deposits[i], d) ==> i == k;
  }

  /** Inserting a batch that holds `d` (or no row of the same transfer) revives the orphaned row once. */
  lemma {:induction false} InsertedAllRow(deposits: seq<Deposit>, found: seq<Deposit>, i: nat, d: Deposit)
    requires UniqueRows(deposits) && i < |deposits|
    requires SameTransfer(deposits[i], d) && deposits[i].status.Orphaned? && d.status.Seen?
    requires forall e :: e in found && SameTransfer(e, d) ==> e == d
    ensures var after := InsertedAll(deposits, found);
      UniqueRows(after) && |deposits| <= |after| &&
      after[i] == if d in found then Resurrected(deposits[i], d) else deposits[i]
    decreases |found|
  {
    if found == [] {
    } else {
      var front, e := found[..|found| - 1], found[|found| - 1];
      InsertedAllRow(deposits, front, i, d);
      assert found == front + [e] && e in found;
      InsertedRow(InsertedAll(deposits, front), e, i);
      assert SameTransfer(InsertedAll(deposits, front)[i], e) ==> e == d;
    }
  }

  lemma {:induction false} InsertedAllUnique(deposits: seq<Deposit>, found: seq<Deposit>)
    requires UniqueRows(deposits)
    ensures UniqueRows(InsertedAll(deposits, found)) && |deposits| <= |InsertedAll(deposits, found)|
    decreases |found|
  {
    if found == [] {
    } else {
      var front := InsertedAll(deposits, found[..|found| - 1]);
      InsertedAllUnique(deposits, found[..|found| - 1]);
      if front != [] {
        InsertedRow(front, found[|found| - 1], 0);
      }
    }
  }

  lemma PassUnique(s: State, watch: Watch, client: Client, cfg: Config, nftLowest: Option<int>)
    requires UniqueRows(s.books.deposits) && Pass(s, watch, client, cfg, nftLowest).Done?
    ensures UniqueRows(Pass(s, watch, client, cfg, nftLowest).value.books.deposits)
  {
    hide InsertedAll, CreditRows, ReorgRows, Found;
    InsertedAllUnique(s.books.deposits, Found(watch, client, ScanFrom(s.cursor, cfg), client.head));
    PassRows(s, watch, client, cfg, nftLowest);
  }

  datatype Visit = Visit(watch: Watch, client: Client, nftLowest: Option<int>)

  function RunVisits(s: State, visits: seq<Visit>, cfg: Config): State {
    if visits == [] then s else
      var t := RunVisits(s, visits[..|visits| - 1], cfg);
      var v := visits[|visits| - 1];
      match Pass(t, v.watch, v.client, cfg, v.nftLowest)
      case Aborted(_) => t
      case Done(u) => u
  }

  /** The row waits, orphaned, for its transfer above the cursor. */
  ghost predicate Waiting(s: State, i: nat, row: Deposit, d: Deposit) {
    && DepositLedger.Backed(s.books) && UniqueRows(s.books.deposits)
    && s.cursor.Some? && s.cursor.value.lastScanned < d.block
    && i < |s.books.deposits| && s.books.deposits[i] == row
    && row.status.Orphaned? && SameTransfer(row, d) && d.status.Seen?
  }

  ghost predicate Misses(v: Visit, d: Deposit) {
    v.client.head < d.block &&
    forall from, e :: Delivered(v.watch, v.client, from, v.client.head, e) ==> !SameTransfer(e, d)
  }

  /** A pass that neither reaches the block nor meets the transfer leaves the row and the gap alone. */
  lemma PassKeepsGap(s: State, v: Visit, cfg: Config, i: nat, row: Deposit, d: Deposit)
    requires Waiting(s, i, row, d) && Misses(v, d)
    ensures Pass(s, v.watch, v.client, cfg, v.nftLowest).Done?
    ensures Waiting(Pass(s, v.watch, v.client, cfg, v.nftLowest).value, i, row, d)
  {
    hide DepositLedger.Backed, UniqueRows, InsertedAll, CreditRows, ReorgRows, Found, LowestOrphaned;
    DepositLedger.PassKeeps(s, v.watch, v.client, cfg, v.nftLowest);
    PassUnique(s, v.watch, v.client, cfg, v.nftLowest);
    PassRows(s, v.watch, v.client, cfg, v.nftLowest);
    var found := Found(v.watch, v.client, ScanFrom(s.cursor, cfg), v.client.head);
    forall e | e in found
      ensures !SameTransfer(e, d)
    {
      FoundExactly(v.watch, v.client, ScanFrom(s.cursor, cfg), v.client.head, e);
    }
    assert d !in found by {
      assert SameTransfer(d, d);
    }
    InsertedAllRow(s.books.deposits, found, i, d);
  }

  lemma {:induction false} WaitingKeepsGap(s: State, visits: seq<Visit>, cfg: Config, i: nat, row: Deposit, d: Deposit)
    requires Waiting(s, i, row, d) && forall v :: v in visits ==> Misses(v, d)
    ensures Waiting(RunVisits(s, visits, cfg), i, row, d)
    decreases |visits|
  {
    hide Waiting, Misses, Pass;
    if visits == [] {
    } else {
      WaitingKeepsGap(s, visits[..|visits| - 1], cfg, i, row, d);
      PassKeepsGap(RunVisits(s, visits[..|visits| - 1], cfg), visits[|visits| - 1], cfg, i, row, d);
    }
  }

  /** The chain of a pass holds one transfer under the key of `d`, in block `d.block`, and it has to become `d`. */
  ghost predicate Canonical(v: Visit, d: Deposit) {
    && (forall from :: from <= d.block <= v.client.head ==>
          Delivered(v.watch, v.client, from, v.client.head, d))
    && (forall from, e :: Delivered(v.watch, v.client, from, v.client.head, e) && SameTransfer(e, d) ==> e == d)
    && (v.client.hashAt(d.block).None? || v.client.hashAt(d.block).value == d.hash)
  }

  /** The state a re-mined transfer's row is in after the pass that meets it again. */
  function Revived(row: Deposit, d: Deposit, client: Client, cfg: Config): Deposit {
    var seen :=
      row.(block := d.block, hash := d.hash, amount := d.amount, status := Seen, revision := row.revision + 1);
    if d.block > client.head - cfg.confirmations then seen
    else if row.user.None? || client.hashAt(d.block).None? then seen.(status := DepositConfirmed)
    else seen.(status := Credited)
  }

  /**
   * A row orphaned by the reorg check of a pass, whose transaction is canonical again at or above the
   * lowest orphaned block, is live again under the next credit revision after the first pass whose
   * head reaches that block, however many shorter passes come between.
   */
  lemma OrphanRecovers(s: State, first: Visit, waiting: seq<Visit>, last: Visit, cfg: Config, i: nat, d: Deposit)
    requires DepositLedger.Backed(s.books) && UniqueRows(s.books.deposits)
    requires AfterCrediting(s, first.watch, first.client, cfg).Done?
    requires var rows := AfterCrediting(s, first.watch, first.client, cfg).value.deposits;
      var floor := first.client.head - Window(cfg);
      i < |rows| && ReorgedOut(rows[i], first.client, floor) && SameTransfer(rows[i], d) &&
      LowestOrphaned(rows, |rows|, first.client, floor).Some? &&
      LowestOrphaned(rows, |rows|, first.client, floor).value <= d.block
    requires d.status.Seen?
    requires forall v :: v in waiting ==> Misses(v, d)
    requires last.client.head >= d.block && Canonical(last, d)
    ensures var orphan := AfterCrediting(s, first.watch, first.client, cfg).value.deposits[i].(status := Orphaned);
      var end := RunVisits(s, [first] + waiting + [last], cfg).books.deposits;
      i < |end| && end[i] == Revived(orphan, d, last.client, cfg) && end[i].revision == orphan.revision + 1
  {
    FirstPassLeavesGap(s, first, cfg, i, d);
    var s1 := Pass(s, first.watch, first.client, cfg, first.nftLowest).value;
    WaitingKeepsGap(s1, waiting, cfg, i, s1.books.deposits[i], d);
    LastPassRevives(RunVisits(s1, waiting, cfg), last, cfg, i, d);
    RunVisitsConcat(s, [first], waiting, cfg);
    assert [first][..0] == [];
    assert RunVisits(s, [first], cfg) == s1;
    assert ([first] + waiting + [last])[..|waiting| + 1] == [first] + waiting;
  }

  /** The pass that orphans a row leaves the cursor below every block at or above the lowest one. */
  lemma FirstPassLeavesGap(s: State, v: Visit, cfg: Config, i: nat, d: Deposit)
    requires DepositLedger.Backed(s.books) && UniqueRows(s.books.deposits)
    requires AfterCrediting(s, v.watch, v.client, cfg).Done?
    requires var rows := AfterCrediting(s, v.watch, v.client, cfg).value.deposits;
      var floor := v.client.head - Window(cfg);
      i < |rows| && ReorgedOut(rows[i], v.client, floor) &&
      LowestOrphaned(rows, |rows|, v.client, floor).Some? &&
      LowestOrphaned(rows, |rows|, v.client, floor).value <= d.block
    ensures Pass(s, v.watch, v.client, cfg, v.nftLowest).Done?
    ensures var t := Pass(s, v.watch, v.client, cfg, v.nftLowest).value;
      DepositLedger.Backed(t.books) && UniqueRows(t.books.deposits) &&
      t.cursor.Some? && t.cursor.value.lastScanned < d.block && i < |t.books.deposits| &&
      t.books.deposits[i] == AfterCrediting(s, v.watch, v.client, cfg).value.deposits[i].(status := Orphaned)
  {
    DepositLedger.PassKeeps(s, v.watch, v.client, cfg, v.nftLowest);
    PassUnique(s, v.watch, v.client, cfg, v.nftLowest);
    var credited := AfterCrediting(s, v.watch, v.client, cfg).value;
    ReorgRowsRows(credited, |credited.deposits|, v.client, v.client.head - Window(cfg));
  }

  lemma LastPassRevives(s: State, v: Visit, cfg: Config, i: nat, d: Deposit)
    requires DepositLedger.Backed(s.books) && UniqueRows(s.books.deposits)
    requires s.cursor.Some? && s.cursor.value.lastScanned < d.block <= v.client.head
    requires i < |s.books.deposits| && s.books.deposits[i].status.Orphaned? && d.status.Seen?
    requires SameTransfer(s.books.deposits[i], d) && Canonical(v, d)
    ensures Pass(s, v.watch, v.client, cfg, v.nftLowest).Done?
    ensures var rows := Pass(s, v.watch, v.client, cfg, v.nftLowest).value.books.deposits;
      i < |rows| && rows[i] == Revived(s.books.deposits[i], d, v.client, cfg)
  {
    DepositLedger.PassKeeps(s, v.watch, v.client, cfg, v.nftLowest);
    PassRows(s, v.watch, v.client, cfg, v.nftLowest);
    var from := ScanFrom(s.cursor, cfg);
    FoundExactly(v.watch, v.client, from, v.client.head, d);
    forall e | e in Found(v.watch, v.client, from, v.client.head) && SameTransfer(e, d)
      ensures e == d
    {
      FoundExactly(v.watch, v.client, from, v.client.head, e);
    }
    InsertedAllRow(s.books.deposits, Found(v.watch, v.client, from, v.client.head), i, d);
  }

  lemma {:induction false} RunVisitsConcat(s: State, a: seq<Visit>, b: seq<Visit>, cfg: Config)
    ensures RunVisits(s, a + b, cfg) == RunVisits(RunVisits(s, a, cfg), b, cfg)
    decreases |b|
  {
    if b == [] {
      assert a + b == a;
    } else {
      assert (a + b)[..|a + b| - 1] == a + b[..|b| - 1];
      RunVisitsConcat(s, a, b[..|b| - 1], cfg);
    }
  }

  // ---- coverage of the scanned range --------------------------------------------------------

  /** A completed pass: the blocks it scanned and where it left the cursor. */
  datatype Scan = Scan(from: int, to: int, cursorAfter: int)

  datatype History = History(state: State, scans: seq<Scan>)

  function Visited(h: History, v: Visit, cfg: Config): History {
    match Pass(h.state, v.watch, v.client, cfg, v.nftLowest)
    case Aborted(_) => h
    case Done(s) =>
      History(s, h.scans + [Scan(ScanFrom(h.state.cursor, cfg), v.client.head, s.cursor.value.lastScanned)])
  }

  function RunHistory(visits: seq<Visit>, cfg: Config): History {
    if visits == [] then History(State(Books([], []), None), [])
    else Visited(RunHistory(visits[..|visits| - 1], cfg), visits[|visits| - 1], cfg)
  }

  /** Block `b` was inside scan `k`, and the cursor never dropped below it from that scan on. */
  ghost predicate CoveredSince(scans: seq<Scan>, k: int, b: int) {
    0 <= k < |scans| && scans[k].from <= b <= scans[k].to &&
    forall m :: k <= m < |scans| ==> b <= scans[m].cursorAfter
  }

  ghost predicate Covered(scans: seq<Scan>, b: int) {
    exists k :: CoveredSince(scans, k, b)
  }

  ghost predicate AllCovered(scans: seq<Scan>, start: int, last: int) {
    forall b :: start <= b <= last ==> Covered(scans, b)
  }

  /** A pass that scans from just above the cursor and ends no further than it scanned. */
  lemma ScanExtendsCoverage(scans: seq<Scan>, start: int, cursor: Option<int>, to: int, after: int)
    requires cursor.Some? ==> AllCovered(scans, start, cursor.value)
    requires after <= if cursor.None? then to else Max(cursor.value, to)
    ensures var from := if cursor.None? then start else cursor.value + 1;
      AllCovered(scans + [Scan(from, to, after)], start, after)
  {
    var from := if cursor.None? then start else cursor.value + 1;
    var scans' := scans + [Scan(from, to, after)];
    forall b | start <= b <= after
      ensures Covered(scans', b)
    {
      if from <= b <= to {
        assert CoveredSince(scans', |scans|, b);
      } else {
        assert Covered(scans, b);
        var k :| CoveredSince(scans, k, b);
        assert CoveredSince(scans', k, b);
      }
    }
  }

  function LastScanned(s: State): Option<int> {
    if s.cursor.None? then None else Some(s.cursor.value.lastScanned)
  }

  /** Every block up to the cursor was scanned since the cursor last dropped below it. */
  lemma {:induction false} CursorCoverage(visits: seq<Visit>, cfg: Config)
    ensures var h := RunHistory(visits, cfg);
      LastScanned(h.state).Some? ==> AllCovered(h.scans, cfg.startBlock, LastScanned(h.state).value)
    decreases |visits|
  {
    if visits == [] {
      return;
    }
    hide Visited, AllCovered;
    CursorCoverage(visits[..|visits| - 1], cfg);
    VisitCovers(RunHistory(visits[..|visits| - 1], cfg), visits[|visits| - 1], cfg);
  }

  /** One pass extends the coverage to where it leaves the cursor. */
  lemma VisitCovers(h: History, v: Visit, cfg: Config)
    requires LastScanned(h.state).Some? ==> AllCovered(h.scans, cfg.startBlock, LastScanned(h.state).value)
    ensures var after := Visited(h, v, cfg);
      LastScanned(after.state).Some? ==> AllCovered(after.scans, cfg.startBlock, LastScanned(after.state).value)
  {
    hide Pass, AllCovered;
    match Pass(h.state, v.watch, v.client, cfg, v.nftLowest)
    case Aborted(_) =>
    case Done(s) =>
      PassCursor(h.state, v.watch, v.client, cfg, v.nftLowest);
      ScanExtendsCoverage(h.scans, cfg.startBlock, LastScanned(h.state), v.client.head, s.cursor.value.lastScanned);
  }

  lemma PassCursor(s: State, watch: Watch, client: Client, cfg: Config, nftLowest: Option<int>)
    requires Pass(s, watch, client, cfg, nftLowest).Done?
    ensures var after := Pass(s, watch, client, cfg, nftLowest).value.cursor;
      after.Some? && after.value.lastScanned <= Advanced(s.cursor, client, cfg).lastScanned
  {
  }
}
