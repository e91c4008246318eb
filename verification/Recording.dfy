/**
 * What a watcher pass makes of the chain's transfers and of every deposit row, stated on the client's answers
 * alone: which transfers become rows, with which columns, and which status each row has afterwards.
 */
module Recording {
  import opened Wrappers
  import opened Tables
  import opened Watcher
  import opened Reorgs
  import DepositLedger

  // ---- the rows a scan leaves ---------------------------------------------------------------

  predicate HasRow(rows: seq<Deposit>, d: Deposit) {
    exists j :: 0 <= j < |rows| && rows[j].txHash == d.txHash && rows[j].logIndex == d.logIndex
  }

  /** A row that was orphaned and whose transfer came in again as `d`. */
  predicate BackAs(row: Deposit, after: Deposit, d: Deposit) {
    && row.status.Orphaned? && d.txHash == row.txHash && d.logIndex == row.logIndex
    && after == row.(block := d.block, hash := d.hash, amount := d.amount, status := Seen, revision := row.revision + 1)
  }

  /** What recording `found` makes of an old row: it comes back once if it was orphaned, and stays otherwise. */
  predicate KeptAs(row: Deposit, after: Deposit, found: seq<Deposit>) {
    if row.status.Orphaned? && HasRow(found, row) then exists d :: d in found && BackAs(row, after, d)
    else after == row
  }

  ghost predicate RecordedAs(before: seq<Deposit>, rows: seq<Deposit>, found: seq<Deposit>) {
    && |before| <= |rows| && UniqueRows(rows)
    && (forall d :: d in found ==> HasRow(rows, d))
    && (forall j :: 0 <= j < |before| ==> KeptAs(before[j], rows[j], found))
    && (forall j :: |before| <= j < |rows| ==> rows[j] in found && !HasRow(before, rows[j]))
  }

  lemma HasRowAppend(rows: seq<Deposit>, e: Deposit, d: Deposit)
    ensures HasRow(rows + [e], d) <==> HasRow(rows, d) || SameTransfer(e, d)
  {
    if HasRow(rows, d) {
      var j :| 0 <= j < |rows| && SameTransfer(rows[j], d);
      assert SameTransfer((rows + [e])[j], d);
    }
    if SameTransfer(e, d) {
      assert SameTransfer((rows + [e])[|rows|], d);
    }
  }

  /** Inserting never removes a row, and the inserted transfer has one afterwards. */
  lemma InsertedHasRow(rows: seq<Deposit>, e: Deposit, d: Deposit)
    requires UniqueRows(rows)
    ensures HasRow(Inserted(rows, e), e)
    ensures HasRow(rows, d) ==> HasRow(Inserted(rows, e), d)
  {
    var after := Inserted(rows, e);
    var i := FindDeposit(rows, e.txHash, e.logIndex);
    assert SameTransfer(after[if i.Some? then i.value else |rows|], e);
    if HasRow(rows, d) {
      var j: nat :| j < |rows| && SameTransfer(rows[j], d);
      assert SameTransfer(rows[j], d);
      InsertedRow(rows, e, j);
      assert SameTransfer(after[j], rows[j]);
    }
  }

  lemma KeepOneMore(row: Deposit, middle: seq<Deposit>, j: nat, found: seq<Deposit>, e: Deposit)
    requires UniqueRows(middle) && j < |middle| && KeptAs(row, middle[j], found)
    ensures |middle| <= |Inserted(middle, e)| && KeptAs(row, Inserted(middle, e)[j], found + [e])
  {
    hide UniqueRows, Inserted;
    InsertedRow(middle, e, j);
    HasRowAppend(found, e, row);
    if row.status.Orphaned? && HasRow(found, row) {
      var d :| d in found && BackAs(row, middle[j], d);
      assert d in found + [e];
    } else if row.status.Orphaned? && SameTransfer(e, row) {
      assert e in found + [e] && BackAs(row, Inserted(middle, e)[j], e);
    }
  }

  lemma KeptTransfer(row: Deposit, after: Deposit, found: seq<Deposit>)
    requires KeptAs(row, after, found)
    ensures SameTransfer(row, after)
  {
  }

  /** A row the step adds is the inserted one, and its transfer had none before. */
  lemma NewOneMore(before: seq<Deposit>, middle: seq<Deposit>, found: seq<Deposit>, e: Deposit, j: nat)
    requires RecordedAs(before, middle, found) && (forall d :: d in found ==> d.status.Seen?)
    requires |before| <= j < |Inserted(middle, e)|
    ensures Inserted(middle, e)[j] in found + [e] && !HasRow(before, Inserted(middle, e)[j])
  {
    if j < |middle| {
      InsertedRow(middle, e, j);
      assert middle[j] in found && Inserted(middle, e)[j] == middle[j];
    } else {
      assert Inserted(middle, e)[j] == e;
      forall i | 0 <= i < |before|
        ensures !SameTransfer(before[i], e)
      {
        KeptTransfer(before[i], middle[i], found);
      }
    }
  }

  lemma RecordOneMore(before: seq<Deposit>, middle: seq<Deposit>, found: seq<Deposit>, e: Deposit)
    requires RecordedAs(before, middle, found) && forall d :: d in found ==> d.status.Seen?
    ensures RecordedAs(before, Inserted(middle, e), found + [e])
  {
    hide Inserted, HasRow, KeptAs, UniqueRows;
    var rows := Inserted(middle, e);
    InsertedStays(middle, e);
    forall d | d in found + [e]
      ensures HasRow(rows, d)
    {
      InsertedHasRow(middle, e, d);
    }
    forall j: nat | j < |before|
      ensures KeptAs(before[j], rows[j], found + [e])
    {
      KeepOneMore(before[j], middle, j, found, e);
    }
    forall j: nat | |before| <= j < |rows|
      ensures rows[j] in found + [e] && !HasRow(before, rows[j])
    {
      NewOneMore(before, middle, found, e, j);
    }
  }

  lemma InsertedStays(rows: seq<Deposit>, e: Deposit)
    requires UniqueRows(rows)
    ensures UniqueRows(Inserted(rows, e)) && |rows| <= |Inserted(rows, e)|
  {
    assert [e][..0] == [];
    assert InsertedAll(rows, [e]) == Inserted(InsertedAll(rows, []), e);
    InsertedAllUnique(rows, [e]);
  }

  lemma {:induction false} AllRecorded(before: seq<Deposit>, found: seq<Deposit>)
    requires UniqueRows(before) && forall d :: d in found ==> d.status.Seen?
    ensures RecordedAs(before, InsertedAll(before, found), found)
    decreases |found|
  {
    if found == [] {
      return;
    }
    hide RecordedAs, Inserted;
    var front, e := found[..|found| - 1], found[|found| - 1];
    assert found == front + [e];
    AllRecorded(before, front);
    RecordOneMore(before, InsertedAll(before, front), front, e);
  }

  // ---- the status after a pass --------------------------------------------------------------

  predicate Deep(d: Deposit, client: Client, cfg: Config) {
    d.block <= client.head - cfg.confirmations
  }

  /** The chain holds another block at the row's height. */
  predicate Changed(d: Deposit, client: Client) {
    client.hashAt(d.block).Some? && client.hashAt(d.block) != Some(d.hash)
  }

  /** A row the pass wants to credit: confirmed before, or buried deep enough now. */
  predicate Creditable(d: Deposit, client: Client, cfg: Config) {
    d.user.Some? && (d.status.DepositConfirmed? || (d.status.Seen? && Deep(d, client, cfg)))
  }

  /**
   * The status a recorded row has after the pass: orphaned exactly if it was, or its block changed and it is
   * up for crediting or inside the reorg window; credited exactly if it was, or it is up for crediting in
   * a block the chain confirms; and otherwise as far as its depth takes it.
   */
  predicate StatusAs(d: Deposit, after: Deposit, client: Client, cfg: Config) {
    after == d.(status :=
      if d.status.Orphaned? then Orphaned
      else if Changed(d, client) && (Creditable(d, client, cfg) || InWindow(d, client, cfg)) then Orphaned
      else if d.status.Credited? || (Creditable(d, client, cfg) && client.hashAt(d.block) == Some(d.hash)) then Credited
      else if d.status.DepositConfirmed? || Deep(d, client, cfg) then DepositConfirmed
      else Seen)
  }

  predicate InWindow(d: Deposit, client: Client, cfg: Config) {
    d.block > client.head - (cfg.confirmations + Max(cfg.reorgDepth, cfg.finalityDepth))
  }

  lemma StatusExactly(d: Deposit, client: Client, cfg: Config)
    ensures StatusAs(d, Final(d, client, cfg), client, cfg)
  {
  }

  // ---- a whole pass -------------------------------------------------------------------------

  /** The range of blocks a pass scans starts above the cursor, or at the start block. */
  function FirstBlock(s: State, cfg: Config): int {
    if s.cursor.None? then cfg.startBlock else s.cursor.value.lastScanned + 1
  }

  /** The client delivers a transfer that has to become, or to come back as, the row `d`. */
  ghost predicate Arrives(s: State, v: Visit, cfg: Config, d: Deposit) {
    Delivered(v.watch, v.client, FirstBlock(s, cfg), v.client.head, d)
  }

  /** An old row: back as the transfer that arrives under its key if it was orphaned; then its status. */
  ghost predicate OldRow(s: State, v: Visit, cfg: Config, row: Deposit, after: Deposit) {
    if row.status.Orphaned? && exists d :: Arrives(s, v, cfg, d) && SameTransfer(row, d)
    then exists d, back :: Arrives(s, v, cfg, d) && BackAs(row, back, d) && StatusAs(back, after, v.client, cfg)
    else StatusAs(row, after, v.client, cfg)
  }

  ghost predicate NewRow(s: State, v: Visit, cfg: Config, after: Deposit) {
    exists d :: Arrives(s, v, cfg, d) && !HasRow(s.books.deposits, d) && StatusAs(d, after, v.client, cfg)
  }

  /** What a pass has to make of the deposit table. */
  ghost predicate PassMade(s: State, u: State, v: Visit, cfg: Config) {
    var before, after := s.books.deposits, u.books.deposits;
    && |before| <= |after| && UniqueRows(after)
    && (forall d :: Arrives(s, v, cfg, d) ==> HasRow(after, d))
    && (forall j :: 0 <= j < |before| ==> OldRow(s, v, cfg, before[j], after[j]))
    && (forall j :: |before| <= j < |after| ==> NewRow(s, v, cfg, after[j]))
  }

  lemma ArrivesExactly(s: State, v: Visit, cfg: Config, d: Deposit)
    ensures Arrives(s, v, cfg, d) <==> d in Found(v.watch, v.client, ScanFrom(s.cursor, cfg), v.client.head)
  {
    FoundExactly(v.watch, v.client, ScanFrom(s.cursor, cfg), v.client.head, d);
  }

  lemma FinalKeepsTransfer(d: Deposit, client: Client, cfg: Config)
    ensures Final(d, client, cfg) == d.(status := Final(d, client, cfg).status)
  {
  }

  /** A transfer under the row's key arrives exactly if it is among those found. */
  lemma ArrivesAgain(s: State, v: Visit, cfg: Config, row: Deposit)
    ensures var found := Found(v.watch, v.client, ScanFrom(s.cursor, cfg), v.client.head);
      HasRow(found, row) <==> exists d :: Arrives(s, v, cfg, d) && SameTransfer(row, d)
  {
    hide Found, Arrives;
    var found := Found(v.watch, v.client, ScanFrom(s.cursor, cfg), v.client.head);
    if HasRow(found, row) {
      var j :| 0 <= j < |found| && SameTransfer(found[j], row);
      assert SameTransfer(found[j], row) && found[j] in found;
      ArrivesExactly(s, v, cfg, found[j]);
      assert SameTransfer(row, found[j]);
    }
    forall d | Arrives(s, v, cfg, d) && SameTransfer(row, d)
      ensures HasRow(found, row)
    {
      ArrivesExactly(s, v, cfg, d);
      var j :| 0 <= j < |found| && found[j] == d;
    }
  }

  /** What recording and then the pass make of one old row. */
  lemma OldRowMade(s: State, v: Visit, cfg: Config, row: Deposit, recorded: Deposit, found: seq<Deposit>)
    requires found == Found(v.watch, v.client, ScanFrom(s.cursor, cfg), v.client.head)
    requires KeptAs(row, recorded, found)
    ensures OldRow(s, v, cfg, row, Final(recorded, v.client, cfg))
  {
    hide Found, Final, StatusAs, Arrives;
    StatusExactly(recorded, v.client, cfg);
    ArrivesAgain(s, v, cfg, row);
    if row.status.Orphaned? && HasRow(found, row) {
      var d :| d in found && BackAs(row, recorded, d);
      ArrivesExactly(s, v, cfg, d);
    }
  }

  lemma HasFinalRow(recorded: seq<Deposit>, after: seq<Deposit>, d: Deposit, client: Client, cfg: Config)
    requires |after| == |recorded| && forall j :: 0 <= j < |after| ==> after[j] == Final(recorded[j], client, cfg)
    requires HasRow(recorded, d)
    ensures HasRow(after, d)
  {
    hide Final;
    var j :| 0 <= j < |recorded| && SameTransfer(recorded[j], d);
    assert SameTransfer(recorded[j], d);
    FinalKeepsTransfer(recorded[j], client, cfg);
    assert after[j].txHash == d.txHash && after[j].logIndex == d.logIndex;
  }

  lemma PassExactly(s: State, v: Visit, cfg: Config)
    requires DepositLedger.Backed(s.books) && UniqueRows(s.books.deposits)
    ensures Pass(s, v.watch, v.client, cfg, v.nftLowest).Done?
    ensures PassMade(s, Pass(s, v.watch, v.client, cfg, v.nftLowest).value, v, cfg)
  {
    hide DepositLedger.Backed, Found, Final, InsertedAll, UniqueRows, Pass, OldRow, NewRow, KeptAs, HasRow, Arrives;
    var from := ScanFrom(s.cursor, cfg);
    var before, found := s.books.deposits, Found(v.watch, v.client, from, v.client.head);
    DepositLedger.PassKeeps(s, v.watch, v.client, cfg, v.nftLowest);
    PassUnique(s, v.watch, v.client, cfg, v.nftLowest);
    PassRows(s, v.watch, v.client, cfg, v.nftLowest);
    DepositLedger.FoundIsSeen(v.watch, v.client, from, v.client.head);
    AllRecorded(before, found);
    var recorded := Recorded(s, v.watch, v.client, cfg);
    var after := Pass(s, v.watch, v.client, cfg, v.nftLowest).value.books.deposits;
    forall d | Arrives(s, v, cfg, d)
      ensures HasRow(after, d)
    {
      ArrivesExactly(s, v, cfg, d);
      HasFinalRow(recorded, after, d, v.client, cfg);
    }
    forall j | 0 <= j < |before|
      ensures OldRow(s, v, cfg, before[j], after[j])
    {
      OldRowMade(s, v, cfg, before[j], recorded[j], found);
    }
    forall j | |before| <= j < |after|
      ensures NewRow(s, v, cfg, after[j])
    {
      NewRowMade(s, v, cfg, recorded[j]);
    }
  }

  lemma NewRowMade(s: State, v: Visit, cfg: Config, recorded: Deposit)
    requires recorded in Found(v.watch, v.client, ScanFrom(s.cursor, cfg), v.client.head)
    requires !HasRow(s.books.deposits, recorded)
    ensures NewRow(s, v, cfg, Final(recorded, v.client, cfg))
  {
    hide Found, Final, StatusAs, Arrives;
    ArrivesExactly(s, v, cfg, recorded);
    StatusExactly(recorded, v.client, cfg);
  }

  // ---- over whole runs ----------------------------------------------------------------------

  lemma {:induction false} HistoryOk(visits: seq<Visit>, cfg: Config)
    ensures var h := RunHistory(visits, cfg);
      DepositLedger.Backed(h.state.books) && UniqueRows(h.state.books.deposits) && |h.scans| == |visits|
    decreases |visits|
  {
    if visits == [] {
      NothingBacked();
    } else {
      hide DepositLedger.Backed, UniqueRows, Pass;
      var h, v := RunHistory(visits[..|visits| - 1], cfg), visits[|visits| - 1];
      HistoryOk(visits[..|visits| - 1], cfg);
      DepositLedger.PassKeeps(h.state, v.watch, v.client, cfg, v.nftLowest);
      PassUnique(h.state, v.watch, v.client, cfg, v.nftLowest);
    }
  }

  lemma NothingBacked()
    ensures DepositLedger.Backed(Books([], []))
  {
  }

  /**
   * In every run of passes, what one more pass makes of the deposit table: it completes; every deposit the
   * client delivers from the scanned range has its row; every new row is such a deposit, column by column;
   * an old row comes back exactly if it was orphaned and its transfer arrives again; and every row has the
   * status that its depth and the chain's hash at its height call for.
   */
  lemma PassDecides(visits: seq<Visit>, v: Visit, cfg: Config)
    ensures var s := RunHistory(visits, cfg).state;
      var step := Pass(s, v.watch, v.client, cfg, v.nftLowest);
      step.Done? && PassMade(s, step.value, v, cfg)
  {
    hide DepositLedger.Backed, UniqueRows, Pass, PassMade, RunHistory;
    HistoryOk(visits, cfg);
    PassExactly(RunHistory(visits, cfg).state, v, cfg);
  }

  /** A row, once there, stays. */
  lemma RowStays(s: State, u: State, v: Visit, cfg: Config, d: Deposit)
    requires PassMade(s, u, v, cfg) && HasRow(s.books.deposits, d)
    ensures HasRow(u.books.deposits, d)
  {
    hide Arrives, UniqueRows;
    var j :| 0 <= j < |s.books.deposits| && SameTransfer(s.books.deposits[j], d);
    assert SameTransfer(s.books.deposits[j], d);
    assert OldRow(s, v, cfg, s.books.deposits[j], u.books.deposits[j]);
    assert SameTransfer(u.books.deposits[j], d);
  }

  /** Whatever deposit pass `k` of a run was told of in the blocks it scanned has a row ever after. */
  lemma {:induction false} ScannedHasRow(visits: seq<Visit>, cfg: Config, k: nat, d: Deposit)
    requires k < |visits| == |RunHistory(visits, cfg).scans|
    requires var scan := RunHistory(visits, cfg).scans[k];
      Delivered(visits[k].watch, visits[k].client, scan.from, scan.to, d)
    ensures HasRow(RunHistory(visits, cfg).state.books.deposits, d)
    decreases |visits|
  {
    hide Pass, PassMade, HasRow, Delivered;
    var front, v := visits[..|visits| - 1], visits[|visits| - 1];
    HistoryOk(front, cfg);
    PassDecides(front, v, cfg);
    var h := RunHistory(front, cfg);
    var u := Pass(h.state, v.watch, v.client, cfg, v.nftLowest).value;
    if k < |front| {
      ScannedHasRow(front, cfg, k, d);
      RowStays(h.state, u, v, cfg, d);
    } else {
      ArrivalHasRow(h.state, u, v, cfg, d);
    }
  }

  lemma ArrivalHasRow(s: State, u: State, v: Visit, cfg: Config, d: Deposit)
    requires PassMade(s, u, v, cfg) && Delivered(v.watch, v.client, ScanFrom(s.cursor, cfg), v.client.head, d)
    ensures HasRow(u.books.deposits, d)
  {
    assert Arrives(s, v, cfg, d);
  }

  /** Scan `k` covers block `b`, and every deposit it was told of has its row. */
  ghost predicate RecordedSince(visits: seq<Visit>, h: History, k: int, b: int) {
    && 0 <= k < |visits| == |h.scans| && CoveredSince(h.scans, k, b)
    && forall d :: Delivered(visits[k].watch, visits[k].client, h.scans[k].from, h.scans[k].to, d) ==>
         HasRow(h.state.books.deposits, d)
  }

  /**
   * No deposit below the cursor is missed: every block up to the cursor was inside a scan since the cursor last
   * fell below it, and every deposit that scan was told of has a row.
   */
  lemma NothingMissed(visits: seq<Visit>, cfg: Config, b: int)
    requires var s := RunHistory(visits, cfg).state;
      s.cursor.Some? && cfg.startBlock <= b <= s.cursor.value.lastScanned
    ensures exists k :: RecordedSince(visits, RunHistory(visits, cfg), k, b)
  {
    hide RunHistory, HasRow, CoveredSince, Delivered;
    var h := RunHistory(visits, cfg);
    HistoryOk(visits, cfg);
    CursorCoverage(visits, cfg);
    assert Covered(h.scans, b);
    var k :| CoveredSince(h.scans, k, b);
    CoveredInRange(h.scans, k, b);
    forall d | Delivered(visits[k].watch, visits[k].client, h.scans[k].from, h.scans[k].to, d)
      ensures HasRow(h.state.books.deposits, d)
    {
      ScannedHasRow(visits, cfg, k, d);
    }
    assert RecordedSince(visits, h, k, b);
  }

  lemma CoveredInRange(scans: seq<Scan>, k: int, b: int)
    requires CoveredSince(scans, k, b)
    ensures 0 <= k < |scans|
  {
  }
}
