/**
 * The deposit watcher: record transfers, credit the ledger once a deposit is buried deep enough and
 * its block is still canonical, and reverse the credit when the block is reorged away.
 *
 * One pass sees one head and one block-hash oracle. Addresses and contracts are compared in the
 * lower-case form the code normalises them to.
 */
module Watcher {
  import opened Wrappers
  import opened Tables
  import Keys
  import Ledger

  datatype Transfer = Transfer(
    token: string, from: string, to: string, value: nat,
    txHash: string, logIndex: int, block: int, hash: string)

  /** The chain as the RPC answers it during one pass; each fetch takes an inclusive block range. */
  datatype Client = Client(
    head: int, hashAt: int -> Option<string>,
    erc20: (int, int) -> seq<Transfer>, native: (int, int) -> seq<Transfer>,
    traced: (int, int) -> seq<Transfer>)

  /** What is watched: deposit addresses and their owners, token contracts and assets. */
  datatype Watch = Watch(
    owners: map<string, nat>, erc20Assets: map<string, nat>, nativeAsset: Option<nat>,
    watchInternal: bool, hotWallet: Option<string>)

  datatype Books = Books(txs: seq<LedgerTx>, deposits: seq<Deposit>)

  // ---- recording ----------------------------------------------------------------------------

  function FindDeposit(deposits: seq<Deposit>, txHash: string, logIndex: int): (r: Option<nat>)
    ensures r.Some? ==> (r.value < |deposits|
      && deposits[r.value].txHash == txHash && deposits[r.value].logIndex == logIndex)
    ensures r.None? ==> forall i :: 0 <= i < |deposits| ==>
      deposits[i].txHash != txHash || deposits[i].logIndex != logIndex
  {
    if deposits == [] then None
    else
      var last := |deposits| - 1;
      if deposits[last].txHash == txHash && deposits[last].logIndex == logIndex then Some(last)
      else FindDeposit(deposits[..last], txHash, logIndex)
  }

  /** The row a re-mined transaction leaves behind: back to SEEN under a fresh credit revision. */
  function Resurrected(row: Deposit, found: Deposit): Deposit {
    row.(block := found.block, hash := found.hash, amount := found.amount, status := Seen,
         revision := row.revision + 1)
  }

  function Inserted(deposits: seq<Deposit>, d: Deposit): seq<Deposit> {
    match FindDeposit(deposits, d.txHash, d.logIndex)
    case None => deposits + [d]
    case Some(i) => if deposits[i].status.Orphaned? then deposits[i := Resurrected(deposits[i], d)] else deposits
  }

  function InsertedAll(deposits: seq<Deposit>, found: seq<Deposit>): seq<Deposit> {
    if found == [] then deposits
    else Inserted(InsertedAll(deposits, found[..|found| - 1]), found[|found| - 1])
  }

  function Fresh(t: Transfer, asset: nat, user: nat): Deposit {
    Deposit(t.txHash, t.logIndex, t.block, t.hash, asset, t.value, Seen, Some(user), 0)
  }

  function Erc20Deposits(watch: Watch, transfers: seq<Transfer>): seq<Deposit> {
    if transfers == [] then [] else
      var front := Erc20Deposits(watch, transfers[..|transfers| - 1]);
      var t := transfers[|transfers| - 1];
      if t.token in watch.erc20Assets && t.to in watch.owners
      then front + [Fresh(t, watch.erc20Assets[t.token], watch.owners[t.to])]
      else front
  }

  function NativeDeposits(watch: Watch, asset: nat, transfers: seq<Transfer>): seq<Deposit> {
    if transfers == [] then [] else
      var front := NativeDeposits(watch, asset, transfers[..|transfers| - 1]);
      var t := transfers[|transfers| - 1];
      if watch.hotWallet != Some(t.from) && t.to in watch.owners
      then front + [Fresh(t, asset, watch.owners[t.to])]
      else front
  }

  function NativeTransfers(watch: Watch, client: Client, from: int, to: int): seq<Transfer> {
    client.native(from, to) + (if watch.watchInternal then client.traced(from, to) else [])
  }

  /** Every deposit a scan of [from, to] finds, in the order it is inserted. */
  function Found(watch: Watch, client: Client, from: int, to: int): seq<Deposit> {
    if from > to || watch.owners == map[] then []
    else
      (if watch.erc20Assets == map[] then [] else Erc20Deposits(watch, client.erc20(from, to))) +
      (if watch.nativeAsset.None? then []
       else NativeDeposits(watch, watch.nativeAsset.value, NativeTransfers(watch, client, from, to)))
  }

  /** A transfer of a watched token to an owned address, and the row it has to become. */
  predicate Erc20Deposit(watch: Watch, t: Transfer, d: Deposit) {
    && t.token in watch.erc20Assets && t.to in watch.owners
    && d == Deposit(t.txHash, t.logIndex, t.block, t.hash, watch.erc20Assets[t.token], t.value, Seen,
         Some(watch.owners[t.to]), 0)
  }

  /** Native value sent to an owned address by anyone but the hot wallet, and the row it has to become. */
  predicate NativeDeposit(watch: Watch, t: Transfer, d: Deposit) {
    && watch.nativeAsset.Some? && watch.hotWallet != Some(t.from) && t.to in watch.owners
    && d == Deposit(t.txHash, t.logIndex, t.block, t.hash, watch.nativeAsset.value, t.value, Seen,
         Some(watch.owners[t.to]), 0)
  }

  /** The chain's transfers between blocks `from` and `to` that are deposits, each with its row. */
  predicate Delivers(watch: Watch, client: Client, from: int, to: int, t: Transfer, d: Deposit) {
    from <= to &&
    (|| (t in client.erc20(from, to) && Erc20Deposit(watch, t, d))
     || ((t in client.native(from, to) || (watch.watchInternal && t in client.traced(from, to)))
         && NativeDeposit(watch, t, d)))
  }

  ghost predicate Delivered(watch: Watch, client: Client, from: int, to: int, d: Deposit) {
    exists t :: Delivers(watch, client, from, to, t, d)
  }

  lemma {:induction false} Erc20Exactly(watch: Watch, transfers: seq<Transfer>, d: Deposit)
    ensures d in Erc20Deposits(watch, transfers) <==> exists t :: t in transfers && Erc20Deposit(watch, t, d)
    decreases |transfers|
  {
    if transfers == [] {
    } else {
      var front, last := transfers[..|transfers| - 1], transfers[|transfers| - 1];
      Erc20Exactly(watch, front, d);
      assert transfers == front + [last];
      if t :| t in front && Erc20Deposit(watch, t, d) {
        assert t in transfers;
      }
      if Erc20Deposit(watch, last, d) {
        assert last in transfers;
      } else if t :| t in transfers && Erc20Deposit(watch, t, d) {
        assert t in front;
      }
    }
  }

  lemma {:induction false} NativeExactly(watch: Watch, asset: nat, transfers: seq<Transfer>, d: Deposit)
    requires watch.nativeAsset == Some(asset)
    ensures d in NativeDeposits(watch, asset, transfers) <==>
      exists t :: t in transfers && NativeDeposit(watch, t, d)
    decreases |transfers|
  {
    if transfers == [] {
    } else {
      var front, last := transfers[..|transfers| - 1], transfers[|transfers| - 1];
      NativeExactly(watch, asset, front, d);
      assert transfers == front + [last];
      if t :| t in front && NativeDeposit(watch, t, d) {
        assert t in transfers;
      }
      if NativeDeposit(watch, last, d) {
        assert last in transfers;
      } else if t :| t in transfers && NativeDeposit(watch, t, d) {
        assert t in front;
      }
    }
  }

  /** A scan finds exactly the rows of the chain's deposits in its range. */
  lemma FoundExactly(watch: Watch, client: Client, from: int, to: int, d: Deposit)
    ensures d in Found(watch, client, from, to) <==> Delivered(watch, client, from, to, d)
  {
    hide Erc20Deposits, NativeDeposits;
    Erc20Exactly(watch, client.erc20(from, to), d);
    if watch.nativeAsset.Some? {
      NativeExactly(watch, watch.nativeAsset.value, NativeTransfers(watch, client, from, to), d);
    }
    if d in Found(watch, client, from, to) {
      if d in Erc20Deposits(watch, client.erc20(from, to)) && watch.erc20Assets != map[] {
        var t :| t in client.erc20(from, to) && Erc20Deposit(watch, t, d);
        assert Delivers(watch, client, from, to, t, d);
      } else {
        var t :| t in NativeTransfers(watch, client, from, to) && NativeDeposit(watch, t, d);
        assert Delivers(watch, client, from, to, t, d);
      }
    }
    if t :| Delivers(watch, client, from, to, t, d) {
      assert t.to in watch.owners;
      if t in client.erc20(from, to) && Erc20Deposit(watch, t, d) {
        assert watch.erc20Assets != map[];
      } else {
        assert t in NativeTransfers(watch, client, from, to);
      }
    }
  }

  // ---- confirming and crediting --------------------------------------------------------------

  function Promoted(d: Deposit, threshold: int): Deposit {
    if d.status.Seen? && d.block <= threshold then d.(status := DepositConfirmed) else d
  }

  function PromotedAll(deposits: seq<Deposit>, threshold: int): (r: seq<Deposit>)
    ensures |r| == |deposits|
  {
    seq(|deposits|, i requires 0 <= i < |deposits| => Promoted(deposits[i], threshold))
  }

  /** A confirmed row after the crediting loop looked at it. */
  function Judged(d: Deposit, client: Client): Deposit {
    if !d.status.DepositConfirmed? || d.user.None? then d
    else match client.hashAt(d.block)
      case None => d
      case Some(canonical) => if canonical != d.hash then d.(status := Orphaned) else d.(status := Credited)
  }

  function CreditOutcome(txs: seq<LedgerTx>, i: nat, d: Deposit): Ledger.Posting
    requires d.user.Some?
  {
    Ledger.Outcome(txs, DepositType, Keys.DepositCredit(i, d.revision),
      Ledger.Move(System(DepositsInTransit, d.asset), Wallet(d.user.value, d.asset), d.asset, d.amount),
      DepositRef(i))
  }

  function ReversalOutcome(txs: seq<LedgerTx>, i: nat, d: Deposit): Ledger.Posting
    requires d.user.Some?
  {
    Ledger.Outcome(txs, ReversalType, Keys.DepositReverse(i, d.revision),
      Ledger.Move(Wallet(d.user.value, d.asset), System(DepositsInTransit, d.asset), d.asset, d.amount),
      DepositRef(i))
  }

  /** A replayed posting leaves the ledger alone and the caller goes on; a refused one aborts. */
  function Posted(b: Books, i: nat, d': Deposit, posting: Ledger.Posting): Ledger.Step<Books>
    requires i < |b.deposits|
  {
    if posting.Refused? then Aborted(posting.error)
    else Done(Books(Ledger.After(b.txs, posting), b.deposits[i := d']))
  }

  function CreditRow(b: Books, i: nat, client: Client): (r: Ledger.Step<Books>)
    requires i < |b.deposits|
    ensures r.Done? ==> |r.value.deposits| == |b.deposits|
  {
    var d, d' := b.deposits[i], Judged(b.deposits[i], client);
    if d.status.DepositConfirmed? && d'.status.Credited?
    then Posted(b, i, d', CreditOutcome(b.txs, i, d))
    else Done(b.(deposits := b.deposits[i := d']))
  }

  function CreditRows(b: Books, n: nat, client: Client): (r: Ledger.Step<Books>)
    requires n <= |b.deposits|
    ensures r.Done? ==> |r.value.deposits| == |b.deposits|
  {
    if n == 0 then Done(b)
    else match CreditRows(b, n - 1, client)
      case Aborted(e) => Aborted(e)
      case Done(c) => CreditRow(c, n - 1, client)
  }

  // ---- reorgs -------------------------------------------------------------------------------

  predicate ReorgedOut(d: Deposit, client: Client, floor: int) {
    !d.status.Orphaned? && d.block > floor && client.hashAt(d.block).Some? && client.hashAt(d.block).value != d.hash
  }

  function Rechecked(d: Deposit, client: Client, floor: int): Deposit {
    if ReorgedOut(d, client, floor) then d.(status := Orphaned) else d
  }

  function ReorgRow(b: Books, i: nat, client: Client, floor: int): (r: Ledger.Step<Books>)
    requires i < |b.deposits|
    ensures r.Done? ==> |r.value.deposits| == |b.deposits|
    ensures r.Done? ==> forall k :: 0 <= k < |b.deposits| && k != i ==> r.value.deposits[k] == b.deposits[k]
  {
    var d := b.deposits[i];
    if ReorgedOut(d, client, floor) && d.status.Credited? && d.user.Some?
    then Posted(b, i, Rechecked(d, client, floor), ReversalOutcome(b.txs, i, d))
    else Done(b.(deposits := b.deposits[i := Rechecked(d, client, floor)]))
  }

  function ReorgRows(b: Books, n: nat, client: Client, floor: int): (r: Ledger.Step<Books>)
    requires n <= |b.deposits|
    ensures r.Done? ==> |r.value.deposits| == |b.deposits|
  {
    if n == 0 then Done(b)
    else match ReorgRows(b, n - 1, client, floor)
      case Aborted(e) => Aborted(e)
      case Done(c) => ReorgRow(c, n - 1, client, floor)
  }

  function Lower(lowest: Option<int>, block: int): Option<int> {
    if lowest.None? then Some(block) else Some(Min(lowest.value, block))
  }

  /** The smallest block number the reorg check orphans among the first `n` rows. */
  function LowestOrphaned(deposits: seq<Deposit>, n: nat, client: Client, floor: int): Option<int>
    requires n <= |deposits|
  {
    if n == 0 then None else
      var lowest := LowestOrphaned(deposits, n - 1, client, floor);
      if ReorgedOut(deposits[n - 1], client, floor) then Lower(lowest, deposits[n - 1].block) else lowest
  }

  // ---- one whole pass -----------------------------------------------------------------------

  datatype Config = Config(confirmations: nat, reorgDepth: nat, finalityDepth: nat, startBlock: int)

  function Window(cfg: Config): int {
    cfg.confirmations + Max(cfg.reorgDepth, cfg.finalityDepth)
  }

  datatype State = State(books: Books, cursor: Option<Cursor>)

  function ScanFrom(cursor: Option<Cursor>, cfg: Config): int {
    if cursor.None? then cfg.startBlock else cursor.value.lastScanned + 1
  }

  function Advanced(cursor: Option<Cursor>, client: Client, cfg: Config): Cursor {
    Cursor(
      if cursor.None? then client.head else Max(cursor.value.lastScanned, client.head),
      Max(0, client.head - cfg.confirmations))
  }

  /** The cursor after the reorg reports of the fungible and the NFT watcher are merged. */
  function Rewound(cursor: Cursor, lowest: Option<int>, nftLowest: Option<int>): Cursor {
    match (lowest, nftLowest)
    case (None, None) => cursor
    case (Some(a), None) => cursor.(lastScanned := Min(cursor.lastScanned, a - 1))
    case (None, Some(b)) => cursor.(lastScanned := Min(cursor.lastScanned, b - 1))
    case (Some(a), Some(b)) => cursor.(lastScanned := Min(cursor.lastScanned, Min(a, b) - 1))
  }

  function Recorded(s: State, watch: Watch, client: Client, cfg: Config): seq<Deposit> {
    InsertedAll(s.books.deposits, Found(watch, client, ScanFrom(s.cursor, cfg), client.head))
  }

  /** The rows `confirm_and_credit` starts crediting from. */
  function Due(s: State, watch: Watch, client: Client, cfg: Config): Books {
    Books(s.books.txs, PromotedAll(Recorded(s, watch, client, cfg), client.head - cfg.confirmations))
  }

  function Pass(s: State, watch: Watch, client: Client, cfg: Config, nftLowest: Option<int>): Ledger.Step<State> {
    var due := Due(s, watch, client, cfg);
    match CreditRows(due, |due.deposits|, client)
    case Aborted(e) => Aborted(e)
    case Done(credited) =>
      var floor := client.head - Window(cfg);
      match ReorgRows(credited, |credited.deposits|, client, floor)
      case Aborted(e) => Aborted(e)
      case Done(final) =>
        var lowest := LowestOrphaned(credited.deposits, |credited.deposits|, client, floor);
        Done(State(final, Some(Rewound(Advanced(s.cursor, client, cfg), lowest, nftLowest))))
  }

  // ---- the worker methods -------------------------------------------------------------------

  method InsertIfNew(session: Session, d: Deposit) returns (isNew: bool)
    modifies session`deposits
    ensures session.deposits == Inserted(old(session.deposits), d)
    ensures isNew <==> session.deposits != old(session.deposits)
  {
    var existing := FindDeposit(session.deposits, d.txHash, d.logIndex);
    if existing.None? {
      session.deposits := session.deposits + [d];
      return true;
    }
    var i := existing.value;
    if session.deposits[i].status.Orphaned? {
      var row := session.deposits[i];
      session.deposits := session.deposits[i := row.(block := d.block)];
      session.deposits := session.deposits[i := session.deposits[i].(hash := d.hash)];
      session.deposits := session.deposits[i := session.deposits[i].(amount := d.amount)];
      session.deposits := session.deposits[i := session.deposits[i].(status := Seen)];
      session.deposits := session.deposits[i := session.deposits[i].(revision := row.revision + 1)];
      assert session.deposits[i].revision != old(session.deposits)[i].revision;
      return true;
    }
    return false;
  }

  method InsertErc20(session: Session, watch: Watch, transfers: seq<Transfer>)
    modifies session`deposits
    ensures session.deposits == InsertedAll(old(session.deposits), Erc20Deposits(watch, transfers))
  {
    for k := 0 to |transfers|
      invariant session.deposits == InsertedAll(old(session.deposits), Erc20Deposits(watch, transfers[..k]))
    {
      var t := transfers[k];
      assert transfers[..k + 1][..k] == transfers[..k];
      if t.token !in watch.erc20Assets || t.to !in watch.owners {
        continue;
      }
      var d := Fresh(t, watch.erc20Assets[t.token], watch.owners[t.to]);
      ghost var found := Erc20Deposits(watch, transfers[..k]);
      assert (found + [d])[..|found|] == found;
      var _ := InsertIfNew(session, d);
    }
    assert transfers[..|transfers|] == transfers;
  }

  method InsertNative(session: Session, watch: Watch, asset: nat, transfers: seq<Transfer>)
    modifies session`deposits
    ensures session.deposits == InsertedAll(old(session.deposits), NativeDeposits(watch, asset, transfers))
  {
    for k := 0 to |transfers|
      invariant session.deposits == InsertedAll(old(session.deposits), NativeDeposits(watch, asset, transfers[..k]))
    {
      var t := transfers[k];
      assert transfers[..k + 1][..k] == transfers[..k];
      if watch.hotWallet == Some(t.from) || t.to !in watch.owners {
        continue;
      }
      var d := Fresh(t, asset, watch.owners[t.to]);
      ghost var found := NativeDeposits(watch, asset, transfers[..k]);
      assert (found + [d])[..|found|] == found;
      var _ := InsertIfNew(session, d);
    }
    assert transfers[..|transfers|] == transfers;
  }

  lemma {:induction false} InsertedAllConcat(deposits: seq<Deposit>, a: seq<Deposit>, b: seq<Deposit>)
    ensures InsertedAll(deposits, a + b) == InsertedAll(InsertedAll(deposits, a), b)
    decreases |b|
  {
    if b == [] {
      assert a + b == a;
    } else {
      assert (a + b)[..|a + b| - 1] == a + b[..|b| - 1];
      InsertedAllConcat(deposits, a, b[..|b| - 1]);
    }
  }

  method RecordDeposits(session: Session, watch: Watch, client: Client, from: int, to: int)
    modifies session`deposits
    ensures session.deposits == InsertedAll(old(session.deposits), Found(watch, client, from, to))
  {
    if from > to || watch.owners == map[] {
      return;
    }
    ghost var erc20: seq<Deposit> := [];
    if watch.erc20Assets != map[] {
      InsertErc20(session, watch, client.erc20(from, to));
      erc20 := Erc20Deposits(watch, client.erc20(from, to));
    }
    if watch.nativeAsset.Some? {
      var natives := client.native(from, to);
      if watch.watchInternal {
        natives := natives + client.traced(from, to);
      }
      assert natives == NativeTransfers(watch, client, from, to);
      InsertNative(session, watch, watch.nativeAsset.value, natives);
      InsertedAllConcat(old(session.deposits), erc20, NativeDeposits(watch, watch.nativeAsset.value, natives));
    } else {
      assert erc20 == Found(watch, client, from, to);
    }
  }

  method CreditDeposit(session: Session, i: nat, d: Deposit) returns (posting: Ledger.Posting)
    requires d.user.Some?
    modifies session`txs
    ensures posting == CreditOutcome(old(session.txs), i, d)
    ensures session.txs == Ledger.After(old(session.txs), posting)
  {
    var amount: int := d.amount;
    var wallet, inTransit := Wallet(d.user.value, d.asset), System(DepositsInTransit, d.asset);
    posting := Ledger.Post(session, DepositType, Keys.DepositCredit(i, d.revision),
      [Ledger.Leg(inTransit, d.asset, -amount), Ledger.Leg(wallet, d.asset, amount)], DepositRef(i));
  }

  method ReverseCredit(session: Session, i: nat, d: Deposit) returns (posting: Ledger.Posting)
    requires d.user.Some?
    modifies session`txs
    ensures posting == ReversalOutcome(old(session.txs), i, d)
    ensures session.txs == Ledger.After(old(session.txs), posting)
  {
    var amount: int := d.amount;
    var wallet, inTransit := Wallet(d.user.value, d.asset), System(DepositsInTransit, d.asset);
    posting := Ledger.Post(session, ReversalType, Keys.DepositReverse(i, d.revision),
      [Ledger.Leg(wallet, d.asset, -amount), Ledger.Leg(inTransit, d.asset, amount)], DepositRef(i));
  }

  method CreditOne(session: Session, i: nat, client: Client) returns (error: Option<Ledger.LedgerError>)
    requires i < |session.deposits|
    modifies session`deposits, session`txs
    ensures Ledger.Reached(error, Books(session.txs, session.deposits),
      CreditRow(Books(old(session.txs), old(session.deposits)), i, client))
  {
    var d := session.deposits[i];
    assert session.deposits[i := d] == session.deposits;
    if !d.status.DepositConfirmed? || d.user.None? {
      return None;
    }
    var canonical := client.hashAt(d.block);
    if canonical.None? {
      return None;
    }
    if canonical.value != d.hash {
      session.deposits := session.deposits[i := d.(status := Orphaned)];
      return None;
    }
    var posting := CreditDeposit(session, i, d);
    if posting.Refused? {
      return Some(posting.error);
    }
    session.deposits := session.deposits[i := d.(status := Credited)];
    return None;
  }

  method PromoteDue(session: Session, threshold: int)
    modifies session`deposits
    ensures session.deposits == PromotedAll(old(session.deposits), threshold)
  {
    for i := 0 to |session.deposits|
      invariant |session.deposits| == |old(session.deposits)|
      invariant forall k :: 0 <= k < i ==> session.deposits[k] == Promoted(old(session.deposits)[k], threshold)
      invariant forall k :: i <= k < |session.deposits| ==> session.deposits[k] == old(session.deposits)[k]
    {
      if session.deposits[i].status.Seen? && session.deposits[i].block <= threshold {
        session.deposits := session.deposits[i := session.deposits[i].(status := DepositConfirmed)];
      }
    }
  }

  method CreditConfirmed(session: Session, client: Client) returns (error: Option<Ledger.LedgerError>)
    modifies session`deposits, session`txs
    ensures
      var b := Books(old(session.txs), old(session.deposits));
      Ledger.Reached(error, Books(session.txs, session.deposits), CreditRows(b, |b.deposits|, client))
  {
    hide CreditRow;
    ghost var start := Books(session.txs, session.deposits);
    for i := 0 to |session.deposits|
      invariant |session.deposits| == |start.deposits|
      invariant CreditRows(start, i, client) == Done(Books(session.txs, session.deposits))
    {
      error := CreditOne(session, i, client);
      if error.Some? {
        CreditAborts(start, i + 1, |start.deposits|, client);
        return;
      }
    }
    return None;
  }

  method ConfirmAndCredit(session: Session, client: Client, confirmations: nat)
    returns (error: Option<Ledger.LedgerError>)
    modifies session`deposits, session`txs
    ensures
      var due := Books(old(session.txs), PromotedAll(old(session.deposits), client.head - confirmations));
      Ledger.Reached(error, Books(session.txs, session.deposits), CreditRows(due, |due.deposits|, client))
  {
    PromoteDue(session, client.head - confirmations);
    error := CreditConfirmed(session, client);
  }

  /** A refused posting ends the loop: no later row turns the abort back into success. */
  lemma {:induction false} CreditAborts(b: Books, i: nat, n: nat, client: Client)
    requires i <= n <= |b.deposits| && CreditRows(b, i, client).Aborted?
    ensures CreditRows(b, n, client) == CreditRows(b, i, client)
    decreases n
  {
    if i < n {
      CreditAborts(b, i, n - 1, client);
    }
  }

  method RecheckOne(session: Session, i: nat, client: Client, floor: int)
    returns (error: Option<Ledger.LedgerError>, orphaned: bool)
    requires i < |session.deposits|
    modifies session`deposits, session`txs
    ensures Ledger.Reached(error, Books(session.txs, session.deposits),
      ReorgRow(Books(old(session.txs), old(session.deposits)), i, client, floor))
    ensures error.None? ==> (orphaned <==> ReorgedOut(old(session.deposits)[i], client, floor))
  {
    var d := session.deposits[i];
    assert session.deposits[i := d] == session.deposits;
    if d.status.Orphaned? || d.block <= floor {
      return None, false;
    }
    var canonical := client.hashAt(d.block);
    if canonical.None? || canonical.value == d.hash {
      return None, false;
    }
    if d.status.Credited? && d.user.Some? {
      var posting := ReverseCredit(session, i, d);
      if posting.Refused? {
        return Some(posting.error), false;
      }
    }
    session.deposits := session.deposits[i := d.(status := Orphaned)];
    return None, true;
  }

  method HandleReorgs(session: Session, client: Client, depth: int)
    returns (error: Option<Ledger.LedgerError>, lowest: Option<int>)
    modifies session`deposits, session`txs
    ensures
      var b := Books(old(session.txs), old(session.deposits));
      Ledger.Reached(error, Books(session.txs, session.deposits),
        ReorgRows(b, |b.deposits|, client, client.head - depth)) &&
      (error.None? ==> lowest == LowestOrphaned(b.deposits, |b.deposits|, client, client.head - depth))
  {
    hide ReorgRow;
    var floor := client.head - depth;
    ghost var start := Books(session.txs, session.deposits);
    lowest := None;
    for i := 0 to |session.deposits|
      invariant |session.deposits| == |start.deposits|
      invariant ReorgRows(start, i, client, floor) == Done(Books(session.txs, session.deposits))
      invariant lowest == LowestOrphaned(start.deposits, i, client, floor)
      invariant forall k :: i <= k < |start.deposits| ==> session.deposits[k] == start.deposits[k]
    {
      var block, orphaned := session.deposits[i].block, false;
      error, orphaned := RecheckOne(session, i, client, floor);
      if error.Some? {
        ReorgAborts(start, i + 1, |start.deposits|, client, floor);
        return;
      }
      if orphaned {
        lowest := Lower(lowest, block);
      }
    }
    return None, lowest;
  }

  lemma {:induction false} ReorgAborts(b: Books, i: nat, n: nat, client: Client, floor: int)
    requires i <= n <= |b.deposits| && ReorgRows(b, i, client, floor).Aborted?
    ensures ReorgRows(b, n, client, floor) == ReorgRows(b, i, client, floor)
    decreases n
  {
    if i < n {
      ReorgAborts(b, i, n - 1, client, floor);
    }
  }

  /**
   * One committed-or-rolled-back watcher pass. `nftLowest` is the reorg report of the NFT watcher,
   * which shares the cursor.
   */
  method RunDepositScans(session: Session, watch: Watch, client: Client, cfg: Config, nftLowest: Option<int>)
    returns (error: Option<Ledger.LedgerError>)
    modifies session`deposits, session`txs, session`cursor
    ensures
      var before := State(Books(old(session.txs), old(session.deposits)), old(session.cursor));
      var after := State(Books(session.txs, session.deposits), session.cursor);
      match Pass(before, watch, client, cfg, nftLowest)
      case Done(s) => error.None? && after == s
      case Aborted(e) => error == Some(e) && after == before
  {
    hide CreditRows, ReorgRows, InsertedAll, Found, PromotedAll, LowestOrphaned;
    var txs, deposits, cursor := session.txs, session.deposits, session.cursor;
    var fromBlock;
    if session.cursor.None? {
      fromBlock := cfg.startBlock;
      session.cursor := Some(Cursor(client.head, Max(0, client.head - cfg.confirmations)));
    } else {
      fromBlock := session.cursor.value.lastScanned + 1;
      session.cursor := Some(session.cursor.value.(
        lastScanned := Max(session.cursor.value.lastScanned, client.head),
        lastFinalized := Max(0, client.head - cfg.confirmations)));
    }
    RecordDeposits(session, watch, client, fromBlock, client.head);
    error := ConfirmAndCredit(session, client, cfg.confirmations);
    if error.Some? {
      session.txs, session.deposits, session.cursor := txs, deposits, cursor;
      return;
    }
    var lowest;
    error, lowest :=
      HandleReorgs(session, client, cfg.confirmations + Max(cfg.reorgDepth, cfg.finalityDepth));
    if error.Some? {
      session.txs, session.deposits, session.cursor := txs, deposits, cursor;
      return;
    }
    if lowest.Some? || nftLowest.Some? {
      var both := if lowest.None? then nftLowest.value
                  else if nftLowest.None? then lowest.value
                  else Min(lowest.value, nftLowest.value);
      session.cursor := Some(session.cursor.value.(lastScanned := Min(session.cursor.value.lastScanned, both - 1)));
    }
  }
}
