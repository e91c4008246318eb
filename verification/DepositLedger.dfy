/**
 * Agreement between deposit rows and the ledger. `Backed` is what every part of a watcher pass
 * keeps; it implies that a row's net effect is its amount exactly while it is CREDITED, and that no
 * credit or reversal is ever answered by an old transaction.
 */
module DepositLedger {
  import opened Wrappers
  import opened Sums
  import opened Tables
  import opened Watcher
  import Keys
  import Ledger

  /** What the postings of row `i` add up to on one account. */
  function NetIn(i: nat, account: Account): LedgerTx -> int {
    (t: LedgerTx) => if t.ref == DepositRef(i) then SumBy(t.entries, Ledger.EntryIn(Ledger.OneAccount(account))) else 0
  }

  function Net(txs: seq<LedgerTx>, i: nat, account: Account): int {
    SumBy(txs, NetIn(i, account))
  }

  /** A credit posting that no reversal has undone. */
  predicate Live(txs: seq<LedgerTx>, i: nat, revision: nat) {
    Keys.DepositCredit(i, revision) in Ledger.KeysOf(txs) && Keys.DepositReverse(i, revision) !in Ledger.KeysOf(txs)
  }

  function ExpectedNet(d: Deposit, account: Account): int {
    if !d.status.Credited? || d.user.None? then 0
    else if account == Wallet(d.user.value, d.asset) then d.amount
    else if account == System(DepositsInTransit, d.asset) then 0 - d.amount
    else 0
  }

  ghost predicate KeysMatchRows(b: Books) {
    && (forall i: nat, r: nat :: Live(b.txs, i, r) <==>
          i < |b.deposits| && r == b.deposits[i].revision && b.deposits[i].status.Credited?)
    && (forall i: nat, r: nat :: Keys.DepositReverse(i, r) in Ledger.KeysOf(b.txs) ==>
          Keys.DepositCredit(i, r) in Ledger.KeysOf(b.txs))
    && (forall i: nat, r: nat :: Keys.DepositCredit(i, r) in Ledger.KeysOf(b.txs) ==>
          i < |b.deposits| && r <= b.deposits[i].revision &&
          (r == b.deposits[i].revision ==> b.deposits[i].status.Credited? || b.deposits[i].status.Orphaned?))
  }

  ghost predicate NetMatchesRows(b: Books) {
    && (forall i: nat, account :: i < |b.deposits| ==>
          Net(b.txs, i, account) == ExpectedNet(b.deposits[i], account))
    && (forall t :: t in b.txs && t.ref.DepositRef? ==> t.ref.deposit < |b.deposits|)
    && (forall i :: 0 <= i < |b.deposits| && b.deposits[i].status.Credited? ==> b.deposits[i].user.Some?)
  }

  ghost predicate Backed(b: Books) {
    KeysMatchRows(b) && NetMatchesRows(b)
  }

  // ---- the replay branch is dead ------------------------------------------------------------

  /** Crediting a confirmed row always posts a new transaction. */
  lemma CreditNeverReplays(b: Books, i: nat)
    requires Backed(b) && i < |b.deposits| && b.deposits[i].status.DepositConfirmed? && b.deposits[i].user.Some?
    ensures CreditOutcome(b.txs, i, b.deposits[i]) == Ledger.Posted(CreditTx(i, b.deposits[i]))
  {
    var d := b.deposits[i];
    Ledger.MovePosts(b.txs, DepositType, Keys.DepositCredit(i, d.revision), System(DepositsInTransit, d.asset),
      Wallet(d.user.value, d.asset), d.asset, d.amount, DepositRef(i));
  }

  /** Reversing a credited row always posts a new transaction. */
  lemma ReversalNeverReplays(b: Books, i: nat)
    requires Backed(b) && i < |b.deposits| && b.deposits[i].status.Credited?
    ensures b.deposits[i].user.Some?
    ensures ReversalOutcome(b.txs, i, b.deposits[i]) == Ledger.Posted(ReversalTx(i, b.deposits[i]))
  {
    var d := b.deposits[i];
    assert Live(b.txs, i, d.revision);
    Ledger.MovePosts(b.txs, ReversalType, Keys.DepositReverse(i, d.revision), Wallet(d.user.value, d.asset),
      System(DepositsInTransit, d.asset), d.asset, d.amount, DepositRef(i));
  }

  function CreditTx(i: nat, d: Deposit): LedgerTx
    requires d.user.Some?
  {
    LedgerTx(DepositType, Keys.DepositCredit(i, d.revision), DepositRef(i),
      Ledger.MoveEntries(System(DepositsInTransit, d.asset), Wallet(d.user.value, d.asset), d.asset, d.amount))
  }

  function ReversalTx(i: nat, d: Deposit): LedgerTx
    requires d.user.Some?
  {
    LedgerTx(ReversalType, Keys.DepositReverse(i, d.revision), DepositRef(i),
      Ledger.MoveEntries(Wallet(d.user.value, d.asset), System(DepositsInTransit, d.asset), d.asset, d.amount))
  }

  // ---- what the parts of a pass keep --------------------------------------------------------

  lemma NetAppend(txs: seq<LedgerTx>, t: LedgerTx, i: nat, account: Account)
    ensures Net(txs + [t], i, account) == Net(txs, i, account) + NetIn(i, account)(t)
  {
    SumByAppend(txs, t, NetIn(i, account));
  }

  /** A row that no posting refers to has no net effect. */
  lemma UnreferencedNet(txs: seq<LedgerTx>, i: nat, account: Account)
    requires forall t :: t in txs ==> t.ref != DepositRef(i)
    ensures Net(txs, i, account) == 0
  {
    SumByZero(txs, NetIn(i, account));
  }

  lemma CreditKeepsBacked(b: Books, i: nat)
    requires Backed(b) && i < |b.deposits| && b.deposits[i].status.DepositConfirmed? && b.deposits[i].user.Some?
    ensures var d := b.deposits[i];
      Backed(Books(b.txs + [CreditTx(i, d)], b.deposits[i := d.(status := Credited)]))
  {
    var d := b.deposits[i];
    var t := CreditTx(i, d);
    Ledger.KeysAppend(b.txs, t);
    assert t.key !in Ledger.KeysOf(b.txs) && Keys.DepositReverse(i, d.revision) !in Ledger.KeysOf(b.txs);
    forall j: nat, r: nat
      ensures Live(b.txs + [t], j, r) <==> Live(b.txs, j, r) || (j == i && r == d.revision)
    {
    }
    forall j: nat, account | j < |b.deposits|
      ensures Net(b.txs + [t], j, account) == ExpectedNet(b.deposits[i := d.(status := Credited)][j], account)
    {
      NetAppend(b.txs, t, j, account);
      Ledger.MoveTotal(System(DepositsInTransit, d.asset), Wallet(d.user.value, d.asset), d.asset, d.amount,
        Ledger.OneAccount(account));
    }
  }

  lemma ReversalKeepsBacked(b: Books, i: nat)
    requires Backed(b) && i < |b.deposits| && b.deposits[i].status.Credited?
    ensures b.deposits[i].user.Some?
    ensures var d := b.deposits[i];
      Backed(Books(b.txs + [ReversalTx(i, d)], b.deposits[i := d.(status := Orphaned)]))
  {
    var d := b.deposits[i];
    var t := ReversalTx(i, d);
    assert Live(b.txs, i, d.revision);
    Ledger.KeysAppend(b.txs, t);
    forall j: nat, r: nat
      ensures Live(b.txs + [t], j, r) <==> Live(b.txs, j, r) && !(j == i && r == d.revision)
    {
    }
    forall j: nat, account | j < |b.deposits|
      ensures Net(b.txs + [t], j, account) == ExpectedNet(b.deposits[i := d.(status := Orphaned)][j], account)
    {
      NetAppend(b.txs, t, j, account);
      Ledger.MoveTotal(Wallet(d.user.value, d.asset), System(DepositsInTransit, d.asset), d.asset, d.amount,
        Ledger.OneAccount(account));
    }
  }

  /** Moving a row between statuses that carry no credit needs no posting. */
  lemma QuietRowKeepsBacked(b: Books, i: nat, d': Deposit)
    requires Backed(b) && i < |b.deposits| && !b.deposits[i].status.Credited? && !d'.status.Credited?
    requires d'.revision > b.deposits[i].revision
      || (d'.revision == b.deposits[i].revision && (b.deposits[i].status.Orphaned? ==> d'.status.Orphaned?))
    ensures Backed(Books(b.txs, b.deposits[i := d']))
  {
    var c := Books(b.txs, b.deposits[i := d']);
    forall j: nat, r: nat
      ensures Live(c.txs, j, r) <==> j < |c.deposits| && r == c.deposits[j].revision && c.deposits[j].status.Credited?
    {
      assert Live(b.txs, j, r) <==> j < |b.deposits| && r == b.deposits[j].revision && b.deposits[j].status.Credited?;
    }
    forall j: nat, account | j < |c.deposits|
      ensures Net(c.txs, j, account) == ExpectedNet(c.deposits[j], account)
    {
      assert Net(b.txs, j, account) == ExpectedNet(b.deposits[j], account);
    }
  }

  lemma NewRowKeepsBacked(b: Books, d: Deposit)
    requires Backed(b) && !d.status.Credited?
    ensures Backed(Books(b.txs, b.deposits + [d]))
  {
    var c := Books(b.txs, b.deposits + [d]);
    forall j: nat, r: nat
      ensures Live(c.txs, j, r) <==> j < |c.deposits| && r == c.deposits[j].revision && c.deposits[j].status.Credited?
    {
      assert Live(b.txs, j, r) <==> j < |b.deposits| && r == b.deposits[j].revision && b.deposits[j].status.Credited?;
    }
    forall j: nat, account | j < |c.deposits|
      ensures Net(c.txs, j, account) == ExpectedNet(c.deposits[j], account)
    {
      if j < |b.deposits| {
        assert Net(b.txs, j, account) == ExpectedNet(b.deposits[j], account);
      } else {
        UnreferencedNet(b.txs, j, account);
      }
    }
  }

  /** Postings of the other services: they use neither deposit keys nor deposit references. */
  lemma ForeignPostKeepsBacked(b: Books, t: LedgerTx)
    requires Backed(b) && !t.key.DepositCredit? && !t.key.DepositReverse? && !t.ref.DepositRef?
    ensures Backed(Books(b.txs + [t], b.deposits))
  {
    Ledger.KeysAppend(b.txs, t);
    forall j: nat, r: nat
      ensures Live(b.txs + [t], j, r) <==> Live(b.txs, j, r)
    {
    }
    forall j: nat, account | j < |b.deposits|
      ensures Net(b.txs + [t], j, account) == ExpectedNet(b.deposits[j], account)
    {
      NetAppend(b.txs, t, j, account);
      assert Net(b.txs, j, account) == ExpectedNet(b.deposits[j], account);
    }
  }

  // ---- conservation across the parts of a pass ----------------------------------------------

  function CreditedIn(asset: nat): Deposit -> int {
    (d: Deposit) => if d.status.Credited? && d.asset == asset then d.amount else 0
  }

  function CreditedTotal(deposits: seq<Deposit>, asset: nat): int {
    SumBy(deposits, CreditedIn(asset))
  }

  function SystemTotal(txs: seq<LedgerTx>, name: SystemName, asset: nat): int {
    Ledger.Total(txs, Ledger.OneAccount(System(name, asset)))
  }

  /** From `b` to `c` the wallets and the in-transit account moved with the credited deposits only. */
  ghost predicate Conserves(b: Books, c: Books) {
    forall a: nat ::
      && Ledger.Total(c.txs, Ledger.AllWallets(a)) - CreditedTotal(c.deposits, a)
           == Ledger.Total(b.txs, Ledger.AllWallets(a)) - CreditedTotal(b.deposits, a)
      && SystemTotal(c.txs, DepositsInTransit, a) + CreditedTotal(c.deposits, a)
           == SystemTotal(b.txs, DepositsInTransit, a) + CreditedTotal(b.deposits, a)
      && SystemTotal(c.txs, WithdrawalsReserved, a) == SystemTotal(b.txs, WithdrawalsReserved, a)
      && SystemTotal(c.txs, WithdrawalsSettled, a) == SystemTotal(b.txs, WithdrawalsSettled, a)
  }

  /** Posting between the in-transit account and a wallet while the row's status flips conserves. */
  lemma FlipConserves(b: Books, i: nat, d': Deposit, t: LedgerTx, sign: int)
    requires i < |b.deposits| && b.deposits[i].user.Some?
    requires d' == b.deposits[i].(status := d'.status)
    requires sign == (if d'.status.Credited? then 1 else 0) - (if b.deposits[i].status.Credited? then 1 else 0)
    requires var d := b.deposits[i];
      var wallet, transit := Wallet(d.user.value, d.asset), System(DepositsInTransit, d.asset);
      (sign == 1 && t.entries == Ledger.MoveEntries(transit, wallet, d.asset, d.amount)) ||
      (sign == -1 && t.entries == Ledger.MoveEntries(wallet, transit, d.asset, d.amount))
    ensures Conserves(b, Books(b.txs + [t], b.deposits[i := d']))
  {
    var d := b.deposits[i];
    var wallet, transit := Wallet(d.user.value, d.asset), System(DepositsInTransit, d.asset);
    var delta: int := if sign == 1 then d.amount else 0 - d.amount;
    forall scope: Ledger.Scope
      ensures Ledger.Total(b.txs + [t], scope) == Ledger.Total(b.txs, scope)
        + (if Ledger.Covers(scope, Entry(wallet, d.asset, delta)) then delta else 0)
        - (if Ledger.Covers(scope, Entry(transit, d.asset, -delta)) then delta else 0)
    {
      Ledger.TotalAppend(b.txs, t, scope);
      Ledger.MoveTotal(transit, wallet, d.asset, d.amount, scope);
      Ledger.MoveTotal(wallet, transit, d.asset, d.amount, scope);
    }
    forall a: nat {
      SumByUpdate(b.deposits, i, d', CreditedIn(a));
    }
  }

  lemma QuietRowConserves(b: Books, i: nat, d': Deposit)
    requires i < |b.deposits| && !b.deposits[i].status.Credited? && !d'.status.Credited?
    ensures Conserves(b, Books(b.txs, b.deposits[i := d']))
  {
    forall a: nat {
      SumByUpdate(b.deposits, i, d', CreditedIn(a));
    }
  }

  // ---- one row, then all rows ---------------------------------------------------------------

  lemma CreditRowKeeps(b: Books, i: nat, client: Client)
    requires Backed(b) && i < |b.deposits|
    ensures var r := CreditRow(b, i, client); r.Done? && Backed(r.value) && Conserves(b, r.value)
  {
    var d, d' := b.deposits[i], Judged(b.deposits[i], client);
    if d.status.DepositConfirmed? && d'.status.Credited? {
      CreditNeverReplays(b, i);
      CreditKeepsBacked(b, i);
      FlipConserves(b, i, d', CreditTx(i, d), 1);
    } else if d'.status.Credited? {
      assert b.deposits[i := d'] == b.deposits;
    } else {
      QuietRowKeepsBacked(b, i, d');
      QuietRowConserves(b, i, d');
    }
  }

  lemma {:induction false} CreditRowsKeep(b: Books, n: nat, client: Client)
    requires Backed(b) && n <= |b.deposits|
    ensures var r := CreditRows(b, n, client); r.Done? && Backed(r.value) && Conserves(b, r.value)
    decreases n
  {
    hide CreditRow, Backed;
    if n == 0 {
    } else {
      CreditRowsKeep(b, n - 1, client);
      CreditRowKeeps(CreditRows(b, n - 1, client).value, n - 1, client);
    }
  }

  lemma ReorgRowKeeps(b: Books, i: nat, client: Client, floor: int)
    requires Backed(b) && i < |b.deposits|
    ensures var r := ReorgRow(b, i, client, floor); r.Done? && Backed(r.value) && Conserves(b, r.value)
  {
    var d, d' := b.deposits[i], Rechecked(b.deposits[i], client, floor);
    if !ReorgedOut(d, client, floor) {
      assert b.deposits[i := d'] == b.deposits;
    } else if d.status.Credited? {
      ReversalNeverReplays(b, i);
      ReversalKeepsBacked(b, i);
      FlipConserves(b, i, d', ReversalTx(i, d), -1);
    } else {
      QuietRowKeepsBacked(b, i, d');
      QuietRowConserves(b, i, d');
    }
  }

  lemma {:induction false} ReorgRowsKeep(b: Books, n: nat, client: Client, floor: int)
    requires Backed(b) && n <= |b.deposits|
    ensures var r := ReorgRows(b, n, client, floor); r.Done? && Backed(r.value) && Conserves(b, r.value)
    decreases n
  {
    hide ReorgRow, Backed;
    if n == 0 {
    } else {
      ReorgRowsKeep(b, n - 1, client, floor);
      ReorgRowKeeps(ReorgRows(b, n - 1, client, floor).value, n - 1, client, floor);
    }
  }

  lemma {:induction false} InsertedAllKeeps(b: Books, found: seq<Deposit>)
    requires Backed(b) && forall d :: d in found ==> d.status.Seen?
    ensures var c := Books(b.txs, InsertedAll(b.deposits, found)); Backed(c) && Conserves(b, c)
    decreases |found|
  {
    if found == [] {
    } else {
      var d := found[|found| - 1];
      var front := InsertedAll(b.deposits, found[..|found| - 1]);
      InsertedAllKeeps(b, found[..|found| - 1]);
      match FindDeposit(front, d.txHash, d.logIndex)
      case None =>
        NewRowKeepsBacked(Books(b.txs, front), d);
        forall a: nat {
          SumByAppend(front, d, CreditedIn(a));
        }
      case Some(i) =>
        if front[i].status.Orphaned? {
          QuietRowKeepsBacked(Books(b.txs, front), i, Resurrected(front[i], d));
          QuietRowConserves(Books(b.txs, front), i, Resurrected(front[i], d));
        }
    }
  }

  lemma {:induction false} FoundIsSeen(watch: Watch, client: Client, from: int, to: int)
    ensures forall d :: d in Found(watch, client, from, to) ==> d.status.Seen? && d.user.Some?
  {
    Erc20Seen(watch, client.erc20(from, to));
    if watch.nativeAsset.Some? {
      NativeSeen(watch, watch.nativeAsset.value, NativeTransfers(watch, client, from, to));
    }
  }

  lemma {:induction false} Erc20Seen(watch: Watch, transfers: seq<Transfer>)
    ensures forall d :: d in Erc20Deposits(watch, transfers) ==> d.status.Seen? && d.user.Some?
    decreases |transfers|
  {
    if transfers == [] {
    } else {
      Erc20Seen(watch, transfers[..|transfers| - 1]);
    }
  }

  lemma {:induction false} NativeSeen(watch: Watch, asset: nat, transfers: seq<Transfer>)
    ensures forall d :: d in NativeDeposits(watch, asset, transfers) ==> d.status.Seen? && d.user.Some?
    decreases |transfers|
  {
    if transfers == [] {
    } else {
      NativeSeen(watch, asset, transfers[..|transfers| - 1]);
    }
  }

  lemma PromotedAllKeeps(b: Books, threshold: int)
    requires Backed(b)
    ensures var c := Books(b.txs, PromotedAll(b.deposits, threshold)); Backed(c) && Conserves(b, c)
  {
    var c := Books(b.txs, PromotedAll(b.deposits, threshold));
    forall j: nat, r: nat
      ensures Live(c.txs, j, r) <==> j < |c.deposits| && r == c.deposits[j].revision && c.deposits[j].status.Credited?
    {
      assert Live(b.txs, j, r) <==> j < |b.deposits| && r == b.deposits[j].revision && b.deposits[j].status.Credited?;
    }
    forall j: nat, account | j < |c.deposits|
      ensures Net(c.txs, j, account) == ExpectedNet(c.deposits[j], account)
    {
      assert Net(b.txs, j, account) == ExpectedNet(b.deposits[j], account);
    }
    forall a: nat {
      SumByPointwise(b.deposits, c.deposits, CreditedIn(a));
    }
  }

  /** A whole pass never aborts, keeps rows and ledger in agreement, and conserves. */
  lemma PassKeeps(s: State, watch: Watch, client: Client, cfg: Config, nftLowest: Option<int>)
    requires Backed(s.books)
    ensures var r := Pass(s, watch, client, cfg, nftLowest);
      r.Done? && Backed(r.value.books) && Conserves(s.books, r.value.books)
  {
    hide CreditRows, ReorgRows, InsertedAll, Backed, Found;
    var found := Found(watch, client, ScanFrom(s.cursor, cfg), client.head);
    FoundIsSeen(watch, client, ScanFrom(s.cursor, cfg), client.head);
    InsertedAllKeeps(s.books, found);
    var recorded := Books(s.books.txs, InsertedAll(s.books.deposits, found));
    PromotedAllKeeps(recorded, client.head - cfg.confirmations);
    var due := Due(s, watch, client, cfg);
    CreditRowsKeep(due, |due.deposits|, client);
    var credited := CreditRows(due, |due.deposits|, client).value;
    ReorgRowsKeep(credited, |credited.deposits|, client, client.head - Window(cfg));
  }
}
