/**
 * Concurrent debits. Lock, balance read, key search, insert and commit are separate steps of
 * separate database transactions, interleaved with each other and with the workers' commits; reads
 * see committed entries only, the wallet lock and the unique key are held until commit.
 */
module Overspend {
  import opened Wrappers
  import opened Sums
  import opened Tables
  import Keys
  import Ledger
  import Payments
  import DepositLedger
  import Withdrawer

  /** The debit a request wants to make: `create_withdrawal` or `create_transfer` past their checks. */
  datatype Debit = Debit(user: nat, asset: nat, amount: int, target: Account, kind: EntryType, key: Key, ref: Ref)

  predicate Sensible(d: Debit) {
    && d.amount > 0 && d.target.asset == d.asset && d.target != Wallet(d.user, d.asset)
    && match d.key
       case TransferKey(user, _) => user == d.user && d.target.Wallet? && d.ref == TransferRef(user, d.target.user)
       case WithdrawKey(user, _) => user == d.user && d.ref.WithdrawalRef?
       case _ => false
  }

  /** How a session's last transaction ended. */
  datatype Ending =
    | NotStarted
    | Answered(first: LedgerTx)     // the key was there at once
    | Short                         // not enough funds
    | Replayed(first: LedgerTx)     // `post` found the key under the same reference
    | KeyRefused                    // `post` found the key under another reference
    | Conflict                      // the insert met a key committed after the search; the transaction aborts
    | Committed
    | RolledBack

  datatype Phase =
    | Idle(ending: Ending)
    | Started(debit: Debit)                 // the key was not found
    | Locked(debit: Debit)                  // holds the wallet row lock
    | Checked(debit: Debit)                 // read a sufficient balance
    | Searched(debit: Debit, seen: nat)     // `post` did not find the key among the first `seen` transactions
    | Inserted(debit: Debit)                // transaction and entries written, not committed

  predicate HoldsWallet(p: Phase, user: nat, asset: nat) {
    !p.Idle? && !p.Started? && p.debit.user == user && p.debit.asset == asset
  }

  datatype World = World(txs: seq<LedgerTx>, sessions: seq<Phase>)

  datatype Event =
    | Begin(session: nat, debit: Debit)
    | Lock(session: nat)
    | Read(session: nat)
    | Search(session: nat)
    | Insert(session: nat)
    | Commit(session: nat)
    | Rollback(session: nat)
    | Worker(tx: LedgerTx)      // a watcher or withdrawer posting commits

  function DebitTx(d: Debit): LedgerTx {
    LedgerTx(d.kind, d.key, d.ref, Ledger.MoveEntries(Wallet(d.user, d.asset), d.target, d.asset, d.amount))
  }

  function To(w: World, i: nat, p: Phase): World
    requires i < |w.sessions|
  {
    w.(sessions := w.sessions[i := p])
  }

  predicate WalletFree(w: World, user: nat, asset: nat) {
    forall k :: 0 <= k < |w.sessions| ==> !HoldsWallet(w.sessions[k], user, asset)
  }

  predicate KeyFree(w: World, key: Key) {
    forall k :: 0 <= k < |w.sessions| && w.sessions[k].Inserted? ==> w.sessions[k].debit.key != key
  }

  /** A step that must wait, or that the session is not ready for, changes nothing. */
  function Next(w: World, e: Event): World {
    if e.Worker? then w.(txs := w.txs + [e.tx])
    else if e.session >= |w.sessions| then w
    else
      var i, p := e.session, w.sessions[e.session];
      match e
      case Begin(_, debit) =>
        if !p.Idle? then w
        else
          var first := Ledger.Find(w.txs, debit.key);
          To(w, i, if first.Some? then Idle(Answered(first.value)) else Started(debit))
      case Lock(_) =>
        if p.Started? && WalletFree(w, p.debit.user, p.debit.asset) then To(w, i, Locked(p.debit)) else w
      case Read(_) =>
        if !p.Locked? then w
        else if Ledger.AvailableBalance(w.txs, p.debit.user, p.debit.asset) < p.debit.amount then To(w, i, Idle(Short))
        else To(w, i, Checked(p.debit))
      case Search(_) =>
        if !p.Checked? then w
        else
          var first := Ledger.Find(w.txs, p.debit.key);
          To(w, i,
            if first.None? then Searched(p.debit, |w.txs|)
            else if first.value.ref == p.debit.ref then Idle(Replayed(first.value))
            else Idle(KeyRefused))
      case Insert(_) =>
        // A rival's uncommitted row under the same key makes the insert wait; a committed one fails it.
        if !p.Searched? || !KeyFree(w, p.debit.key) then w
        else if p.debit.key in Ledger.KeysOf(w.txs) then To(w, i, Idle(Conflict))
        else To(w, i, Inserted(p.debit))
      case Commit(_) => if p.Inserted? then To(w, i, Idle(Committed)).(txs := w.txs + [DebitTx(p.debit)]) else w
      case Rollback(_) => To(w, i, Idle(RolledBack))
  }

  /** Worker postings use keys of their own and debit a wallet only to reverse a reorged credit. */
  predicate WorkerPosting(t: LedgerTx) {
    && !t.key.WithdrawKey? && !t.key.TransferKey?
    && (forall e :: e in t.entries && e.account.Wallet? ==>
      if t.key.DepositReverse? then e.amount <= 0 else e.amount >= 0)
  }

  /** A withdrawal's reference is the fresh id of its own request row. */
  predicate FreshRef(w: World, d: Debit) {
    d.key.WithdrawKey? ==>
      && (forall t :: t in w.txs && t.key.WithdrawKey? ==> t.ref != d.ref)
      && (forall k :: 0 <= k < |w.sessions| && !w.sessions[k].Idle? && w.sessions[k].debit.key.WithdrawKey? ==>
            w.sessions[k].debit.ref != d.ref)
  }

  predicate Allowed(w: World, e: Event) {
    match e
    case Begin(_, debit) => Sensible(debit) && FreshRef(w, debit)
    case Worker(tx) => WorkerPosting(tx) && tx.key !in Ledger.KeysOf(w.txs)
    case _ => true
  }

  function Start(sessions: nat): World {
    World([], seq(sessions, i => Idle(NotStarted)))
  }

  function Run(sessions: nat, events: seq<Event>): World {
    if events == [] then Start(sessions)
    else Next(Run(sessions, events[..|events| - 1]), events[|events| - 1])
  }

  predicate AllowedRun(sessions: nat, events: seq<Event>) {
    events == [] ||
    (AllowedRun(sessions, events[..|events| - 1])
      && Allowed(Run(sessions, events[..|events| - 1]), events[|events| - 1]))
  }

  // ---- the invariant ------------------------------------------------------------------------

  function ReversedIn(user: nat, asset: nat): LedgerTx -> int {
    (t: LedgerTx) =>
      if t.key.DepositReverse? then -SumBy(t.entries, Ledger.EntryIn(Ledger.OneAccount(Wallet(user, asset)))) else 0
  }

  /** The total of the wallet's credits that reorgs took back. */
  function ReversedTotal(txs: seq<LedgerTx>, user: nat, asset: nat): int {
    SumBy(txs, ReversedIn(user, asset))
  }

  /** What the wallet would hold had no reorg taken anything back. */
  function Backing(txs: seq<LedgerTx>, user: nat, asset: nat): int {
    Ledger.AvailableBalance(txs, user, asset) + ReversedTotal(txs, user, asset)
  }

  predicate PastRead(p: Phase) {
    p.Checked? || p.Searched? || p.Inserted?
  }

  /** Two sessions that hold the same wallet lock, or wrote the same key. */
  predicate Clash(p: Phase, q: Phase) {
    || (!q.Idle? && HoldsWallet(p, q.debit.user, q.debit.asset) && HoldsWallet(q, q.debit.user, q.debit.asset))
    || (p.Inserted? && q.Inserted? && p.debit.key == q.debit.key)
  }

  ghost predicate Ok(w: World) {
    && Ledger.UniqueKeys(w.txs)
    && (forall u: nat, a: nat :: Backing(w.txs, u, a) >= 0 && ReversedTotal(w.txs, u, a) >= 0)
    && (forall i :: 0 <= i < |w.sessions| && !w.sessions[i].Idle? ==> Sensible(w.sessions[i].debit))
    && (forall i :: 0 <= i < |w.sessions| && PastRead(w.sessions[i]) ==>
          var d := w.sessions[i].debit; Backing(w.txs, d.user, d.asset) >= d.amount)
    && (forall i, j :: 0 <= i < j < |w.sessions| ==> !Clash(w.sessions[i], w.sessions[j]))
    && (forall i :: 0 <= i < |w.sessions| && w.sessions[i].Inserted? ==>
          w.sessions[i].debit.key !in Ledger.KeysOf(w.txs))
  }

  lemma BackingAppend(txs: seq<LedgerTx>, t: LedgerTx, user: nat, asset: nat)
    ensures var delta := SumBy(t.entries, Ledger.EntryIn(Ledger.OneAccount(Wallet(user, asset))));
      && Backing(txs + [t], user, asset) == Backing(txs, user, asset) + (if t.key.DepositReverse? then 0 else delta)
      && ReversedTotal(txs + [t], user, asset) ==
           ReversedTotal(txs, user, asset) - (if t.key.DepositReverse? then delta else 0)
  {
    Ledger.TotalAppend(txs, t, Ledger.OneAccount(Wallet(user, asset)));
    SumByAppend(txs, t, ReversedIn(user, asset));
  }

  lemma {:induction false} EntriesSign(entries: seq<Entry>, user: nat, asset: nat, negative: bool)
    requires forall e :: e in entries && e.account.Wallet? ==> if negative then e.amount <= 0 else e.amount >= 0
    ensures var delta := SumBy(entries, Ledger.EntryIn(Ledger.OneAccount(Wallet(user, asset))));
      if negative then delta <= 0 else delta >= 0
    decreases |entries|
  {
    if entries == [] {
    } else {
      EntriesSign(entries[..|entries| - 1], user, asset, negative);
    }
  }

  lemma WorkerKeeps(w: World, t: LedgerTx)
    requires Ok(w) && Allowed(w, Worker(t))
    ensures Ok(Next(w, Worker(t)))
  {
    Ledger.KeysAppend(w.txs, t);
    forall u: nat, a: nat
      ensures Backing(w.txs + [t], u, a) >= Backing(w.txs, u, a)
      ensures ReversedTotal(w.txs + [t], u, a) >= ReversedTotal(w.txs, u, a)
    {
      BackingAppend(w.txs, t, u, a);
      EntriesSign(t.entries, u, a, t.key.DepositReverse?);
    }
    UniqueAppend(w.txs, t);
  }

  lemma UniqueAppend(txs: seq<LedgerTx>, t: LedgerTx)
    requires Ledger.UniqueKeys(txs) && t.key !in Ledger.KeysOf(txs)
    ensures Ledger.UniqueKeys(txs + [t])
  {
    assert forall i :: 0 <= i < |txs| ==> txs[i].key in Ledger.KeysOf(txs);
  }

  lemma CommitKeeps(w: World, i: nat)
    requires Ok(w) && i < |w.sessions| && w.sessions[i].Inserted?
    ensures Ok(Next(w, Commit(i)))
  {
    hide Ledger.Total;
    var d := w.sessions[i].debit;
    var t, w' := DebitTx(d), Next(w, Commit(i));
    Ledger.KeysAppend(w.txs, t);
    UniqueAppend(w.txs, t);
    forall u: nat, a: nat
      ensures Backing(w'.txs, u, a) >= Backing(w.txs, u, a) - (if u == d.user && a == d.asset then d.amount else 0)
      ensures ReversedTotal(w'.txs, u, a) == ReversedTotal(w.txs, u, a)
    {
      BackingAppend(w.txs, t, u, a);
      Ledger.MoveTotal(Wallet(d.user, d.asset), d.target, d.asset, d.amount, Ledger.OneAccount(Wallet(u, a)));
    }
    forall j | 0 <= j < |w'.sessions| && PastRead(w'.sessions[j])
      ensures Backing(w'.txs, w'.sessions[j].debit.user, w'.sessions[j].debit.asset) >= w'.sessions[j].debit.amount
    {
      assert j != i && w'.sessions[j] == w.sessions[j];
      assert !Clash(w.sessions[i], w.sessions[j]) && !Clash(w.sessions[j], w.sessions[i]);
    }
  }

  /** A step that commits nothing: the session's new phase must be one its surroundings allow. */
  lemma PhaseKeeps(w: World, i: nat, p: Phase)
    requires Ok(w) && i < |w.sessions|
    requires !p.Idle? ==> Sensible(p.debit)
    requires PastRead(p) ==> Backing(w.txs, p.debit.user, p.debit.asset) >= p.debit.amount
    requires forall j :: 0 <= j < |w.sessions| && j != i ==> !Clash(p, w.sessions[j]) && !Clash(w.sessions[j], p)
    requires p.Inserted? ==> p.debit.key !in Ledger.KeysOf(w.txs)
    ensures Ok(To(w, i, p))
  {
  }

  lemma NoClash(w: World, i: nat, j: nat)
    requires Ok(w) && i < |w.sessions| && j < |w.sessions| && i != j
    ensures !Clash(w.sessions[i], w.sessions[j])
  {
    if j < i {
      assert !Clash(w.sessions[j], w.sessions[i]);
    }
  }

  lemma SessionKeeps(w: World, e: Event)
    requires Ok(w) && Allowed(w, e) && !e.Worker? && !e.Commit? && e.session < |w.sessions|
    ensures Ok(Next(w, e))
  {
    var i := e.session;
    var p' := Next(w, e).sessions[i];
    assert Next(w, e) == w || Next(w, e) == To(w, i, p');
    if Next(w, e) != w {
      forall j | 0 <= j < |w.sessions| && j != i
        ensures !Clash(p', w.sessions[j]) && !Clash(w.sessions[j], p')
      {
        NoClash(w, i, j);
        NoClash(w, j, i);
      }
      PhaseKeeps(w, i, p');
    }
  }

  lemma NextKeeps(w: World, e: Event)
    requires Ok(w) && Allowed(w, e)
    ensures Ok(Next(w, e))
  {
    if e.Worker? {
      WorkerKeeps(w, e.tx);
    } else if e.session < |w.sessions| {
      if e.Commit? {
        if w.sessions[e.session].Inserted? {
          CommitKeeps(w, e.session);
        }
      } else {
        SessionKeeps(w, e);
      }
    }
  }

  /**
   * No overspend, over every interleaving: a wallet's balance together with the credits that reorgs
   * took back from it is never negative (so without reversals the balance itself never is), and every
   * key, hence every scoped client key, belongs to at most one committed transaction.
   */
  lemma {:induction false} NoOverspend(sessions: nat, events: seq<Event>, user: nat, asset: nat)
    requires AllowedRun(sessions, events)
    ensures var txs := Run(sessions, events).txs;
      && Ledger.AvailableBalance(txs, user, asset) + ReversedTotal(txs, user, asset) >= 0
      && (ReversedTotal(txs, user, asset) == 0 ==> Ledger.AvailableBalance(txs, user, asset) >= 0)
      && Ledger.UniqueKeys(txs)
  {
    RunOk(sessions, events);
    assert Backing(Run(sessions, events).txs, user, asset) >= 0;
  }

  lemma {:induction false} RunOk(sessions: nat, events: seq<Event>)
    requires AllowedRun(sessions, events)
    ensures Ok(Run(sessions, events))
    decreases |events|
  {
    if events == [] {
    } else {
      var front := events[..|events| - 1];
      RunOk(sessions, front);
      NextKeeps(Run(sessions, front), events[|events| - 1]);
    }
  }

  // ---- duplicates of a client key -----------------------------------------------------------

  ghost predicate Begun(events: seq<Event>, d: Debit) {
    exists k :: 0 <= k < |events| && events[k].Begin? && events[k].debit == d
  }

  /** `t` is what the debit `r`, begun in this run under the key of `d` but on another wallet, committed. */
  ghost predicate Rival(events: seq<Event>, t: LedgerTx, r: Debit, d: Debit) {
    Begun(events, r) && t == DebitTx(r) && r.key == d.key && r.user == d.user && r.asset != d.asset
  }

  ghost predicate RivalsOnly(w: World, events: seq<Event>, p: Phase) {
    p.Searched? ==>
      && p.seen <= |w.txs| && p.debit.key !in Ledger.KeysOf(w.txs[..p.seen])
      && forall k :: p.seen <= k < |w.txs| && w.txs[k].key == p.debit.key ==>
        exists r :: Rival(events, w.txs[k], r, p.debit)
  }

  ghost predicate FromBegin(events: seq<Event>, t: LedgerTx) {
    t.key.WithdrawKey? || t.key.TransferKey? ==> exists r :: Begun(events, r) && Sensible(r) && t == DebitTx(r)
  }

  predicate SameWithdrawal(p: Phase, ref: Ref) {
    !p.Idle? && p.debit.key.WithdrawKey? && p.debit.ref == ref
  }

  /** What is known of a run beyond `Ok`: where debits came from, and whose key a search can miss. */
  ghost predicate Traced(w: World, events: seq<Event>) {
    && (forall i :: 0 <= i < |w.sessions| && !w.sessions[i].Idle? ==> Begun(events, w.sessions[i].debit))
    && (forall k :: 0 <= k < |w.txs| ==> FromBegin(events, w.txs[k]))
    && (forall i :: 0 <= i < |w.sessions| ==> RivalsOnly(w, events, w.sessions[i]))
    && (forall i, k :: 0 <= i < |w.sessions| && 0 <= k < |w.txs| && w.txs[k].key.WithdrawKey? ==>
          !SameWithdrawal(w.sessions[i], w.txs[k].ref))
    && (forall i, j :: 0 <= i < j < |w.sessions| && !w.sessions[i].Idle? && w.sessions[i].debit.key.WithdrawKey? ==>
          !SameWithdrawal(w.sessions[j], w.sessions[i].debit.ref))
  }

  lemma BegunLonger(events: seq<Event>, e: Event, d: Debit)
    ensures Begun(events, d) ==> Begun(events + [e], d)
    ensures e.Begin? ==> Begun(events + [e], e.debit)
  {
    if Begun(events, d) {
      var k :| 0 <= k < |events| && events[k].Begin? && events[k].debit == d;
      assert (events + [e])[k] == events[k];
    }
    assert (events + [e])[|events|] == e;
  }

  lemma TracedLonger(w: World, events: seq<Event>, e: Event)
    requires Traced(w, events)
    ensures Traced(w, events + [e])
  {
    hide Begun, Sensible;
    forall d: Debit
      ensures Begun(events, d) ==> Begun(events + [e], d)
    {
      BegunLonger(events, e, d);
    }
    forall k | 0 <= k < |w.txs|
      ensures FromBegin(events + [e], w.txs[k])
    {
      assert FromBegin(events, w.txs[k]);
    }
    forall i | 0 <= i < |w.sessions|
      ensures RivalsOnly(w, events + [e], w.sessions[i])
    {
      assert RivalsOnly(w, events, w.sessions[i]);
      var p := w.sessions[i];
      if p.Searched? {
        forall k | p.seen <= k < |w.txs| && w.txs[k].key == p.debit.key
          ensures exists r :: Rival(events + [e], w.txs[k], r, p.debit)
        {
          var r :| Rival(events, w.txs[k], r, p.debit);
          assert Rival(events + [e], w.txs[k], r, p.debit);
        }
      }
    }
  }

  lemma SearchedStays(w: World, events: seq<Event>, t: LedgerTx, p: Phase)
    requires RivalsOnly(w, events, p)
    requires p.Searched? && t.key == p.debit.key ==> exists r :: Rival(events, t, r, p.debit)
    ensures RivalsOnly(w.(txs := w.txs + [t]), events, p)
  {
    if p.Searched? {
      assert (w.txs + [t])[..p.seen] == w.txs[..p.seen];
    }
  }

  lemma CommitTraced(w: World, events: seq<Event>, i: nat)
    requires Ok(w) && Traced(w, events) && i < |w.sessions| && w.sessions[i].Inserted?
    ensures Traced(Next(w, Commit(i)), events)
  {
    hide Begun, Backing;
    var d := w.sessions[i].debit;
    var t, w' := DebitTx(d), Next(w, Commit(i));
    forall j | 0 <= j < |w'.sessions|
      ensures RivalsOnly(w', events, w'.sessions[j])
    {
      var p := w'.sessions[j];
      if p.Searched? && t.key == p.debit.key {
        assert p == w.sessions[j] && j != i && Begun(events, d);
        NoClash(w, i, j);
        assert HoldsWallet(p, p.debit.user, p.debit.asset) && HoldsWallet(w.sessions[i], d.user, d.asset);
        assert Rival(events, t, d, p.debit);
      }
      if j != i {
        SearchedStays(w, events, t, p);
      }
    }
    forall k | 0 <= k < |w'.txs|
      ensures FromBegin(events, w'.txs[k])
    {
      if k == |w.txs| {
        assert Begun(events, d) && Sensible(d) && t == DebitTx(d);
      } else {
        assert FromBegin(events, w.txs[k]);
      }
    }
  }

  lemma WorkerTraced(w: World, events: seq<Event>, t: LedgerTx)
    requires Ok(w) && Traced(w, events) && WorkerPosting(t)
    ensures Traced(Next(w, Worker(t)), events)
  {
    var w' := Next(w, Worker(t));
    forall j | 0 <= j < |w'.sessions|
      ensures RivalsOnly(w', events, w'.sessions[j])
    {
      assert !w.sessions[j].Idle? ==> Sensible(w.sessions[j].debit);
      SearchedStays(w, events, t, w.sessions[j]);
    }
    assert forall k :: 0 <= k < |w.txs| ==> w'.txs[k] == w.txs[k];
  }

  /** A step that commits nothing: what the session's new phase must satisfy. */
  lemma PhaseTraced(w: World, events: seq<Event>, i: nat, p: Phase)
    requires Traced(w, events) && i < |w.sessions| && RivalsOnly(w, events, p)
    requires !p.Idle? ==> Begun(events, p.debit)
    requires forall k :: 0 <= k < |w.txs| && w.txs[k].key.WithdrawKey? ==> !SameWithdrawal(p, w.txs[k].ref)
    requires !p.Idle? && p.debit.key.WithdrawKey? ==>
      forall j :: 0 <= j < |w.sessions| && j != i ==> !SameWithdrawal(w.sessions[j], p.debit.ref)
    ensures Traced(To(w, i, p), events)
  {
    hide Begun, FromBegin;
    var w' := To(w, i, p);
    forall j | 0 <= j < |w'.sessions|
      ensures RivalsOnly(w', events, w'.sessions[j])
    {
      assert RivalsOnly(w, events, w.sessions[j]);
    }
  }

  lemma SessionTraced(w: World, events: seq<Event>, e: Event)
    requires Ok(w) && Traced(w, events) && Allowed(w, e) && !e.Worker? && !e.Commit? && e.session < |w.sessions|
    requires e.Begin? ==> Begun(events, e.debit)
    ensures Traced(Next(w, e), events)
  {
    hide Begun, FromBegin, Sensible, Ok;
    var i, w' := e.session, Next(w, e);
    if w' != w {
      var p := w'.sessions[i];
      assert w' == To(w, i, p);
      assert w.txs[..|w.txs|] == w.txs;
      assert RivalsOnly(w, events, w.sessions[i]);
      if !p.Idle? && !e.Begin? && p.debit.key.WithdrawKey? {
        OthersDiffer(w, events, i);
      }
      assert forall k :: 0 <= k < |w.txs| ==> w.txs[k] in w.txs;
      PhaseTraced(w, events, i, p);
    }
  }

  lemma OthersDiffer(w: World, events: seq<Event>, i: nat)
    requires Traced(w, events) && i < |w.sessions| && !w.sessions[i].Idle? && w.sessions[i].debit.key.WithdrawKey?
    ensures forall j :: 0 <= j < |w.sessions| && j != i ==> !SameWithdrawal(w.sessions[j], w.sessions[i].debit.ref)
  {
    hide Begun, FromBegin, RivalsOnly;
  }

  lemma NextTraced(w: World, events: seq<Event>, e: Event)
    requires Ok(w) && Traced(w, events) && Allowed(w, e)
    ensures Traced(Next(w, e), events + [e])
  {
    hide Traced, Ok, Begun;
    TracedLonger(w, events, e);
    if e.Worker? {
      WorkerTraced(w, events + [e], e.tx);
    } else if e.session < |w.sessions| {
      if e.Commit? {
        if w.sessions[e.session].Inserted? {
          CommitTraced(w, events + [e], e.session);
        }
      } else {
        if e.Begin? {
          BegunLonger(events, e, e.debit);
        }
        SessionTraced(w, events + [e], e);
      }
    }
  }

  lemma {:induction false} RunTraced(sessions: nat, events: seq<Event>)
    requires AllowedRun(sessions, events)
    ensures Ok(Run(sessions, events)) && Traced(Run(sessions, events), events)
    decreases |events|
  {
    if events == [] {
      return;
    }
    hide Ok, Traced, Next, Allowed;
    var front, e := events[..|events| - 1], events[|events| - 1];
    RunTraced(sessions, front);
    assert events == front + [e] && Run(sessions, events) == Next(Run(sessions, front), e);
    NextKeeps(Run(sessions, front), e);
    NextTraced(Run(sessions, front), front, e);
  }

  /** A transaction under the session's key was committed after its search. */
  predicate CommittedSince(w: World, p: Phase, k: int) {
    p.Searched? && p.seen <= k < |w.txs| && w.txs[k].key == p.debit.key
  }

  lemma KeySinceSearch(w: World, events: seq<Event>, p: Phase)
    requires RivalsOnly(w, events, p) && p.Searched?
    ensures p.debit.key in Ledger.KeysOf(w.txs) <==> exists k :: CommittedSince(w, p, k)
    ensures forall k :: CommittedSince(w, p, k) ==> exists r :: Rival(events, w.txs[k], r, p.debit)
  {
    hide Rival;
    if p.debit.key in Ledger.KeysOf(w.txs) {
      var k :| 0 <= k < |w.txs| && w.txs[k].key == p.debit.key;
      assert forall m :: 0 <= m < p.seen ==> w.txs[..p.seen][m] == w.txs[m];
      assert CommittedSince(w, p, k);
    }
  }

  lemma InsertOutcome(w: World, events: seq<Event>, i: nat)
    requires Traced(w, events) && i < |w.sessions| && w.sessions[i].Searched? && KeyFree(w, w.sessions[i].debit.key)
    ensures Next(w, Insert(i)).sessions[i] == Idle(Conflict) <==> exists k :: CommittedSince(w, w.sessions[i], k)
    ensures forall k :: CommittedSince(w, w.sessions[i], k) ==>
      exists r :: Rival(events, w.txs[k], r, w.sessions[i].debit)
  {
    hide Rival, CommittedSince, Begun, FromBegin;
    KeySinceSearch(w, events, w.sessions[i]);
  }

  /**
   * Exactly when an insert aborts on the unique key: a transaction under the key was committed between
   * the session's search and its insert. Any such transaction debited the same user's wallet of another
   * asset, because requests on one wallet wait for each other before they search.
   */
  lemma InsertAbortsExactly(sessions: nat, events: seq<Event>, i: nat)
    requires AllowedRun(sessions, events) && i < |Run(sessions, events).sessions|
    requires Run(sessions, events).sessions[i].Searched?
      && KeyFree(Run(sessions, events), Run(sessions, events).sessions[i].debit.key)
    ensures var w := Run(sessions, events);
      var p := w.sessions[i];
      && (Next(w, Insert(i)).sessions[i] == Idle(Conflict) <==> exists k :: CommittedSince(w, p, k))
      && (forall k :: CommittedSince(w, p, k) ==> exists r :: Rival(events, w.txs[k], r, p.debit))
  {
    RunTraced(sessions, events);
    InsertOutcome(Run(sessions, events), events, i);
  }

  /** No client key is used for debits of two assets. */
  ghost predicate OneAssetPerKey(events: seq<Event>) {
    forall r, d :: Begun(events, r) && Begun(events, d) && r.key == d.key ==> r.asset == d.asset
  }

  /** Unless a client key is reused for another asset, no transaction ever aborts on a duplicate key. */
  lemma {:induction false} NoConflictOnOneAsset(sessions: nat, events: seq<Event>, i: nat)
    requires AllowedRun(sessions, events) && OneAssetPerKey(events) && i < |Run(sessions, events).sessions|
    ensures Run(sessions, events).sessions[i] != Idle(Conflict)
    decreases |events|
  {
    if events == [] {
    } else {
      hide Begun, Ok, Traced, Sensible;
      var front, e := events[..|events| - 1], events[|events| - 1];
      assert events == front + [e];
      OneAssetBefore(front, e);
      var w := Run(sessions, front);
      NoConflictOnOneAsset(sessions, front, i);
      if e == Insert(i) && w.sessions[i].Searched? && KeyFree(w, w.sessions[i].debit.key) {
        InsertAbortsExactly(sessions, front, i);
        SearchedBegun(sessions, front, i);
      }
    }
  }

  lemma SearchedBegun(sessions: nat, events: seq<Event>, i: nat)
    requires AllowedRun(sessions, events) && i < |Run(sessions, events).sessions|
    ensures !Run(sessions, events).sessions[i].Idle? ==> Begun(events, Run(sessions, events).sessions[i].debit)
  {
    RunTraced(sessions, events);
  }

  lemma OneAssetBefore(events: seq<Event>, e: Event)
    requires OneAssetPerKey(events + [e])
    ensures OneAssetPerKey(events)
  {
    forall r, d | Begun(events, r) && Begun(events, d) && r.key == d.key
      ensures r.asset == d.asset
    {
      BegunLonger(events, e, r);
      BegunLonger(events, e, d);
    }
  }

  // A run that aborts: one client key for two transfers of different assets, both past their search.

  const FIRST := Debit(0, 0, 1, Wallet(1, 0), TransferOutType, Keys.TransferKey(0, "key"), TransferRef(0, 1))
  const SECOND := Debit(0, 1, 1, Wallet(1, 1), TransferOutType, Keys.TransferKey(0, "key"), TransferRef(0, 1))

  /** A worker credits the user with one unit of each asset. */
  const FUNDING := LedgerTx(DepositType, Keys.DepositCredit(0, 0), DepositRef(0),
    [Entry(System(DepositsInTransit, 0), 0, -1), Entry(Wallet(0, 0), 0, 1),
     Entry(System(DepositsInTransit, 1), 1, -1), Entry(Wallet(0, 1), 1, 1)])

  const RACE := [Worker(FUNDING), Begin(0, FIRST), Begin(1, SECOND), Lock(0), Lock(1), Read(0), Read(1),
                 Search(0), Search(1), Insert(0), Commit(0), Insert(1)]

  lemma RunStep(sessions: nat, events: seq<Event>, k: nat)
    requires k < |events| && AllowedRun(sessions, events[..k]) && Allowed(Run(sessions, events[..k]), events[k])
    ensures AllowedRun(sessions, events[..k + 1])
    ensures Run(sessions, events[..k + 1]) == Next(Run(sessions, events[..k]), events[k])
  {
    assert events[..k + 1][..k] == events[..k];
  }

  lemma Funded()
    ensures Ledger.AvailableBalance([FUNDING], 0, 0) == 1 && Ledger.AvailableBalance([FUNDING], 0, 1) == 1
  {
    forall a: nat | a < 2
      ensures Ledger.AvailableBalance([FUNDING], 0, a) == 1
    {
      var scope := Ledger.OneAccount(Wallet(0, a));
      var es := FUNDING.entries;
      assert [] + [FUNDING] == [FUNDING];
      Ledger.TotalAppend([], FUNDING, scope);
      assert es[..3][..2] == es[..2] && es[..3][..2][..1] == es[..1] && es[..1][..0] == [];
      assert SumBy(es[..1], Ledger.EntryIn(scope)) == 0;
      assert SumBy(es[..2], Ledger.EntryIn(scope)) == if a == 0 then 1 else 0;
      assert SumBy(es[..3], Ledger.EntryIn(scope)) == if a == 0 then 1 else 0;
    }
  }

  /** One more step of the race: from world `w` to world `v`. */
  ghost predicate RaceAt(k: nat, w: World) {
    k <= |RACE| && AllowedRun(2, RACE[..k]) && Run(2, RACE[..k]) == w
  }

  lemma RaceStep(k: nat, w: World, e: Event, v: World)
    requires RaceAt(k, w) && k < |RACE| && RACE[k] == e && Allowed(w, e) && Next(w, e) == v
    ensures RaceAt(k + 1, v)
  {
    hide Next, Allowed;
    RunStep(2, RACE, k);
  }

  lemma RaceStarts()
    ensures RaceAt(0, World([], [Idle(NotStarted), Idle(NotStarted)]))
  {
    assert RACE[..0] == [];
  }

  lemma RaceOpens()
    ensures RaceAt(3, World([FUNDING], [Started(FIRST), Started(SECOND)]))
  {
    hide RaceAt;
    var idle := Idle(NotStarted);
    RaceStarts();
    RaceStep(0, World([], [idle, idle]), Worker(FUNDING), World([FUNDING], [idle, idle]));
    RaceStep(1, World([FUNDING], [idle, idle]), Begin(0, FIRST), World([FUNDING], [Started(FIRST), idle]));
    RaceStep(2, World([FUNDING], [Started(FIRST), idle]), Begin(1, SECOND),
      World([FUNDING], [Started(FIRST), Started(SECOND)]));
  }

  lemma RaceReads()
    ensures RaceAt(7, World([FUNDING], [Checked(FIRST), Checked(SECOND)]))
  {
    hide RaceAt, Ledger.Total;
    RaceOpens();
    Funded();
    var w3 := World([FUNDING], [Started(FIRST), Started(SECOND)]);
    var w4 := World([FUNDING], [Locked(FIRST), Started(SECOND)]);
    var w5 := World([FUNDING], [Locked(FIRST), Locked(SECOND)]);
    var w6 := World([FUNDING], [Checked(FIRST), Locked(SECOND)]);
    RaceStep(3, w3, Lock(0), w4);
    RaceStep(4, w4, Lock(1), w5);
    RaceStep(5, w5, Read(0), w6);
    RaceStep(6, w6, Read(1), World([FUNDING], [Checked(FIRST), Checked(SECOND)]));
  }

  lemma RaceInserts()
    ensures RaceAt(10, World([FUNDING], [Inserted(FIRST), Searched(SECOND, 1)]))
  {
    hide RaceAt, Ledger.Total;
    RaceReads();
    var w7 := World([FUNDING], [Checked(FIRST), Checked(SECOND)]);
    var w8 := World([FUNDING], [Searched(FIRST, 1), Checked(SECOND)]);
    var w9 := World([FUNDING], [Searched(FIRST, 1), Searched(SECOND, 1)]);
    RaceStep(7, w7, Search(0), w8);
    RaceStep(8, w8, Search(1), w9);
    RaceStep(9, w9, Insert(0), World([FUNDING], [Inserted(FIRST), Searched(SECOND, 1)]));
  }

  /** Both transfers pass every check, one commits, and the other aborts on its key. */
  ghost predicate AbortedRun(sessions: nat, events: seq<Event>) {
    AllowedRun(sessions, events) && Run(sessions, events).sessions == [Idle(Committed), Idle(Conflict)]
  }

  /** It happens: the second transfer's insert aborts on the key that the first one committed. */
  lemma KeyReuseAborts()
    ensures exists sessions, events :: AbortedRun(sessions, events)
  {
    hide Ledger.Total, AllowedRun, Run;
    RaceInserts();
    var w10 := World([FUNDING], [Inserted(FIRST), Searched(SECOND, 1)]);
    var w11 := World([FUNDING, DebitTx(FIRST)], [Idle(Committed), Searched(SECOND, 1)]);
    var w12 := World([FUNDING, DebitTx(FIRST)], [Idle(Committed), Idle(Conflict)]);
    RaceStep(10, w10, Commit(0), w11);
    assert DebitTx(FIRST) in w11.txs;
    RaceStep(11, w11, Insert(1), w12);
    assert RACE[..12] == RACE;
    assert AbortedRun(2, RACE);
  }

  /** What the second search makes of a duplicate: a transfer to the same recipient, or anything else. */
  ghost predicate AnsweredAs(first: LedgerTx, r: Debit, d: Debit, after: Phase) {
    && Sensible(r) && Sensible(d) && first == DebitTx(r) && r.key == d.key
    && after == Idle(if d.key.TransferKey? && r.target.user == d.target.user then Replayed(first) else KeyRefused)
  }

  /**
   * The ordinary duplicate, serialised by the wallet lock, is found by `post`: a transfer is answered with
   * the first one exactly if it names the same recipient, and a withdrawal is always refused, since its
   * request row is new.
   */
  lemma DuplicateAtSearch(sessions: nat, events: seq<Event>, i: nat)
    requires AllowedRun(sessions, events) && i < |Run(sessions, events).sessions|
    requires Run(sessions, events).sessions[i].Checked?
      && Run(sessions, events).sessions[i].debit.key in Ledger.KeysOf(Run(sessions, events).txs)
    ensures var w := Run(sessions, events);
      var d := w.sessions[i].debit;
      exists r :: AnsweredAs(Ledger.Find(w.txs, d.key).value, r, d, Next(w, Search(i)).sessions[i])
  {
    RunTraced(sessions, events);
    DuplicateFound(Run(sessions, events), events, i);
  }

  lemma DuplicateFound(w: World, events: seq<Event>, i: nat)
    requires Ok(w) && Traced(w, events) && i < |w.sessions| && w.sessions[i].Checked?
    requires w.sessions[i].debit.key in Ledger.KeysOf(w.txs)
    ensures exists r :: AnsweredAs(Ledger.Find(w.txs, w.sessions[i].debit.key).value, r, w.sessions[i].debit,
      Next(w, Search(i)).sessions[i])
  {
    hide Begun, RivalsOnly;
    var d := w.sessions[i].debit;
    var first := Ledger.Find(w.txs, d.key).value;
    var k :| 0 <= k < |w.txs| && w.txs[k] == first;
    assert FromBegin(events, w.txs[k]) && Sensible(d);
    var r :| Begun(events, r) && Sensible(r) && first == DebitTx(r);
    assert d.key.WithdrawKey? ==> !SameWithdrawal(w.sessions[i], w.txs[k].ref);
    assert AnsweredAs(first, r, d, Next(w, Search(i)).sessions[i]);
  }

  // ---- the steps are those of the services and workers ---------------------------------------

  function TransferDebit(a: Payments.TransferArgs): Debit
    requires a.recipient.Some?
  {
    Debit(a.sender, a.asset, a.amount, Wallet(a.recipient.value, a.asset), TransferOutType,
      Keys.TransferKey(a.sender, a.client), TransferRef(a.sender, a.recipient.value))
  }

  function WithdrawDebit(a: Payments.WithdrawArgs, id: nat): Debit {
    Debit(a.user, a.asset, a.amount, System(WithdrawalsReserved, a.asset), WithdrawalType,
      Keys.WithdrawKey(a.user, a.client), WithdrawalRef(id))
  }

  /** One debit run from start to commit without interference. */
  function Alone(txs: seq<LedgerTx>, d: Debit): seq<LedgerTx> {
    Next(Next(Next(Next(Next(Next(World(txs, [Idle(NotStarted)]), Begin(0, d)), Lock(0)), Read(0)), Search(0)),
      Insert(0)), Commit(0)).txs
  }

  /** Undisturbed, the steps add up to `create_transfer`. */
  lemma AloneIsTransfer(txs: seq<LedgerTx>, a: Payments.TransferArgs)
    requires a.amount > 0 && a.recipient.Some? && a.recipient.value != a.sender && a.knownAsset
    requires Payments.WithinCap(a.amount, a.cap)
    ensures Sensible(TransferDebit(a))
    ensures Alone(txs, TransferDebit(a)) == Payments.Transfer(txs, a).0
  {
    var d := TransferDebit(a);
    AloneCases(txs, d);
    if d.key !in Ledger.KeysOf(txs) {
      Ledger.MovePosts(txs, TransferOutType, d.key, Wallet(a.sender, a.asset), d.target, a.asset, a.amount, d.ref);
    }
  }

  /** Undisturbed, the steps add up to the ledger side of `create_withdrawal`. */
  lemma AloneIsWithdrawal(desk: Payments.Desk, a: Payments.WithdrawArgs)
    requires !a.limited && a.amount > 0 && a.validAddress && a.knownAsset && Payments.WithinCap(a.amount, a.cap)
    ensures Sensible(WithdrawDebit(a, |desk.requests|))
    ensures Keys.WithdrawKey(a.user, a.client) !in Ledger.KeysOf(desk.txs) ==>
      Alone(desk.txs, WithdrawDebit(a, |desk.requests|)) == Payments.Withdraw(desk, a).0.txs
  {
    var d := WithdrawDebit(a, |desk.requests|);
    AloneCases(desk.txs, d);
    if d.key !in Ledger.KeysOf(desk.txs) {
      Ledger.MovePosts(desk.txs, WithdrawalType, d.key, Wallet(a.user, a.asset), d.target, a.asset, a.amount, d.ref);
    }
  }

  lemma AloneCases(txs: seq<LedgerTx>, d: Debit)
    ensures Alone(txs, d) ==
      if d.key in Ledger.KeysOf(txs) || Ledger.AvailableBalance(txs, d.user, d.asset) < d.amount then txs
      else txs + [DebitTx(d)]
  {
  }

  /** The watcher's credits and reversals and the withdrawer's refunds are worker postings. */
  lemma WorkersPostAllowed(txs: seq<LedgerTx>, i: nat, d: Deposit, r: Withdrawal)
    ensures d.user.Some? ==>
      WorkerPosting(DepositLedger.CreditTx(i, d)) && WorkerPosting(DepositLedger.ReversalTx(i, d))
    ensures Withdrawer.RefundOutcome(txs, i, r).Posted? ==> WorkerPosting(Withdrawer.RefundOutcome(txs, i, r).tx)
    ensures Withdrawer.SettleOutcome(txs, i, r).Posted? ==> WorkerPosting(Withdrawer.SettleOutcome(txs, i, r).tx)
  {
    if Withdrawer.RefundOutcome(txs, i, r).Posted? {
      Ledger.MovePosts(txs, ReversalType, Keys.WithdrawalReverse(i), System(WithdrawalsReserved, r.asset),
        Wallet(r.user, r.asset), r.asset, r.amount, WithdrawalRef(i));
    }
    if Withdrawer.SettleOutcome(txs, i, r).Posted? {
      Ledger.MovePosts(txs, WithdrawalType, Keys.WithdrawalSettle(i), System(WithdrawalsReserved, r.asset),
        System(WithdrawalsSettled, r.asset), r.asset, r.amount, WithdrawalRef(i));
    }
  }
}
