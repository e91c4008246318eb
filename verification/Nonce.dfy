/**
 * The hot-wallet nonce counter shared by the fungible withdrawer, the NFT minter, the NFT withdrawer
 * and the sweeper's gas funding: one row per chain, reconciled to the chain and locked until commit.
 */
module Nonce {
  import opened Wrappers
  import opened Tables

  /** The row `nonce_row` hands out: created, reset to a new address, or raised to the chain. */
  function Reconciled(row: Option<HotWalletNonce>, address: string, chainNonce: nat): HotWalletNonce {
    if row.None? || row.value.address != address then HotWalletNonce(address, chainNonce)
    else HotWalletNonce(address, Max(row.value.nextNonce, chainNonce))
  }

  method NonceRow(session: Session, address: string, chainNonce: nat) returns (row: HotWalletNonce)
    modifies session`hotNonce
    ensures row == Reconciled(old(session.hotNonce), address, chainNonce)
    ensures session.hotNonce == Some(row)
  {
    if session.hotNonce.None? {
      row := HotWalletNonce(address, chainNonce);
    } else {
      row := session.hotNonce.value;
      if row.address != address {
        row := row.(address := address);
        row := row.(nextNonce := chainNonce);
      } else {
        row := row.(nextNonce := Max(row.nextNonce, chainNonce));
      }
    }
    session.hotNonce := Some(row);
  }

  // ---- interleaved transactions -------------------------------------------------------------

  /** Where one worker's database transaction stands. */
  datatype Worker =
    | Idle
    | NoRow                                                  // SELECT ... FOR UPDATE found nothing to lock
    | Inserting(seen: nat)                                   // no row found; chain nonce read
    | Locked                                                 // holds the row lock; chain nonce not read yet
    | Allocating(next: nat, mine: seq<nat>, seen: nat)       // holds the lock; reconciled with `seen`

  predicate Holds(w: Worker) {
    w.Locked? || w.Allocating?
  }

  /** A nonce of an address. */
  datatype Issue = Issue(address: string, nonce: nat)

  /**
   * `address` is the configured hot wallet. `row`, `issued` and `observed` are committed: the counter,
   * the nonces of committed outbox rows, and the chain nonces that committed transactions reconciled with.
   */
  datatype World = World(
    address: string, row: Option<HotWalletNonce>, lock: Option<nat>, workers: seq<Worker>,
    issued: seq<Issue>, observed: seq<Issue>)

  datatype Event =
    | Select(worker: nat)
    | ReadChain(worker: nat, chainNonce: nat)
    | Insert(worker: nat)
    | Sign(worker: nat)
    | FailToSign(worker: nat)
    | Commit(worker: nat)
    | Abort(worker: nat)
    | Rotate(address: string)      // restart with another hot wallet; open transactions roll back

  function Set(w: World, i: nat, state: Worker, lock: Option<nat>): World
    requires i < |w.workers|
  {
    w.(workers := w.workers[i := state], lock := lock)
  }

  function Issues(address: string, nonces: seq<nat>): seq<Issue> {
    seq(|nonces|, k requires 0 <= k < |nonces| => Issue(address, nonces[k]))
  }

  /** A step that has to wait for a lock, or that the worker is not ready for, changes nothing. */
  function Next(w: World, e: Event): World {
    if e.Rotate? then w.(address := e.address, lock := None, workers := seq(|w.workers|, i => Idle))
    else if e.worker >= |w.workers| then w
    else
      var i, me := e.worker, w.workers[e.worker];
      match e
      case Select(_) =>
        if !me.Idle? then w
        else if w.row.None? then Set(w, i, NoRow, w.lock)
        else if w.lock.Some? then w
        else Set(w, i, Locked, Some(i))
      case ReadChain(_, p) =>
        if me.NoRow? then Set(w, i, Inserting(p), w.lock)
        else if me.Locked? then Set(w, i, Allocating(Reconciled(w.row, w.address, p).nextNonce, [], p), w.lock)
        else w
      case Insert(_) =>
        // The unique key makes the insert wait for a rival's; if the rival committed, the savepoint
        // rolls back and the winner's row is locked and reconciled instead.
        if !me.Inserting? || w.lock.Some? then w
        else Set(w, i, Allocating(Reconciled(w.row, w.address, me.seen).nextNonce, [], me.seen), Some(i))
      case Sign(_) =>
        if me.Allocating? then Set(w, i, Allocating(me.next + 1, me.mine + [me.next], me.seen), w.lock) else w
      case FailToSign(_) => w
      case Commit(_) =>
        if !me.Allocating? then w
        else Set(w, i, Idle, None).(
          row := Some(HotWalletNonce(w.address, me.next)),
          issued := w.issued + Issues(w.address, me.mine),
          observed := w.observed + [Issue(w.address, me.seen)])
      case Abort(_) => Set(w, i, Idle, if Holds(me) then None else w.lock)
  }

  function Start(workers: nat, address: string): World {
    World(address, None, None, seq(workers, i => Idle), [], [])
  }

  function Run(workers: nat, address: string, events: seq<Event>): World {
    if events == [] then Start(workers, address)
    else Next(Run(workers, address, events[..|events| - 1]), events[|events| - 1])
  }

  // ---- returning to an old address ----------------------------------------------------------

  /** One past the highest nonce issued at the address. */
  function HighWater(issued: seq<Issue>, address: string): (h: nat)
    ensures forall k :: 0 <= k < |issued| && issued[k].address == address ==> issued[k].nonce < h
    ensures h > 0 ==> Issue(address, h - 1) in issued
  {
    if issued == [] then 0 else
      var last := issued[|issued| - 1];
      var front := HighWater(issued[..|issued| - 1], address);
      assert issued == issued[..|issued| - 1] + [last];
      if last.address == address && last.nonce >= front then last.nonce + 1 else front
  }

  /** A commit that changes the counter's address has seen a chain nonce past everything issued there. */
  predicate CaughtUp(w: World, e: Event) {
    e.Commit? && e.worker < |w.workers| && w.workers[e.worker].Allocating? && w.row.Some?
      && w.row.value.address != w.address ==>
      w.workers[e.worker].seen >= HighWater(w.issued, w.address)
  }

  predicate SafeRun(workers: nat, address: string, events: seq<Event>) {
    events == [] ||
    (SafeRun(workers, address, events[..|events| - 1]) &&
     CaughtUp(Run(workers, address, events[..|events| - 1]), events[|events| - 1]))
  }

  /** Without rotation there is nothing to catch up with. */
  lemma {:induction false} FixedAddressIsSafe(workers: nat, address: string, events: seq<Event>)
    requires forall k :: 0 <= k < |events| ==> !events[k].Rotate?
    ensures SafeRun(workers, address, events)
    ensures var w := Run(workers, address, events);
      w.address == address && (w.row.Some? ==> w.row.value.address == address)
    decreases |events|
  {
    if events == [] {
    } else {
      FixedAddressIsSafe(workers, address, events[..|events| - 1]);
    }
  }

  // ---- what every interleaving keeps --------------------------------------------------------

  predicate Distinct(s: seq<Issue>) {
    forall i, j :: 0 <= i < j < |s| ==> s[i] != s[j]
  }

  ghost predicate Explained(w: World, address: string, n: nat) {
    Issue(address, n) in w.issued || exists p :: Issue(address, p) in w.observed && n < p
  }

  /** The committed facts: no collision, all below the counter, and every gap has a chain witness. */
  ghost predicate Committed(w: World) {
    && Distinct(w.issued)
    && (w.row.None? ==> w.issued == [])
    && (w.row.Some? ==>
          && HighWater(w.issued, w.row.value.address) <= w.row.value.nextNonce
          && (forall n: nat :: n < w.row.value.nextNonce ==> Explained(w, w.row.value.address, n)))
  }

  /** The lock holder's private allocations continue the reconciled counter without a hole. */
  ghost predicate Private(w: World) {
    && (forall i :: 0 <= i < |w.workers| && Holds(w.workers[i]) ==> w.lock == Some(i))
    && (forall i :: 0 <= i < |w.workers| && w.workers[i].Locked? ==> w.row.Some?)
    && (forall i :: 0 <= i < |w.workers| && w.workers[i].Allocating? ==>
          var me := w.workers[i];
          me.next == Reconciled(w.row, w.address, me.seen).nextNonce + |me.mine| &&
          forall k :: 0 <= k < |me.mine| ==> me.mine[k] == Reconciled(w.row, w.address, me.seen).nextNonce + k)
  }

  /** Consecutive nonces from `base` past the high-water mark. */
  lemma IssueMore(issued: seq<Issue>, address: string, nonces: seq<nat>, base: nat)
    requires Distinct(issued) && base >= HighWater(issued, address)
    requires forall k :: 0 <= k < |nonces| ==> nonces[k] == base + k
    ensures var after := issued + Issues(address, nonces);
      Distinct(after) && HighWater(after, address) <= base + |nonces|
  {
    var after := issued + Issues(address, nonces);
    var h := HighWater(after, address);
    if h > 0 {
      var k :| 0 <= k < |after| && after[k] == Issue(address, h - 1);
    }
  }

  lemma CommitKeepsCommitted(w: World, i: nat)
    requires Committed(w) && Private(w) && i < |w.workers| && w.workers[i].Allocating? && CaughtUp(w, Commit(i))
    ensures Committed(Next(w, Commit(i)))
  {
    var me, w' := w.workers[i], Next(w, Commit(i));
    var base := Reconciled(w.row, w.address, me.seen).nextNonce;
    IssueMore(w.issued, w.address, me.mine, base);
    forall n: nat | n < me.next
      ensures Explained(w', w.address, n)
    {
      if n >= base {
        assert Issues(w.address, me.mine)[n - base] == Issue(w.address, n);
        assert Issue(w.address, n) in w'.issued;
      } else if w.row.Some? && w.row.value.address == w.address && n < w.row.value.nextNonce {
        assert Explained(w, w.address, n);
        if Issue(w.address, n) !in w.issued {
          var p :| Issue(w.address, p) in w.observed && n < p;
          assert Issue(w.address, p) in w'.observed;
        }
      } else {
        assert Issue(w.address, me.seen) in w'.observed && n < me.seen;
      }
    }
  }

  lemma CommitKeepsPrivate(w: World, i: nat)
    requires Private(w) && i < |w.workers| && w.workers[i].Allocating?
    ensures Private(Next(w, Commit(i)))
  {
    assert forall j :: 0 <= j < |w.workers| && j != i ==> !Holds(w.workers[j]);
  }

  lemma NextKeepsPrivate(w: World, e: Event)
    requires Private(w)
    ensures Private(Next(w, e))
  {
    if e.Commit? && e.worker < |w.workers| && w.workers[e.worker].Allocating? {
      CommitKeepsPrivate(w, e.worker);
    } else if !e.Rotate? && e.worker < |w.workers| && Holds(w.workers[e.worker]) {
      assert forall j :: 0 <= j < |w.workers| && j != e.worker ==> !Holds(w.workers[j]);
    }
  }

  lemma NextKeeps(w: World, e: Event)
    requires Committed(w) && Private(w) && CaughtUp(w, e)
    ensures Committed(Next(w, e)) && Private(Next(w, e))
  {
    NextKeepsPrivate(w, e);
    if e.Commit? && e.worker < |w.workers| && w.workers[e.worker].Allocating? {
      CommitKeepsCommitted(w, e.worker);
    } else {
      assert forall a, n: nat :: Explained(w, a, n) ==> Explained(Next(w, e), a, n);
    }
  }

  /**
   * Over any interleaving of any number of workers, first-row race and rotations included, as long as
   * every return to an address has caught up with it: committed nonces are pairwise distinct per address
   * and below the counter, and every skipped number was below a chain nonce that a committed transaction
   * observed. Without rotations that proviso is void.
   */
  lemma {:induction false} NoncesNeverCollideOrLeak(workers: nat, address: string, events: seq<Event>)
    requires SafeRun(workers, address, events)
    ensures Committed(Run(workers, address, events)) && Private(Run(workers, address, events))
    decreases |events|
  {
    if events == [] {
    } else {
      NoncesNeverCollideOrLeak(workers, address, events[..|events| - 1]);
      NextKeeps(Run(workers, address, events[..|events| - 1]), events[|events| - 1]);
    }
  }

  // ---- one transaction ----------------------------------------------------------------------

  /**
   * The counter moved from `row` to `after` by handing out exactly `nonces`, one after the other from where it
   * stood, or from the chain's nonce if that is further on or the counter is for another address.
   */
  ghost predicate Drew(row: Option<HotWalletNonce>, after: Option<HotWalletNonce>, nonces: seq<nat>, address: string,
                       chainNonce: nat) {
    var base :=
      if row.Some? && row.value.address == address && row.value.nextNonce > chainNonce then row.value.nextNonce
      else chainNonce;
    after == Some(HotWalletNonce(address, base + |nonces|)) && forall k :: 0 <= k < |nonces| ==> nonces[k] == base + k
  }

  /** Drawing the next nonce, or none, after having drawn `nonces`. */
  lemma DrewMore(row: Option<HotWalletNonce>, mid: Option<HotWalletNonce>, after: Option<HotWalletNonce>,
                 nonces: seq<nat>, more: seq<nat>, address: string, chainNonce: nat)
    requires Drew(row, mid, nonces, address, chainNonce)
    requires more == [] || more == [mid.value.nextNonce]
    requires after == Some(mid.value.(nextNonce := mid.value.nextNonce + |more|))
    ensures Drew(row, after, nonces + more, address, chainNonce)
  {
  }

  /** Worker `i` takes the lock, or wins or loses the first-row race, and reads the chain. */
  function Opened(w: World, i: nat, p: nat): World {
    Next(Next(Next(w, Select(i)), ReadChain(i, p)), Insert(i))
  }

  function Signing(w: World, i: nat, n: nat): World {
    if n == 0 then w else Next(Signing(w, i, n - 1), Sign(i))
  }

  /** A whole transaction with `n` signatures and no interference. */
  function Played(w: World, i: nat, p: nat, n: nat): World {
    Next(Signing(Opened(w, i, p), i, n), Commit(i))
  }

  lemma {:induction false} SigningCounts(w: World, i: nat, n: nat)
    requires i < |w.workers| && w.workers[i].Allocating?
    ensures var me, after := w.workers[i], Signing(w, i, n);
      after == w.(workers := w.workers[i := Allocating(me.next + n,
        me.mine + seq(n, k requires 0 <= k => me.next + k), me.seen)])
  {
    if n > 0 {
      SigningCounts(w, i, n - 1);
      var me := w.workers[i];
      assert me.mine + seq(n, k requires 0 <= k => me.next + k) ==
        me.mine + seq(n - 1, k requires 0 <= k => me.next + k) + [me.next + n - 1];
    } else {
      var me := w.workers[i];
      assert me.mine + seq(0, k requires 0 <= k => me.next + k) == me.mine;
      assert w.workers[i := me] == w.workers;
    }
  }

  lemma OpenedAllocates(w: World, i: nat, p: nat)
    requires i < |w.workers| && w.workers[i].Idle? && w.lock.None?
    ensures var base := Reconciled(w.row, w.address, p).nextNonce;
      Opened(w, i, p) == w.(workers := w.workers[i := Allocating(base, [], p)], lock := Some(i))
  {
  }

  /** Undisturbed, a transaction draws the next `n` nonces. */
  lemma PlayedDraws(w: World, i: nat, p: nat, n: nat)
    requires i < |w.workers| && w.workers[i].Idle? && w.lock.None?
    ensures var base := Reconciled(w.row, w.address, p).nextNonce;
      var nonces := seq(n, k requires 0 <= k => base + k);
      && Played(w, i, p, n).issued == w.issued + Issues(w.address, nonces)
      && Drew(w.row, Played(w, i, p, n).row, nonces, w.address, p)
  {
    OpenedAllocates(w, i, p);
    SigningCounts(Opened(w, i, p), i, n);
    var base := Reconciled(w.row, w.address, p).nextNonce;
    assert [] + seq(n, k requires 0 <= k => base + k) == seq(n, k requires 0 <= k => base + k);
  }

  /** What any interleaving commits is what the transaction, played alone on the same row, draws. */
  lemma CommitDraws(w: World, i: nat)
    requires Private(w) && i < |w.workers| && w.workers[i].Allocating?
    ensures var me, after := w.workers[i], Next(w, Commit(i));
      && after.issued == w.issued + Issues(w.address, me.mine)
      && Drew(w.row, after.row, me.mine, w.address, me.seen)
  {
  }

  // ---- exactly when a return is safe --------------------------------------------------------

  /**
   * The first transaction after returning to an old address keeps nonces distinct, however many it signs,
   * exactly if the chain nonce it reads is past everything issued at that address.
   */
  lemma ReturnSafeExactly(w: World, i: nat, p: nat)
    requires Distinct(w.issued) && i < |w.workers| && w.workers[i].Idle? && w.lock.None?
    requires w.row.Some? && w.row.value.address != w.address
    ensures (forall n: nat :: Distinct(Played(w, i, p, n).issued)) <==> p >= HighWater(w.issued, w.address)
  {
    var h := HighWater(w.issued, w.address);
    if p >= h {
      forall n: nat
        ensures Distinct(Played(w, i, p, n).issued)
      {
        PlayedDraws(w, i, p, n);
        IssueMore(w.issued, w.address, seq(n, k requires 0 <= k => p + k), p);
      }
    } else {
      PlayedDraws(w, i, p, h - p);
      var after := Played(w, i, p, h - p).issued;
      var k :| 0 <= k < |w.issued| && w.issued[k] == Issue(w.address, h - 1);
      assert after[k] == after[|w.issued| + h - p - 1] == Issue(w.address, h - 1);
    }
  }

  /** A worker's transaction as a list of events. */
  function Transaction(p: nat): seq<Event> {
    [Select(0), ReadChain(0, p), Insert(0), Sign(0), Commit(0)]
  }

  lemma {:induction false} RunTransaction(events: seq<Event>, p: nat)
    ensures Run(1, "A", events + Transaction(p)) == Played(Run(1, "A", events), 0, p, 1)
  {
    var a, t := events, Transaction(p);
    var w := Run(1, "A", a);
    assert a + t[..1] == a + [t[0]] && a + t[..2] == a + t[..1] + [t[1]] && a + t[..3] == a + t[..2] + [t[2]];
    assert a + t[..4] == a + t[..3] + [t[3]] && a + t == a + t[..4] + [t[4]];
    RunOne(a, t[0]);
    RunOne(a + t[..1], t[1]);
    RunOne(a + t[..2], t[2]);
    RunOne(a + t[..3], t[3]);
    RunOne(a + t[..4], t[4]);
    assert Signing(Opened(w, 0, p), 0, 0) == Opened(w, 0, p);
    assert Signing(Opened(w, 0, p), 0, 1) == Next(Opened(w, 0, p), Sign(0));
  }

  lemma RunOne(events: seq<Event>, e: Event)
    ensures Run(1, "A", events + [e]) == Next(Run(1, "A", events), e)
  {
    assert (events + [e])[..|events|] == events;
  }

  /** A to B and back while the chain still reports nonce 0 for A: nonce 0 of A is issued twice. */
  lemma RotationCollides()
    ensures exists events :: !Distinct(Run(1, "A", events).issued)
  {
    hide Next, Run, Played, Opened, Signing;
    var first := [] + Transaction(0);
    var second := first + [Rotate("B")] + Transaction(5);
    var third := second + [Rotate("A")] + Transaction(0);
    StartsIdle();
    RunTransaction([], 0);
    AfterPlayed(Run(1, "A", []), 0);
    RunOne(first, Rotate("B"));
    Rotated(Run(1, "A", first), "B");
    RunTransaction(first + [Rotate("B")], 5);
    AfterPlayed(Run(1, "A", first + [Rotate("B")]), 5);
    RunOne(second, Rotate("A"));
    Rotated(Run(1, "A", second), "A");
    RunTransaction(second + [Rotate("A")], 0);
    AfterPlayed(Run(1, "A", second + [Rotate("A")]), 0);
    var issued := Run(1, "A", third).issued;
    assert issued[0] == issued[2] == Issue("A", 0);
  }

  lemma StartsIdle()
    ensures Run(1, "A", []) == World("A", None, None, [Idle], [], [])
  {
  }

  lemma Rotated(w: World, address: string)
    requires |w.workers| == 1
    ensures Next(w, Rotate(address)) == w.(address := address, lock := None, workers := [Idle])
  {
  }

  lemma AfterPlayed(w: World, p: nat)
    requires w.workers == [Idle] && w.lock.None?
    ensures var base, after := Reconciled(w.row, w.address, p).nextNonce, Played(w, 0, p, 1);
      && after.workers == [Idle] && after.lock.None? && after.address == w.address
      && after.issued == w.issued + [Issue(w.address, base)]
      && after.row == Some(HotWalletNonce(w.address, base + 1))
  {
    OpenedAllocates(w, 0, p);
    SigningCounts(Opened(w, 0, p), 0, 1);
  }
}
