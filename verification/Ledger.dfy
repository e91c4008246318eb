/** The double-entry ledger: `Post` is the only way entries come into existence. */
module Ledger {
  import opened Wrappers
  import opened Sums
  import opened Tables

  datatype Leg = Leg(account: Account, asset: nat, amount: int)

  datatype LedgerError = NoLegs | AssetMismatch | Unbalanced | KeyReused

  /** A transaction of the workers: it aborts when the ledger refuses a posting. */
  type Step<+T> = Attempt<T, LedgerError>

  /** A method reported `error` and left the tables as `now`: that is what the step `result` says. */
  predicate Reached<T(==)>(error: Option<LedgerError>, now: T, result: Step<T>) {
    match error
    case None => result == Done(now)
    case Some(e) => result == Aborted(e)
  }

  /** What `Post` does with a request: append a transaction, answer with an old one, or refuse. */
  datatype Posting =
    | Posted(tx: LedgerTx)
    | Replayed(existing: LedgerTx)
    | Refused(error: LedgerError)

  // ---- balances -----------------------------------------------------------------------------

  /** Which entries a balance adds up. */
  datatype Scope =
    | OneAccount(account: Account)
    | AllWallets(asset: nat)
    | WalletsBelow(asset: nat, users: nat)
    | Everything(asset: nat)

  predicate Covers(scope: Scope, e: Entry) {
    match scope
    case OneAccount(account) => e.account == account && e.asset == account.asset
    case AllWallets(asset) => e.account.Wallet? && e.account.asset == asset && e.asset == asset
    case WalletsBelow(asset, users) =>
      e.account.Wallet? && e.account.user < users && e.account.asset == asset && e.asset == asset
    case Everything(asset) => e.asset == asset
  }

  function EntryIn(scope: Scope): Entry -> int {
    (e: Entry) => if Covers(scope, e) then e.amount else 0
  }

  function TxIn(scope: Scope): LedgerTx -> int {
    (t: LedgerTx) => SumBy(t.entries, EntryIn(scope))
  }

  function Total(txs: seq<LedgerTx>, scope: Scope): int {
    SumBy(txs, TxIn(scope))
  }

  function AvailableBalance(txs: seq<LedgerTx>, user: nat, asset: nat): int {
    Total(txs, OneAccount(Wallet(user, asset)))
  }

  function KeysOf(txs: seq<LedgerTx>): set<Key> {
    set t | t in txs :: t.key
  }

  // ---- posting ------------------------------------------------------------------------------

  function LegIn(asset: nat): Leg -> int {
    (l: Leg) => if l.asset == asset then l.amount else 0
  }

  /** The check of `_validate_legs`, stated on the whole list of legs. */
  function LegsError(legs: seq<Leg>): Option<LedgerError> {
    if legs == [] then Some(NoLegs)
    else if exists l :: l in legs && l.account.asset != l.asset then Some(AssetMismatch)
    else if exists l :: l in legs && SumBy(legs, LegIn(l.asset)) != 0 then Some(Unbalanced)
    else None
  }

  function Find(txs: seq<LedgerTx>, key: Key): (r: Option<LedgerTx>)
    ensures r.None? <==> key !in KeysOf(txs)
    ensures r.Some? ==> r.value in txs && r.value.key == key
  {
    if txs == [] then None
    else if txs[|txs| - 1].key == key then Some(txs[|txs| - 1])
    else
      assert txs == txs[..|txs| - 1] + [txs[|txs| - 1]];
      Find(txs[..|txs| - 1], key)
  }

  function EntriesOf(legs: seq<Leg>): seq<Entry> {
    if legs == [] then [] else
      var l := legs[|legs| - 1];
      EntriesOf(legs[..|legs| - 1]) + [Entry(l.account, l.asset, l.amount)]
  }

  function Outcome(txs: seq<LedgerTx>, kind: EntryType, key: Key, legs: seq<Leg>, ref: Ref): Posting {
    match Find(txs, key)
    case Some(existing) => if existing.ref == ref then Replayed(existing) else Refused(KeyReused)
    case None =>
      match LegsError(legs)
      case Some(e) => Refused(e)
      case None => Posted(LedgerTx(kind, key, ref, EntriesOf(legs)))
  }

  function After(txs: seq<LedgerTx>, p: Posting): seq<LedgerTx> {
    if p.Posted? then txs + [p.tx] else txs
  }

  /** The two-leg movement every caller posts: `amount` out of `source` and into `target`. */
  function Move(source: Account, target: Account, asset: nat, amount: int): seq<Leg> {
    [Leg(source, asset, -amount), Leg(target, asset, amount)]
  }

  // ---- the service methods ------------------------------------------------------------------

  /** The running totals per asset of the first `i` legs. */
  ghost predicate Totals(legs: seq<Leg>, i: nat, totals: map<nat, int>)
    requires i <= |legs|
  {
    && (forall a :: a in totals <==> exists k :: 0 <= k < i && legs[k].asset == a)
    && (forall a :: a in totals ==> totals[a] == SumBy(legs[..i], LegIn(a)))
  }

  lemma TotalsStep(legs: seq<Leg>, i: nat, totals: map<nat, int>, before: int)
    requires i < |legs| && Totals(legs, i, totals)
    requires before == if legs[i].asset in totals then totals[legs[i].asset] else 0
    ensures Totals(legs, i + 1, totals[legs[i].asset := before + legs[i].amount])
  {
    var leg := legs[i];
    assert legs[..i + 1] == legs[..i] + [leg];
    if leg.asset !in totals {
      SumByZero(legs[..i], LegIn(leg.asset));
    }
    forall a: nat {
      SumByAppend(legs[..i], leg, LegIn(a));
    }
  }

  /** Once all legs are added: they are unbalanced exactly if some total is not zero. */
  lemma TotalsDecide(legs: seq<Leg>, totals: map<nat, int>)
    requires Totals(legs, |legs|, totals)
    ensures (exists a :: a in totals && totals[a] != 0) <==> exists l :: l in legs && SumBy(legs, LegIn(l.asset)) != 0
  {
    assert legs[..|legs|] == legs;
    if a :| a in totals && totals[a] != 0 {
      var k :| 0 <= k < |legs| && legs[k].asset == a;
      assert legs[k] in legs && SumBy(legs, LegIn(legs[k].asset)) != 0;
    }
    if l :| l in legs && SumBy(legs, LegIn(l.asset)) != 0 {
      assert l.asset in totals && totals[l.asset] != 0;
    }
  }

  function Nonzero(totals: map<nat, int>): map<nat, int> {
    map a | a in totals && totals[a] != 0 :: totals[a]
  }

  lemma TotalsStart(legs: seq<Leg>)
    ensures Totals(legs, 0, map[])
  {
  }

  lemma Mismatched(legs: seq<Leg>, i: nat)
    requires i < |legs| && legs[i].account.asset != legs[i].asset
    ensures LegsError(legs) == Some(AssetMismatch)
  {
    assert legs[i] in legs;
  }

  lemma Verdict(legs: seq<Leg>, totals: map<nat, int>)
    requires legs != [] && Totals(legs, |legs|, totals)
    requires forall k :: 0 <= k < |legs| ==> legs[k].account.asset == legs[k].asset
    ensures LegsError(legs) == if Nonzero(totals) != map[] then Some(Unbalanced) else None
  {
    hide SumBy, Totals;
    TotalsDecide(legs, totals);
    if a :| a in totals && totals[a] != 0 {
      assert a in Nonzero(totals);
    }
    if Nonzero(totals) != map[] {
      var a :| a in Nonzero(totals);
      assert a in totals && totals[a] != 0;
    }
  }

  method ValidateLegs(legs: seq<Leg>) returns (error: Option<LedgerError>)
    ensures error == LegsError(legs)
  {
    if legs == [] {
      return Some(NoLegs);
    }
    hide LegsError, Totals, Nonzero;
    var totals: map<nat, int> := map[];
    TotalsStart(legs);
    for i := 0 to |legs|
      invariant forall k :: 0 <= k < i ==> legs[k].account.asset == legs[k].asset
      invariant Totals(legs, i, totals)
    {
      var leg := legs[i];
      if leg.account.asset != leg.asset {
        Mismatched(legs, i);
        return Some(AssetMismatch);
      }
      var before := if leg.asset in totals then totals[leg.asset] else 0;
      TotalsStep(legs, i, totals, before);
      totals := totals[leg.asset := before + leg.amount];
    }
    Verdict(legs, totals);
    if Nonzero(totals) != map[] {
      return Some(Unbalanced);
    }
    return None;
  }

  method Post(session: Session, kind: EntryType, key: Key, legs: seq<Leg>, ref: Ref)
    returns (posting: Posting)
    modifies session`txs
    ensures posting == Outcome(old(session.txs), kind, key, legs, ref)
    ensures session.txs == After(old(session.txs), posting)
  {
    var existing := Find(session.txs, key);
    if existing.Some? {
      if existing.value.ref != ref {
        return Refused(KeyReused);
      }
      return Replayed(existing.value);
    }
    var error := ValidateLegs(legs);
    if error.Some? {
      return Refused(error.value);
    }
    var entries: seq<Entry> := [];
    for i := 0 to |legs|
      invariant entries == EntriesOf(legs[..i])
    {
      assert legs[..i + 1][..i] == legs[..i];
      entries := entries + [Entry(legs[i].account, legs[i].asset, legs[i].amount)];
    }
    assert legs[..|legs|] == legs;
    var tx := LedgerTx(kind, key, ref, entries);
    session.txs := session.txs + [tx];
    return Posted(tx);
  }

  // ---- what posting keeps -------------------------------------------------------------------

  ghost predicate ZeroSum(txs: seq<LedgerTx>) {
    forall t, a: nat :: t in txs ==> TxIn(Everything(a))(t) == 0
  }

  ghost predicate UniqueKeys(txs: seq<LedgerTx>) {
    forall i, j :: 0 <= i < j < |txs| ==> txs[i].key != txs[j].key
  }

  /** Every entry's asset is its account's asset, so a wallet's balance never mixes assets. */
  ghost predicate AssetsAgree(txs: seq<LedgerTx>) {
    forall t, e :: t in txs && e in t.entries ==> e.asset == e.account.asset
  }

  ghost predicate Sound(txs: seq<LedgerTx>) {
    ZeroSum(txs) && UniqueKeys(txs) && AssetsAgree(txs)
  }

  lemma KeysAppend(txs: seq<LedgerTx>, t: LedgerTx)
    ensures KeysOf(txs + [t]) == KeysOf(txs) + {t.key}
  {
    assert forall x :: x in txs + [t] <==> x in txs || x == t;
  }

  lemma TotalAppend(txs: seq<LedgerTx>, t: LedgerTx, scope: Scope)
    ensures Total(txs + [t], scope) == Total(txs, scope) + SumBy(t.entries, EntryIn(scope))
  {
    SumByAppend(txs, t, TxIn(scope));
  }

  lemma {:induction false} EntriesMatchLegs(legs: seq<Leg>, asset: nat)
    ensures SumBy(EntriesOf(legs), EntryIn(Everything(asset))) == SumBy(legs, LegIn(asset))
    ensures forall e :: e in EntriesOf(legs) ==>
      exists l :: l in legs && e == Entry(l.account, l.asset, l.amount)
    decreases |legs|
  {
    if legs == [] {
    } else {
      var front, l := legs[..|legs| - 1], legs[|legs| - 1];
      EntriesMatchLegs(front, asset);
      SumByAppend(EntriesOf(front), Entry(l.account, l.asset, l.amount), EntryIn(Everything(asset)));
    }
  }

  /** Accepted legs sum to zero in every asset, also in those no leg mentions. */
  lemma AcceptedLegsBalance(legs: seq<Leg>, asset: nat)
    requires LegsError(legs).None?
    ensures SumBy(legs, LegIn(asset)) == 0
  {
    if forall l :: l in legs ==> l.asset != asset {
      SumByZero(legs, LegIn(asset));
    }
  }

  /** One call of `Post` keeps the ledger sound, whatever it is asked to post. */
  lemma PostKeepsSound(txs: seq<LedgerTx>, kind: EntryType, key: Key, legs: seq<Leg>, ref: Ref)
    requires Sound(txs)
    ensures Sound(After(txs, Outcome(txs, kind, key, legs, ref)))
  {
    var p := Outcome(txs, kind, key, legs, ref);
    if p.Posted? {
      forall a: nat
        ensures TxIn(Everything(a))(p.tx) == 0
      {
        EntriesMatchLegs(legs, a);
        AcceptedLegsBalance(legs, a);
      }
      forall e | e in p.tx.entries
        ensures e.asset == e.account.asset
      {
        EntriesMatchLegs(legs, 0);
      }
    }
  }

  /** In a sound ledger every asset's entries, over all accounts, add up to zero. */
  lemma SoundTotalsZero(txs: seq<LedgerTx>, asset: nat)
    requires Sound(txs)
    ensures Total(txs, Everything(asset)) == 0
  {
    SumByZero(txs, TxIn(Everything(asset)));
  }

  datatype PostCall = PostCall(kind: EntryType, key: Key, legs: seq<Leg>, ref: Ref)

  function RunPosts(calls: seq<PostCall>): seq<LedgerTx> {
    if calls == [] then [] else
      var txs := RunPosts(calls[..|calls| - 1]);
      var c := calls[|calls| - 1];
      After(txs, Outcome(txs, c.kind, c.key, c.legs, c.ref))
  }

  /** Any history of calls: zero sum per asset, and one transaction per idempotency key. */
  lemma {:induction false} ReachableLedgerSound(calls: seq<PostCall>, asset: nat)
    ensures Sound(RunPosts(calls))
    ensures Total(RunPosts(calls), Everything(asset)) == 0
    decreases |calls|
  {
    if calls != [] {
      var txs, c := RunPosts(calls[..|calls| - 1]), calls[|calls| - 1];
      ReachableLedgerSound(calls[..|calls| - 1], asset);
      PostKeepsSound(txs, c.kind, c.key, c.legs, c.ref);
    }
    SoundTotalsZero(RunPosts(calls), asset);
  }

  /** Retrying an accepted call answers with the very transaction the first call created. */
  lemma RetryReplays(txs: seq<LedgerTx>, kind: EntryType, key: Key, legs: seq<Leg>, ref: Ref)
    requires Outcome(txs, kind, key, legs, ref).Posted?
    ensures var first := Outcome(txs, kind, key, legs, ref);
      Outcome(After(txs, first), kind, key, legs, ref) == Replayed(first.tx)
  {
    KeysAppend(txs, Outcome(txs, kind, key, legs, ref).tx);
  }

  /** Legs that a posting can take: some, each in its account's asset, adding up to nothing in every asset. */
  ghost predicate Balanced(legs: seq<Leg>) {
    && legs != [] && (forall k :: 0 <= k < |legs| ==> legs[k].account.asset == legs[k].asset)
    && forall a: nat :: SumBy(legs, LegIn(a)) == 0
  }

  lemma {:induction false} EntriesAreLegs(legs: seq<Leg>)
    ensures |EntriesOf(legs)| == |legs|
    ensures forall k :: 0 <= k < |legs| ==> EntriesOf(legs)[k] == Entry(legs[k].account, legs[k].asset, legs[k].amount)
    decreases |legs|
  {
    if legs == [] {
    } else {
      EntriesAreLegs(legs[..|legs| - 1]);
    }
  }

  lemma BalancedExactly(legs: seq<Leg>)
    ensures LegsError(legs).None? <==> Balanced(legs)
  {
    if LegsError(legs).None? {
      forall a: nat
        ensures SumBy(legs, LegIn(a)) == 0
      {
        AcceptedLegsBalance(legs, a);
      }
      assert forall k :: 0 <= k < |legs| ==> legs[k] in legs;
    }
  }

  /**
   * A posting under a fresh key is made exactly if its legs are balanced, with one entry for each leg; one
   * under a used key is answered with the transaction there is exactly if the reference is the same.
   */
  lemma PostDecided(txs: seq<LedgerTx>, kind: EntryType, key: Key, legs: seq<Leg>, ref: Ref)
    requires UniqueKeys(txs)
    ensures var p := Outcome(txs, kind, key, legs, ref);
      && (forall t :: t in txs && t.key == key ==> p == if t.ref == ref then Replayed(t) else Refused(KeyReused))
      && (key !in KeysOf(txs) ==>
            if Balanced(legs)
            then p.Posted? && p.tx == LedgerTx(kind, key, ref, p.tx.entries) && |p.tx.entries| == |legs|
                 && forall k :: 0 <= k < |legs| ==>
                      p.tx.entries[k] == Entry(legs[k].account, legs[k].asset, legs[k].amount)
            else p.Refused? && p.error != KeyReused)
  {
    hide LegsError, Balanced;
    BalancedExactly(legs);
    EntriesAreLegs(legs);
    LegsErrorKinds(legs);
    forall t | t in txs && t.key == key
      ensures Find(txs, key) == Some(t)
    {
      assert key in KeysOf(txs);
    }
  }

  lemma LegsErrorKinds(legs: seq<Leg>)
    ensures LegsError(legs) != Some(KeyReused)
  {
  }

  // ---- balances add up ----------------------------------------------------------------------

  function SumOfBalances(txs: seq<LedgerTx>, asset: nat, users: nat): int {
    if users == 0 then 0
    else SumOfBalances(txs, asset, users - 1) + AvailableBalance(txs, users - 1, asset)
  }

  /** The wallets total is the sum of the individual balances the API reports. */
  lemma WalletsTotalIsSumOfBalances(txs: seq<LedgerTx>, asset: nat, users: nat)
    requires forall t, e :: t in txs && e in t.entries && e.account.Wallet? ==> e.account.user < users
    ensures Total(txs, AllWallets(asset)) == SumOfBalances(txs, asset, users)
  {
    forall t | t in txs
      ensures TxIn(AllWallets(asset))(t) == TxIn(WalletsBelow(asset, users))(t)
    {
      SumByZero(t.entries, NoEntry());
      SumByPlus(t.entries, EntryIn(WalletsBelow(asset, users)), NoEntry(), EntryIn(AllWallets(asset)));
    }
    SumByZero(txs, NoTx());
    SumByPlus(txs, TxIn(WalletsBelow(asset, users)), NoTx(), TxIn(AllWallets(asset)));
    WalletsBelowIsSum(txs, asset, users);
  }

  function NoEntry(): Entry -> int { (e: Entry) => 0 }

  function NoTx(): LedgerTx -> int { (t: LedgerTx) => 0 }

  lemma {:induction false} WalletsBelowIsSum(txs: seq<LedgerTx>, asset: nat, users: nat)
    ensures Total(txs, WalletsBelow(asset, users)) == SumOfBalances(txs, asset, users)
    decreases users
  {
    if users == 0 {
      forall t | t in txs
        ensures TxIn(WalletsBelow(asset, 0))(t) == 0
      {
        SumByZero(t.entries, EntryIn(WalletsBelow(asset, 0)));
      }
      SumByZero(txs, TxIn(WalletsBelow(asset, 0)));
    } else {
      var below, one := WalletsBelow(asset, users - 1), OneAccount(Wallet(users - 1, asset));
      WalletsBelowIsSum(txs, asset, users - 1);
      forall t | t in txs
        ensures TxIn(WalletsBelow(asset, users))(t) == TxIn(below)(t) + TxIn(one)(t)
      {
        SumByPlus(t.entries, EntryIn(below), EntryIn(one), EntryIn(WalletsBelow(asset, users)));
      }
      SumByPlus(txs, TxIn(below), TxIn(one), TxIn(WalletsBelow(asset, users)));
    }
  }

  // ---- movements ----------------------------------------------------------------------------

  /** A fresh key and a two-leg movement inside one asset is always posted. */
  lemma MovePosts(txs: seq<LedgerTx>, kind: EntryType, key: Key, source: Account, target: Account,
                  asset: nat, amount: int, ref: Ref)
    requires key !in KeysOf(txs) && source.asset == asset && target.asset == asset
    ensures Outcome(txs, kind, key, Move(source, target, asset, amount), ref)
      == Posted(LedgerTx(kind, key, ref, MoveEntries(source, target, asset, amount)))
  {
    var legs := Move(source, target, asset, amount);
    MoveLegsBalance(source, target, asset, amount);
    assert legs[..1] == [legs[0]] && legs[..1][..0] == [];
    assert EntriesOf(legs[..1]) == [Entry(source, asset, -amount)];
  }

  lemma MoveLegsBalance(source: Account, target: Account, asset: nat, amount: int)
    requires source.asset == asset && target.asset == asset
    ensures LegsError(Move(source, target, asset, amount)).None?
  {
    var legs := Move(source, target, asset, amount);
    assert legs[..1] == [legs[0]] && legs[..1][..0] == [];
    assert SumBy(legs[..1], LegIn(asset)) == -amount;
    assert SumBy(legs, LegIn(asset)) == 0;
  }

  function MoveEntries(source: Account, target: Account, asset: nat, amount: int): seq<Entry> {
    [Entry(source, asset, -amount), Entry(target, asset, amount)]
  }

  lemma MoveTotal(source: Account, target: Account, asset: nat, amount: int, scope: Scope)
    ensures SumBy(MoveEntries(source, target, asset, amount), EntryIn(scope))
      == (if Covers(scope, Entry(source, asset, -amount)) then -amount else 0)
       + (if Covers(scope, Entry(target, asset, amount)) then amount else 0)
  {
    var es := MoveEntries(source, target, asset, amount);
    assert es[..1] == [es[0]] && es[..1][..0] == [];
    assert SumBy(es[..1], EntryIn(scope)) == EntryIn(scope)(es[0]);
  }
}
