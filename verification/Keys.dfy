/**
 * The ledger's single global idempotency-key namespace. `Key` is the structured key the other
 * modules use; `KeyText` is the string the code stores, and `KeyTextInjective` shows that looking
 * keys up by text or by structure is the same thing.
 */
module Keys {
  import Decimals

  /** The text of a UUID primary key: 36 characters, none of them a colon. */
  type Uuid = s: string | |s| == 36 && ':' !in s witness seq(36, i => '0')

  datatype Key<Id> =
    | FaucetKey(user: Id, client: string)
    | TransferKey(user: Id, client: string)
    | WithdrawKey(user: Id, client: string)
    | DepositCredit(deposit: Id, revision: nat)
    | DepositReverse(deposit: Id, revision: nat)
    | WithdrawalSettle(request: Id)
    | WithdrawalReverse(request: Id)

  function ScopedKey(domain: string, user: Uuid, client: string): string {
    domain + ":" + user + ":" + client
  }

  function KeyText(k: Key<Uuid>): string {
    match k
    case FaucetKey(user, client) => ScopedKey("faucet", user, client)
    case TransferKey(user, client) => ScopedKey("transfer", user, client)
    case WithdrawKey(user, client) => ScopedKey("withdraw", user, client)
    case DepositCredit(deposit, revision) => "deposit-credit" + ":" + deposit + ":" + Decimals.Text(revision)
    case DepositReverse(deposit, revision) => "deposit-reverse" + ":" + deposit + ":" + Decimals.Text(revision)
    case WithdrawalSettle(request) => "withdrawal-settle" + ":" + request
    case WithdrawalReverse(request) => "withdrawal-reverse" + ":" + request
  }

  /** A colon-free head is determined by the whole text, whatever follows its colon. */
  lemma {:induction false} HeadUnique(p: string, q: string, x: string, y: string)
    requires ':' !in p && ':' !in q
    requires p + ":" + x == q + ":" + y
    ensures p == q && x == y
  {
    var s := p + ":" + x;
    assert s[|p|] == ':' && s[|q|] == ':';
    assert (forall k :: 0 <= k < |p| ==> s[k] == p[k]) && (forall k :: 0 <= k < |q| ==> s[k] == q[k]);
    assert |p| == |q|;
    assert p == s[..|p|] == s[..|q|] == q;
    assert x == s[|p| + 1..] == s[|q| + 1..] == y;
  }

  lemma UuidTail(u: Uuid, v: Uuid, x: string, y: string)
    requires u + x == v + y
    ensures u == v && x == y
  {
    assert u == (u + x)[..36] == (v + y)[..36] == v;
    assert x == (u + x)[36..] == (v + y)[36..] == y;
  }

  /** The scoped key determines (domain, user, client key), even when the client key holds ':'. */
  lemma ScopedKeyInjective(d1: string, u1: Uuid, c1: string, d2: string, u2: Uuid, c2: string)
    requires ':' !in d1 && ':' !in d2
    ensures ScopedKey(d1, u1, c1) == ScopedKey(d2, u2, c2) <==> (d1 == d2 && u1 == u2 && c1 == c2)
  {
    if ScopedKey(d1, u1, c1) == ScopedKey(d2, u2, c2) {
      assert ScopedKey(d1, u1, c1) == d1 + ":" + (u1 + (":" + c1));
      assert ScopedKey(d2, u2, c2) == d2 + ":" + (u2 + (":" + c2));
      HeadUnique(d1, d2, u1 + (":" + c1), u2 + (":" + c2));
      UuidTail(u1, u2, ":" + c1, ":" + c2);
      assert c1 == (":" + c1)[1..] == (":" + c2)[1..] == c2;
    }
  }

  /** The part of a key text before its first colon names the family ... */
  function Family(k: Key<Uuid>): (p: string)
    ensures ':' !in p
  {
    match k
    case FaucetKey(_, _) => "faucet"
    case TransferKey(_, _) => "transfer"
    case WithdrawKey(_, _) => "withdraw"
    case DepositCredit(_, _) => "deposit-credit"
    case DepositReverse(_, _) => "deposit-reverse"
    case WithdrawalSettle(_) => "withdrawal-settle"
    case WithdrawalReverse(_) => "withdrawal-reverse"
  }

  /** ... and the rest is the row or user id, optionally followed by a colon and a suffix. */
  function Suffix(k: Key<Uuid>): string {
    match k
    case FaucetKey(_, client) => ":" + client
    case TransferKey(_, client) => ":" + client
    case WithdrawKey(_, client) => ":" + client
    case DepositCredit(_, revision) => ":" + Decimals.Text(revision)
    case DepositReverse(_, revision) => ":" + Decimals.Text(revision)
    case WithdrawalSettle(_) => ""
    case WithdrawalReverse(_) => ""
  }

  function Owner(k: Key<Uuid>): Uuid {
    match k
    case FaucetKey(user, _) => user
    case TransferKey(user, _) => user
    case WithdrawKey(user, _) => user
    case DepositCredit(deposit, _) => deposit
    case DepositReverse(deposit, _) => deposit
    case WithdrawalSettle(request) => request
    case WithdrawalReverse(request) => request
  }

  lemma Regroup(p: string, u: string, t: string)
    ensures p + ":" + u + ":" + t == p + ":" + (u + (":" + t))
    ensures p + ":" + u == p + ":" + (u + "")
  {
  }

  lemma KeyTextParts(k: Key<Uuid>)
    ensures KeyText(k) == Family(k) + ":" + (Owner(k) + Suffix(k))
  {
    hide Decimals.Text;
    match k
    case FaucetKey(user, client) => Regroup("faucet", user, client);
    case TransferKey(user, client) => Regroup("transfer", user, client);
    case WithdrawKey(user, client) => Regroup("withdraw", user, client);
    case DepositCredit(row, revision) => Regroup("deposit-credit", row, Decimals.Text(revision));
    case DepositReverse(row, revision) => Regroup("deposit-reverse", row, Decimals.Text(revision));
    case WithdrawalSettle(row) => Regroup("withdrawal-settle", row, "");
    case WithdrawalReverse(row) => Regroup("withdrawal-reverse", row, "");
  }

  /** No two ledger operations ever share a key: every family is injective and all are disjoint. */
  lemma KeyTextInjective(j: Key<Uuid>, k: Key<Uuid>)
    ensures KeyText(j) == KeyText(k) <==> j == k
  {
    if KeyText(j) == KeyText(k) {
      KeyTextParts(j);
      KeyTextParts(k);
      HeadUnique(Family(j), Family(k), Owner(j) + Suffix(j), Owner(k) + Suffix(k));
      UuidTail(Owner(j), Owner(k), Suffix(j), Suffix(k));
      SameFamily(j, k);
      if Suffix(j) != "" {
        assert Suffix(j)[1..] == Suffix(k)[1..];
        if j.DepositCredit? || j.DepositReverse? {
          Decimals.TextInjective(j.revision, k.revision);
        }
      }
    }
  }

  lemma SameFamily(j: Key<Uuid>, k: Key<Uuid>)
    requires Family(j) == Family(k)
    ensures j.FaucetKey? == k.FaucetKey? && j.TransferKey? == k.TransferKey?
    ensures j.WithdrawKey? == k.WithdrawKey? && j.DepositCredit? == k.DepositCredit?
    ensures j.DepositReverse? == k.DepositReverse? && j.WithdrawalSettle? == k.WithdrawalSettle?
  {
    assert Family(j)[0] == Family(k)[0] && |Family(j)| == |Family(k)|;
  }
}
