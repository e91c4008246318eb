/** The two API operations that debit a wallet: `create_withdrawal` and `create_transfer`. */
module Payments {
  import opened Wrappers
  import opened Tables
  import Keys
  import Ledger

  datatype Denial =
    | RateLimited | NotPositive | BadAddress | UnknownAsset | OverCap | InsufficientFunds
    | NotFound | NoRecipient | ToYourself

  // ---- withdrawals --------------------------------------------------------------------------

  /** A request as the endpoint sees it; the four last fields are answers of other services. */
  datatype WithdrawArgs = WithdrawArgs(
    user: nat, asset: nat, to: string, amount: int, client: string,
    limited: bool, validAddress: bool, knownAsset: bool, cap: Option<int>)

  datatype WithdrawReply =
    | Reserved(id: nat)
    | ReservedBefore(id: nat)
    | WithdrawDenied(reason: Denial)
    | WithdrawBroken(error: Ledger.LedgerError)

  datatype Desk = Desk(txs: seq<LedgerTx>, requests: seq<Withdrawal>)

  function WithdrawCheck(txs: seq<LedgerTx>, a: WithdrawArgs): Option<Denial> {
    if a.limited then Some(RateLimited)
    else if a.amount <= 0 then Some(NotPositive)
    else if !a.validAddress then Some(BadAddress)
    else if !a.knownAsset then Some(UnknownAsset)
    else if a.cap.Some? && a.amount > a.cap.value then Some(OverCap)
    else if Ledger.AvailableBalance(txs, a.user, a.asset) < a.amount then Some(InsufficientFunds)
    else None
  }

  function ReserveOutcome(txs: seq<LedgerTx>, id: nat, a: WithdrawArgs): Ledger.Posting {
    Ledger.Outcome(txs, WithdrawalType, Keys.WithdrawKey(a.user, a.client),
      Ledger.Move(Wallet(a.user, a.asset), System(WithdrawalsReserved, a.asset), a.asset, a.amount),
      WithdrawalRef(id))
  }

  /** The committed tables and the reply; an error leaves the tables as they were. */
  function Withdraw(d: Desk, a: WithdrawArgs): (Desk, WithdrawReply) {
    match Ledger.Find(d.txs, Keys.WithdrawKey(a.user, a.client))
    case Some(LedgerTx(_, _, WithdrawalRef(id), _)) =>
      if id < |d.requests| && d.requests[id].user == a.user then (d, ReservedBefore(id))
      else (d, WithdrawDenied(NotFound))
    case _ =>
      var denial := WithdrawCheck(d.txs, a);
      if denial.Some? then (d, WithdrawDenied(denial.value))
      else
        var id := |d.requests|;
        var p := ReserveOutcome(d.txs, id, a);
        if p.Refused? then (d, WithdrawBroken(p.error))
        else (Desk(Ledger.After(d.txs, p), d.requests + [Withdrawal(a.user, a.asset, a.to, a.amount, FRESH_OUTBOX)]),
              Reserved(id))
  }

  method CreateWithdrawal(session: Session, a: WithdrawArgs) returns (reply: WithdrawReply)
    modifies session`txs, session`requests
    ensures (Desk(session.txs, session.requests), reply) == Withdraw(Desk(old(session.txs), old(session.requests)), a)
  {
    var key: Key := Keys.WithdrawKey(a.user, a.client);
    var existing := Ledger.Find(session.txs, key);
    if existing.Some? && existing.value.ref.WithdrawalRef? {
      var id := existing.value.ref.request;
      if id < |session.requests| && session.requests[id].user == a.user {
        return ReservedBefore(id);
      }
      return WithdrawDenied(NotFound);
    }
    if a.limited {
      return WithdrawDenied(RateLimited);
    }
    if a.amount <= 0 {
      return WithdrawDenied(NotPositive);
    }
    if !a.validAddress {
      return WithdrawDenied(BadAddress);
    }
    if !a.knownAsset {
      return WithdrawDenied(UnknownAsset);
    }
    if a.cap.Some? && a.amount > a.cap.value {
      return WithdrawDenied(OverCap);
    }
    var available := Ledger.AvailableBalance(session.txs, a.user, a.asset);
    if available < a.amount {
      return WithdrawDenied(InsufficientFunds);
    }
    var requests, id := session.requests, |session.requests|;
    session.requests := session.requests + [Withdrawal(a.user, a.asset, a.to, a.amount, FRESH_OUTBOX)];
    var posting := Ledger.Post(session, WithdrawalType, key,
      [Ledger.Leg(Wallet(a.user, a.asset), a.asset, -a.amount),
       Ledger.Leg(System(WithdrawalsReserved, a.asset), a.asset, a.amount)], WithdrawalRef(id));
    if posting.Refused? {
      session.requests := requests;
      return WithdrawBroken(posting.error);
    }
    return Reserved(id);
  }

  // ---- transfers ----------------------------------------------------------------------------

  datatype TransferArgs = TransferArgs(
    sender: nat, recipient: Option<nat>, asset: nat, amount: int, client: string,
    knownAsset: bool, cap: Option<int>)

  datatype TransferReply =
    | Sent(tx: LedgerTx)
    | TransferDenied(reason: Denial)
    | TransferBroken(error: Ledger.LedgerError)

  function TransferCheck(txs: seq<LedgerTx>, a: TransferArgs): Option<Denial> {
    if a.recipient.None? then Some(NoRecipient)
    else if a.recipient.value == a.sender then Some(ToYourself)
    else if !a.knownAsset then Some(UnknownAsset)
    else if a.cap.Some? && a.amount > a.cap.value then Some(OverCap)
    else if Ledger.AvailableBalance(txs, a.sender, a.asset) < a.amount then Some(InsufficientFunds)
    else None
  }

  function TransferOutcome(txs: seq<LedgerTx>, a: TransferArgs): Ledger.Posting
    requires a.recipient.Some?
  {
    Ledger.Outcome(txs, TransferOutType, Keys.TransferKey(a.sender, a.client),
      Ledger.Move(Wallet(a.sender, a.asset), Wallet(a.recipient.value, a.asset), a.asset, a.amount),
      TransferRef(a.sender, a.recipient.value))
  }

  function Transfer(txs: seq<LedgerTx>, a: TransferArgs): (seq<LedgerTx>, TransferReply) {
    if a.amount <= 0 then (txs, TransferDenied(NotPositive))
    else match Ledger.Find(txs, Keys.TransferKey(a.sender, a.client))
      case Some(existing) => (txs, Sent(existing))
      case None =>
        var denial := TransferCheck(txs, a);
        if denial.Some? then (txs, TransferDenied(denial.value))
        else match TransferOutcome(txs, a)
          case Refused(e) => (txs, TransferBroken(e))
          case Replayed(existing) => (txs, Sent(existing))
          case Posted(tx) => (txs + [tx], Sent(tx))
  }

  method CreateTransfer(session: Session, a: TransferArgs) returns (reply: TransferReply)
    modifies session`txs
    ensures (session.txs, reply) == Transfer(old(session.txs), a)
  {
    if a.amount <= 0 {
      return TransferDenied(NotPositive);
    }
    var key: Key := Keys.TransferKey(a.sender, a.client);
    var existing := Ledger.Find(session.txs, key);
    if existing.Some? {
      return Sent(existing.value);
    }
    if a.recipient.None? {
      return TransferDenied(NoRecipient);
    }
    var recipient := a.recipient.value;
    if recipient == a.sender {
      return TransferDenied(ToYourself);
    }
    if !a.knownAsset {
      return TransferDenied(UnknownAsset);
    }
    if a.cap.Some? && a.amount > a.cap.value {
      return TransferDenied(OverCap);
    }
    var available := Ledger.AvailableBalance(session.txs, a.sender, a.asset);
    if available < a.amount {
      return TransferDenied(InsufficientFunds);
    }
    var posting := Ledger.Post(session, TransferOutType, key,
      [Ledger.Leg(Wallet(a.sender, a.asset), a.asset, -a.amount),
       Ledger.Leg(Wallet(recipient, a.asset), a.asset, a.amount)], TransferRef(a.sender, recipient));
    match posting
    case Refused(e) => return TransferBroken(e);
    case Replayed(tx) => return Sent(tx);
    case Posted(tx) => return Sent(tx);
  }

  // ---- which calls are accepted -------------------------------------------------------------

  /** A condition under which a call is refused, and the answer it then gets. */
  datatype Check = Check(fails: bool, denial: Denial)

  /** The first condition that holds gives the answer. */
  ghost predicate FirstFailing(checks: seq<Check>, denial: Denial) {
    exists k :: 0 <= k < |checks| && checks[k].fails && checks[k].denial == denial
      && forall j :: 0 <= j < k ==> !checks[j].fails
  }

  predicate WithinCap(amount: int, cap: Option<int>) {
    cap.Some? ==> amount <= cap.value
  }

  predicate Transferable(txs: seq<LedgerTx>, a: TransferArgs) {
    && a.amount > 0 && a.recipient.Some? && a.recipient.value != a.sender && a.knownAsset
    && WithinCap(a.amount, a.cap) && a.amount <= Ledger.AvailableBalance(txs, a.sender, a.asset)
  }

  function TransferChecks(txs: seq<LedgerTx>, a: TransferArgs): seq<Check> {
    [Check(a.amount <= 0, NotPositive), Check(a.recipient.None?, NoRecipient),
     Check(a.recipient == Some(a.sender), ToYourself), Check(!a.knownAsset, UnknownAsset),
     Check(!WithinCap(a.amount, a.cap), OverCap),
     Check(a.amount > Ledger.AvailableBalance(txs, a.sender, a.asset), InsufficientFunds)]
  }

  /**
   * A transfer under a fresh key is posted exactly if it is positive, has another user as recipient, a known
   * asset, and is within the cap and the balance; otherwise the first of these to fail is the answer.
   */
  lemma TransferDecided(txs: seq<LedgerTx>, a: TransferArgs)
    requires Keys.TransferKey(a.sender, a.client) !in Ledger.KeysOf(txs)
    ensures var (after, reply) := Transfer(txs, a);
      if Transferable(txs, a) then
        && reply.Sent? && after == txs + [reply.tx]
        && reply.tx == LedgerTx(TransferOutType, Keys.TransferKey(a.sender, a.client),
             TransferRef(a.sender, a.recipient.value),
             [Entry(Wallet(a.sender, a.asset), a.asset, -a.amount),
              Entry(Wallet(a.recipient.value, a.asset), a.asset, a.amount)])
      else after == txs && reply.TransferDenied? && FirstFailing(TransferChecks(txs, a), reply.reason)
  {
    hide Ledger.Total, Ledger.LegsError;
    if Transferable(txs, a) {
      Ledger.MovePosts(txs, TransferOutType, Keys.TransferKey(a.sender, a.client), Wallet(a.sender, a.asset),
        Wallet(a.recipient.value, a.asset), a.asset, a.amount, TransferRef(a.sender, a.recipient.value));
    } else {
      var k := if a.amount <= 0 then 0 else if a.recipient.None? then 1 else if a.recipient == Some(a.sender) then 2
               else if !a.knownAsset then 3 else if !WithinCap(a.amount, a.cap) then 4 else 5;
      assert TransferChecks(txs, a)[k].fails;
    }
  }

  /** A transfer under a used key answers with the transaction there is, unless its amount is refused first. */
  lemma TransferAnsweredBefore(txs: seq<LedgerTx>, a: TransferArgs)
    requires Keys.TransferKey(a.sender, a.client) in Ledger.KeysOf(txs)
    ensures var (after, reply) := Transfer(txs, a);
      after == txs &&
      if a.amount <= 0 then reply == TransferDenied(NotPositive)
      else reply.Sent? && reply.tx in txs && reply.tx.key == Keys.TransferKey(a.sender, a.client)
  {
  }

  predicate Reservable(txs: seq<LedgerTx>, a: WithdrawArgs) {
    && !a.limited && a.amount > 0 && a.validAddress && a.knownAsset
    && WithinCap(a.amount, a.cap) && a.amount <= Ledger.AvailableBalance(txs, a.user, a.asset)
  }

  function WithdrawChecks(txs: seq<LedgerTx>, a: WithdrawArgs): seq<Check> {
    [Check(a.limited, RateLimited), Check(a.amount <= 0, NotPositive), Check(!a.validAddress, BadAddress),
     Check(!a.knownAsset, UnknownAsset), Check(!WithinCap(a.amount, a.cap), OverCap),
     Check(a.amount > Ledger.AvailableBalance(txs, a.user, a.asset), InsufficientFunds)]
  }

  /**
   * A withdrawal under a fresh key is reserved exactly if it is not rate limited, is positive, names a valid
   * address and a known asset, and is within the cap and the balance; otherwise the first of these to fail
   * is the answer.
   */
  lemma WithdrawalDecided(d: Desk, a: WithdrawArgs)
    requires Keys.WithdrawKey(a.user, a.client) !in Ledger.KeysOf(d.txs)
    ensures var (after, reply) := Withdraw(d, a);
      if Reservable(d.txs, a) then
        && reply == Reserved(|d.requests|)
        && after.requests == d.requests + [Withdrawal(a.user, a.asset, a.to, a.amount, FRESH_OUTBOX)]
        && after.txs == d.txs + [LedgerTx(WithdrawalType, Keys.WithdrawKey(a.user, a.client),
             WithdrawalRef(|d.requests|),
             [Entry(Wallet(a.user, a.asset), a.asset, -a.amount),
              Entry(System(WithdrawalsReserved, a.asset), a.asset, a.amount)])]
      else after == d && reply.WithdrawDenied? && FirstFailing(WithdrawChecks(d.txs, a), reply.reason)
  {
    hide Ledger.Total, Ledger.LegsError;
    if Reservable(d.txs, a) {
      Ledger.MovePosts(d.txs, WithdrawalType, Keys.WithdrawKey(a.user, a.client), Wallet(a.user, a.asset),
        System(WithdrawalsReserved, a.asset), a.asset, a.amount, WithdrawalRef(|d.requests|));
    } else {
      var k := if a.limited then 0 else if a.amount <= 0 then 1 else if !a.validAddress then 2
               else if !a.knownAsset then 3 else if !WithinCap(a.amount, a.cap) then 4 else 5;
      assert WithdrawChecks(d.txs, a)[k].fails;
    }
  }

  /** A withdrawal under a used key answers with its request if that is the user's, and changes nothing. */
  lemma WithdrawalAnsweredBefore(d: Desk, a: WithdrawArgs, t: LedgerTx)
    requires Ledger.UniqueKeys(d.txs) && t in d.txs && t.key == Keys.WithdrawKey(a.user, a.client)
    requires t.ref.WithdrawalRef?
    ensures var (after, reply) := Withdraw(d, a);
      after == d &&
      reply == if t.ref.request < |d.requests| && d.requests[t.ref.request].user == a.user
               then ReservedBefore(t.ref.request) else WithdrawDenied(NotFound)
  {
    var found := Ledger.Find(d.txs, t.key);
    assert found.Some? && found.value in d.txs;
  }

  // ---- what a call does to the wallets ------------------------------------------------------

  /** A reservation debits exactly its own wallet, by its amount, out of funds that were there. */
  lemma ReservationDebits(d: Desk, a: WithdrawArgs, user: nat, asset: nat)
    requires Withdraw(d, a).1.Reserved?
    ensures var d' := Withdraw(d, a).0;
      var before := Ledger.AvailableBalance(d.txs, user, asset);
      Ledger.AvailableBalance(d'.txs, user, asset) ==
        before - (if user == a.user && asset == a.asset then a.amount else 0) &&
      (user == a.user && asset == a.asset ==> 0 < a.amount <= before)
  {
    PostedMove(d.txs, WithdrawalType, Keys.WithdrawKey(a.user, a.client), Wallet(a.user, a.asset),
      System(WithdrawalsReserved, a.asset), a.asset, a.amount, WithdrawalRef(|d.requests|),
      Ledger.OneAccount(Wallet(user, asset)));
  }

  /** A transfer moves its amount from one wallet to another and changes no third one. */
  lemma TransferMoves(txs: seq<LedgerTx>, a: TransferArgs, user: nat, asset: nat)
    requires Transfer(txs, a).0 != txs
    ensures var before := Ledger.AvailableBalance(txs, user, asset);
      Ledger.AvailableBalance(Transfer(txs, a).0, user, asset) ==
        before
        - (if user == a.sender && asset == a.asset then a.amount else 0)
        + (if Some(user) == a.recipient && asset == a.asset then a.amount else 0) &&
      (user == a.sender && asset == a.asset ==> 0 < a.amount <= before)
  {
    PostedMove(txs, TransferOutType, Keys.TransferKey(a.sender, a.client), Wallet(a.sender, a.asset),
      Wallet(a.recipient.value, a.asset), a.asset, a.amount, TransferRef(a.sender, a.recipient.value),
      Ledger.OneAccount(Wallet(user, asset)));
  }

  lemma PostedMove(txs: seq<LedgerTx>, kind: EntryType, key: Key, source: Account, target: Account,
                   asset: nat, amount: int, ref: Ref, scope: Ledger.Scope)
    requires key !in Ledger.KeysOf(txs) && source.asset == asset && target.asset == asset
    ensures var p := Ledger.Outcome(txs, kind, key, Ledger.Move(source, target, asset, amount), ref);
      && p == Ledger.Posted(LedgerTx(kind, key, ref, Ledger.MoveEntries(source, target, asset, amount)))
      && Ledger.Total(Ledger.After(txs, p), scope) == Ledger.Total(txs, scope)
         + (if Ledger.Covers(scope, Entry(source, asset, -amount)) then -amount else 0)
         + (if Ledger.Covers(scope, Entry(target, asset, amount)) then amount else 0)
  {
    Ledger.MovePosts(txs, kind, key, source, target, asset, amount, ref);
    Ledger.TotalAppend(txs, LedgerTx(kind, key, ref, Ledger.MoveEntries(source, target, asset, amount)), scope);
    Ledger.MoveTotal(source, target, asset, amount, scope);
  }

  /**
   * Retrying a withdrawal under the same client key, with whatever other arguments, answers with the
   * first request and debits nothing.
   */
  lemma WithdrawalRetry(d: Desk, a: WithdrawArgs, again: WithdrawArgs)
    requires Withdraw(d, a).1.Reserved? && again.user == a.user && again.client == a.client
    ensures var (d', reply) := Withdraw(d, a);
      Withdraw(d', again) == (d', ReservedBefore(reply.id))
  {
    PostedMove(d.txs, WithdrawalType, Keys.WithdrawKey(a.user, a.client), Wallet(a.user, a.asset),
      System(WithdrawalsReserved, a.asset), a.asset, a.amount, WithdrawalRef(|d.requests|),
      Ledger.Everything(a.asset));
    Ledger.KeysAppend(d.txs, ReserveOutcome(d.txs, |d.requests|, a).tx);
  }
}
