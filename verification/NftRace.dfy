/**
 * Overlapping calls of the NFT endpoints. Key search, holding lock, insert, second look and commit are
 * separate steps of separate database transactions, interleaved with each other and with the workers'
 * commits; reads see committed rows only, the holding's lock and the unique key are held until commit.
 */
module NftRace {
  import opened Wrappers
  import opened Tables
  import Payouts
  import Nft

  /** A call of `transfer_nft` or of `request_withdrawal`. */
  datatype Op =
    | Give(sender: nat, recipient: Option<nat>, nft: nat, client: string)
    | Take(request: Nft.RequestArgs)

  function OwnerOf(op: Op): nat {
    if op.Give? then op.sender else op.request.user
  }

  function NftOf(op: Op): nat {
    if op.Give? then op.nft else op.request.nft
  }

  /** The endpoint as one atomic event. */
  function EventOf(op: Op): Nft.Event {
    match op
    case Give(sender, recipient, nft, client) => Nft.Move(sender, recipient, nft, client)
    case Take(request) => Nft.Ask(request)
  }

  /** What the atomic endpoint answers. */
  function ReplyAt(d: Nft.Desk, op: Op): Nft.Reply {
    match op
    case Give(sender, recipient, nft, client) => Nft.Transfer(d, sender, recipient, nft, client).1
    case Take(request) => Nft.Request(d, request).1
  }

  /** The refusals between the key search and the holding lock. */
  function Refusal(op: Op): Option<Nft.Denial> {
    match op
    case Give(sender, recipient, _, _) =>
      if recipient.None? then Some(Nft.NoRecipient)
      else if recipient.value == sender then Some(Nft.ToYourself) else None
    case Take(request) =>
      if request.limited then Some(Nft.RateLimited)
      else if !request.validAddress then Some(Nft.BadAddress) else None
  }

  /** The two endpoints scope their keys apart. */
  predicate SameKey(p: Op, q: Op) {
    match (p, q)
    case (Give(sender, _, _, client), Give(sender', _, _, client')) => sender == sender' && client == client'
    case (Take(a), Take(b)) => a.user == b.user && a.client == b.client
    case _ => false
  }

  function Lookup(d: Nft.Desk, op: Op): Option<nat> {
    match op
    case Give(sender, _, _, client) => Nft.FindTransfer(d.transfers, sender, client)
    case Take(request) => Nft.FindRequest(d.requests, request.user, request.client)
  }

  function Rows(d: Nft.Desk, op: Op): nat {
    if op.Give? then |d.transfers| else |d.requests|
  }

  /** Row `k` of the call's table carries its key. */
  predicate KeyAt(d: Nft.Desk, op: Op, k: nat) {
    match op
    case Give(sender, _, _, client) =>
      k < |d.transfers| && d.transfers[k].sender == sender && d.transfers[k].client == client
    case Take(request) =>
      k < |d.requests| && d.requests[k].user == request.user && d.requests[k].client == request.client
  }

  /** The two statements of the flush. */
  function Applied(d: Nft.Desk, op: Op): Nft.Desk {
    if Refusal(op).Some? || NftOf(op) >= |d.holdings| then d
    else
      var h := d.holdings[NftOf(op)];
      match op
      case Give(sender, recipient, nft, client) =>
        d.(holdings := d.holdings[nft := h.(user := recipient.value)],
           transfers := d.transfers + [NftTransfer(nft, sender, recipient.value, client)])
      case Take(a) =>
        d.(holdings := d.holdings[a.nft := h.(status := Withdrawing)],
           requests := d.requests +
             [NftWithdrawal(a.user, a.nft, h.contract, h.token, a.to, a.client, FRESH_OUTBOX)])
  }

  // ---- sessions -----------------------------------------------------------------------------

  /** A call and how many commits came before its key search. */
  datatype Ticket = Ticket(op: Op, since: nat)

  /** How a session's last call ended; `at` counts the commits before the reply. */
  datatype Ending =
    | NotStarted
    | Replied(ticket: Ticket, reply: Nft.Reply, at: nat)
    | Raised(ticket: Ticket)      // the key conflict, raised again
    | RolledBack

  datatype Phase =
    | Idle(ending: Ending)
    | Looked(ticket: Ticket)      // the key was not found
    | Missed(ticket: Ticket)      // the holding was not there to lock
    | Locked(ticket: Ticket)      // holds the holding's row lock
    | Written(ticket: Ticket)     // both rows written, not committed
    | Conflicted(ticket: Ticket)  // the insert met a committed key and the transaction was rolled back

  /** `log` lists what was committed, in commit order. */
  datatype World = World(nft: Nft.World, log: seq<Nft.Event>, sessions: seq<Phase>)

  datatype Event =
    | Begin(session: nat, op: Op)
    | Lock(session: nat)
    | Write(session: nat)
    | LookAgain(session: nat)
    | Commit(session: nat)
    | Rollback(session: nat)
    | Worker(event: Nft.Event)    // a token comes in, or a worker's pass commits

  predicate ByWorker(e: Nft.Event) {
    !e.Move? && !e.Ask?
  }

  predicate Holds(p: Phase) {
    p.Locked? || p.Written?
  }

  predicate RowFree(w: World, nft: nat) {
    forall k :: 0 <= k < |w.sessions| && Holds(w.sessions[k]) ==> NftOf(w.sessions[k].ticket.op) != nft
  }

  predicate KeyFree(w: World, op: Op) {
    forall k :: 0 <= k < |w.sessions| && w.sessions[k].Written? ==> !SameKey(w.sessions[k].ticket.op, op)
  }

  function To(w: World, i: nat, p: Phase): World
    requires i < |w.sessions|
  {
    w.(sessions := w.sessions[i := p])
  }

  /** A step that must wait, or that the session is not ready for, changes nothing. */
  function Next(w: World, e: Event): World {
    if e.Worker? then
      if ByWorker(e.event) then w.(nft := Nft.Next(w.nft, e.event), log := w.log + [e.event]) else w
    else if e.session >= |w.sessions| then w
    else
      var i, p, d := e.session, w.sessions[e.session], w.nft.desk;
      match e
      case Begin(_, op) => if p.Idle? then To(w, i, Begun(w, op)) else w
      case Lock(_) =>
        if !p.Looked? then w
        else if !Nft.HeldBy(d.holdings, NftOf(p.ticket.op), OwnerOf(p.ticket.op)) then To(w, i, Missed(p.ticket))
        else if RowFree(w, NftOf(p.ticket.op)) then To(w, i, Locked(p.ticket)) else w
      case Write(_) =>
        // A rival's uncommitted row under the same key makes the insert wait; a committed one fails it.
        if !p.Locked? || !KeyFree(w, p.ticket.op) then w
        else To(w, i, if Lookup(d, p.ticket.op).Some? then Conflicted(p.ticket) else Written(p.ticket))
      case LookAgain(_) =>
        if p.Missed? || p.Conflicted? then To(w, i, Idle(LookedAgain(w, p))) else w
      case Commit(_) =>
        if !p.Written? then w
        else
          To(w, i, Idle(Replied(p.ticket, Nft.Accepted(Rows(d, p.ticket.op)), |w.log|))).(
            nft := w.nft.(desk := Applied(d, p.ticket.op)), log := w.log + [EventOf(p.ticket.op)])
      case Rollback(_) => To(w, i, Idle(RolledBack))
  }

  function Begun(w: World, op: Op): Phase {
    var t := Ticket(op, |w.log|);
    match Lookup(w.nft.desk, op)
    case Some(id) => Idle(Replied(t, Nft.AcceptedBefore(id), |w.log|))
    case None =>
      if Refusal(op).Some? then Idle(Replied(t, Nft.Denied(Refusal(op).value), |w.log|)) else Looked(t)
  }

  function LookedAgain(w: World, p: Phase): Ending
    requires p.Missed? || p.Conflicted?
  {
    match Lookup(w.nft.desk, p.ticket.op)
    case Some(id) => Replied(p.ticket, Nft.AcceptedBefore(id), |w.log|)
    case None => if p.Missed? then Replied(p.ticket, Nft.Denied(Nft.NftNotFound), |w.log|) else Raised(p.ticket)
  }

  function Start(sessions: nat): World {
    World(Nft.Run([]), [], seq(sessions, i => Idle(NotStarted)))
  }

  function Run(sessions: nat, events: seq<Event>): World {
    if events == [] then Start(sessions)
    else Next(Run(sessions, events[..|events| - 1]), events[|events| - 1])
  }

  // ---- the invariant ------------------------------------------------------------------------

  /** The desk after the first `n` commits. */
  function DeskAt(log: seq<Nft.Event>, n: nat): Nft.Desk
    requires n <= |log|
  {
    Nft.Run(log[..n]).desk
  }

  /** After `n` commits, the atomic endpoint would have given this reply. */
  predicate RepliesAt(log: seq<Nft.Event>, n: nat, op: Op, reply: Nft.Reply) {
    n <= |log| && ReplyAt(DeskAt(log, n), op) == reply
  }

  /**
   * The reply is the atomic endpoint's at some instant of the call; an accepted call is that instant's
   * commit.
   */
  ghost predicate Atomically(log: seq<Nft.Event>, t: Ticket, reply: Nft.Reply, at: nat) {
    && t.since <= at <= |log|
    && (exists n :: t.since <= n <= at && RepliesAt(log, n, t.op, reply))
    && (reply.Accepted? ==> at < |log| && log[at] == EventOf(t.op) && RepliesAt(log, at, t.op, reply))
  }

  ghost predicate EndingOk(w: World, e: Ending) {
    match e
    case Replied(t, reply, at) =>
      Atomically(w.log, t, reply, at) && (!reply.Denied? ==> KeyAt(w.nft.desk, t.op, reply.id))
    case Raised(_) => false
    case _ => true
  }

  ghost predicate OpenOk(w: World, p: Phase)
    requires !p.Idle?
  {
    var t, d := p.ticket, w.nft.desk;
    && t.since <= |w.log| && Refusal(t.op).None? && Lookup(DeskAt(w.log, t.since), t.op).None?
    && (Holds(p) ==> Nft.HeldBy(d.holdings, NftOf(t.op), OwnerOf(t.op)))
    && (p.Written? ==> Lookup(d, t.op).None?)
    && (p.Conflicted? ==> Lookup(d, t.op).Some?)
    && (p.Missed? && Lookup(d, t.op).None? ==>
          exists n :: t.since <= n <= |w.log| && RepliesAt(w.log, n, t.op, Nft.Denied(Nft.NftNotFound)))
  }

  ghost predicate PhaseOk(w: World, p: Phase) {
    if p.Idle? then EndingOk(w, p.ending) else OpenOk(w, p)
  }

  /** Two sessions that hold the same holding's lock, or wrote the same key. */
  predicate Clash(p: Phase, q: Phase) {
    || (Holds(p) && Holds(q) && NftOf(p.ticket.op) == NftOf(q.ticket.op))
    || (p.Written? && q.Written? && SameKey(p.ticket.op, q.ticket.op))
  }

  ghost predicate Ok(w: World) {
    && w.nft == Nft.Run(w.log)
    && (forall i :: 0 <= i < |w.sessions| ==> PhaseOk(w, w.sessions[i]))
    && (forall i, j :: 0 <= i < |w.sessions| && 0 <= j < |w.sessions| && i != j ==>
          !Clash(w.sessions[i], w.sessions[j]))
  }

  // ---- what a commit leaves alone -----------------------------------------------------------

  /** Rows keep their keys and none is lost. */
  ghost predicate Grows(d: Nft.Desk, d': Nft.Desk) {
    && |d.transfers| <= |d'.transfers| && |d.requests| <= |d'.requests|
    && forall op, k: nat :: k < Rows(d, op) ==> (KeyAt(d, op, k) <==> KeyAt(d', op, k))
  }

  /** Whatever was free to move still is. */
  ghost predicate KeepsHeld(d: Nft.Desk, d': Nft.Desk) {
    forall h: nat, u: nat :: Nft.HeldBy(d.holdings, h, u) ==> Nft.HeldBy(d'.holdings, h, u)
  }

  lemma LookupIsKey(d: Nft.Desk, op: Op)
    ensures Lookup(d, op).Some? ==> KeyAt(d, op, Lookup(d, op).value)
    ensures Lookup(d, op).None? ==> forall k: nat :: !KeyAt(d, op, k)
  {
  }

  /** A row closed by the confirm phase is that of a holding under withdrawal. */
  lemma ConfirmRowLeaves(v: Nft.Vault, i: nat, rpc: Payouts.Rpc, gate: Payouts.Gate)
    requires Nft.Guarded(v.holdings, v.requests) && i < |v.requests|
    ensures var u := Nft.ConfirmRow(v, i, rpc, gate);
      && (forall h :: 0 <= h < |v.holdings| && v.holdings[h].status.Held? ==> u.holdings[h] == v.holdings[h])
      && (forall k :: 0 <= k < |v.requests| ==>
            u.requests[k].user == v.requests[k].user && u.requests[k].client == v.requests[k].client)
  {
    var r := v.requests[i];
    if r.out.status.Broadcast? {
      assert Nft.Exclusive(v.holdings, v.requests, r.holding);
      Nft.SumAtLeast(v.requests, Nft.Open(r.holding), i);
    }
  }

  lemma {:induction false} ConfirmRowsLeave(v: Nft.Vault, n: nat, rpc: Payouts.Rpc, gate: Payouts.Gate)
    requires Nft.Guarded(v.holdings, v.requests) && n <= |v.requests|
    ensures var u := Nft.ConfirmRows(v, n, rpc, gate);
      && (forall h :: 0 <= h < |v.holdings| && v.holdings[h].status.Held? ==> u.holdings[h] == v.holdings[h])
      && (forall k :: 0 <= k < |v.requests| ==>
            u.requests[k].user == v.requests[k].user && u.requests[k].client == v.requests[k].client)
    decreases n
  {
    hide Nft.Guarded, Nft.ConfirmRow;
    if n == 0 {
    } else {
      ConfirmRowsLeave(v, n - 1, rpc, gate);
      Nft.ConfirmRowsGuarded(v, n - 1, rpc, gate);
      ConfirmRowLeaves(Nft.ConfirmRows(v, n - 1, rpc, gate), n - 1, rpc, gate);
    }
  }

  lemma GrowsByRow(d: Nft.Desk, d': Nft.Desk)
    requires d.transfers <= d'.transfers && |d.requests| <= |d'.requests|
    requires forall k :: 0 <= k < |d.requests| ==>
      d'.requests[k].user == d.requests[k].user && d'.requests[k].client == d.requests[k].client
    ensures Grows(d, d')
  {
    forall op: Op, k: nat | k < Rows(d, op)
      ensures KeyAt(d, op, k) <==> KeyAt(d', op, k)
    {
      assert op.Give? ==> d'.transfers[k] == d.transfers[k];
    }
  }

  /** A worker's commit moves no row's key and no holding that is free to move. */
  lemma WorkerLeaves(v: Nft.World, e: Nft.Event)
    requires Nft.Ok(v) && ByWorker(e)
    ensures var d, d' := v.desk, Nft.Next(v, e).desk;
      Grows(d, d') && KeepsHeld(d, d') && d'.transfers == d.transfers && |d'.requests| == |d.requests|
  {
    WorkerRows(v, e);
    hide Nft.Next, Nft.Ok;
    GrowsByRow(v.desk, Nft.Next(v, e).desk);
  }

  lemma WorkerRows(v: Nft.World, e: Nft.Event)
    requires Nft.Ok(v) && ByWorker(e)
    ensures var d, d' := v.desk, Nft.Next(v, e).desk;
      && d'.transfers == d.transfers && |d'.requests| == |d.requests| && KeepsHeld(d, d')
      && forall k :: 0 <= k < |d.requests| ==>
           d'.requests[k].user == d.requests[k].user && d'.requests[k].client == d.requests[k].client
  {
    hide Nft.Guarded, Nft.Provenance, Nft.ConfirmRows, Nft.SignPass, Nft.BroadcastOut;
    match e
    case Confirm(rpc, gate) =>
      ConfirmRowsLeave(Nft.Vault(v.desk.holdings, v.desk.requests), |v.desk.requests|, rpc, gate);
    case _ =>
  }

  /** Under the lock and the key, the two statements are the atomic endpoint. */
  lemma AppliedIsAtomic(v: Nft.World, op: Op)
    requires Refusal(op).None? && Lookup(v.desk, op).None? && Nft.HeldBy(v.desk.holdings, NftOf(op), OwnerOf(op))
    ensures Nft.Next(v, EventOf(op)) == v.(desk := Applied(v.desk, op))
    ensures ReplyAt(v.desk, op) == Nft.Accepted(Rows(v.desk, op))
  {
  }

  lemma AppliedLeaves(d: Nft.Desk, op: Op)
    requires Refusal(op).None? && NftOf(op) < |d.holdings|
    ensures Grows(d, Applied(d, op)) && KeyAt(Applied(d, op), op, Rows(d, op))
  {
    GrowsByRow(d, Applied(d, op));
  }

  /** Another session's lock and key are not those of the commit. */
  lemma AppliedElsewhere(d: Nft.Desk, op: Op, q: Op)
    ensures NftOf(q) != NftOf(op) && Nft.HeldBy(d.holdings, NftOf(q), OwnerOf(q)) ==>
      Nft.HeldBy(Applied(d, op).holdings, NftOf(q), OwnerOf(q))
    ensures !SameKey(op, q) && Lookup(d, q).None? ==> Lookup(Applied(d, op), q).None?
  {
    LookupIsKey(d, q);
    LookupIsKey(Applied(d, op), q);
  }

  lemma RepliesLonger(log: seq<Nft.Event>, e: Nft.Event, n: nat)
    requires n <= |log|
    ensures DeskAt(log + [e], n) == DeskAt(log, n)
    ensures forall op, reply :: RepliesAt(log, n, op, reply) <==> RepliesAt(log + [e], n, op, reply)
  {
    assert (log + [e])[..n] == log[..n];
  }

  lemma AtomicallyLonger(log: seq<Nft.Event>, e: Nft.Event, t: Ticket, reply: Nft.Reply, at: nat)
    requires Atomically(log, t, reply, at)
    ensures Atomically(log + [e], t, reply, at)
  {
    var n :| t.since <= n <= at && RepliesAt(log, n, t.op, reply);
    RepliesLonger(log, e, n);
    RepliesLonger(log, e, at);
  }

  lemma RunLonger(log: seq<Nft.Event>, e: Nft.Event)
    ensures Nft.Run(log + [e]) == Nft.Next(Nft.Run(log), e)
  {
    assert (log + [e])[..|log|] == log;
  }

  /** A commit elsewhere keeps a session's phase right. */
  lemma PhaseStays(w: World, u: World, e: Nft.Event, p: Phase)
    requires PhaseOk(w, p) && u.log == w.log + [e] && Grows(w.nft.desk, u.nft.desk)
    requires Holds(p) ==> Nft.HeldBy(u.nft.desk.holdings, NftOf(p.ticket.op), OwnerOf(p.ticket.op))
    requires p.Written? ==> Lookup(u.nft.desk, p.ticket.op).None?
    ensures PhaseOk(u, p)
  {
    hide Lookup, Rows, KeyAt, Refusal;
    if p.Idle? {
      if p.ending.Replied? {
        AtomicallyLonger(w.log, e, p.ending.ticket, p.ending.reply, p.ending.at);
        KeyStays(w.nft.desk, u.nft.desk, p.ending.ticket.op);
      }
    } else {
      var op := p.ticket.op;
      RepliesLonger(w.log, e, p.ticket.since);
      KeyStays(w.nft.desk, u.nft.desk, op);
      if p.Missed? && Lookup(u.nft.desk, op).None? {
        var n :| p.ticket.since <= n <= |w.log| && RepliesAt(w.log, n, op, Nft.Denied(Nft.NftNotFound));
        RepliesLonger(w.log, e, n);
      }
    }
  }

  lemma KeyStays(d: Nft.Desk, d': Nft.Desk, op: Op)
    requires Grows(d, d')
    ensures Lookup(d, op).Some? ==> Lookup(d', op).Some?
    ensures forall k: nat :: KeyAt(d, op, k) ==> KeyAt(d', op, k)
  {
    LookupIsKey(d, op);
    LookupIsKey(d', op);
  }

  // ---- what every step keeps ----------------------------------------------------------------

  lemma MovedOk(w: World, i: nat, p: Phase)
    requires Ok(w) && i < |w.sessions| && PhaseOk(w, p)
    requires forall j :: 0 <= j < |w.sessions| && j != i ==> !Clash(w.sessions[j], p)
    ensures Ok(To(w, i, p))
  {
    hide EndingOk, OpenOk;
    forall j | 0 <= j < |w.sessions|
      ensures PhaseOk(To(w, i, p), To(w, i, p).sessions[j])
    {
      SamePhase(w, To(w, i, p), if j == i then p else w.sessions[j]);
    }
  }

  lemma SamePhase(w: World, u: World, p: Phase)
    requires u.nft == w.nft && u.log == w.log
    ensures PhaseOk(w, p) <==> PhaseOk(u, p)
  {
  }

  /** The reply the current desk gives, to a call that began before. */
  lemma RepliesNow(w: World, t: Ticket, reply: Nft.Reply)
    requires w.nft == Nft.Run(w.log) && t.since <= |w.log|
    requires ReplyAt(w.nft.desk, t.op) == reply
    ensures RepliesAt(w.log, |w.log|, t.op, reply)
    ensures !reply.Accepted? ==> Atomically(w.log, t, reply, |w.log|)
  {
    hide ReplyAt;
    assert w.log[..|w.log|] == w.log;
  }

  lemma BegunOk(w: World, op: Op)
    requires w.nft == Nft.Run(w.log)
    ensures PhaseOk(w, Begun(w, op)) && !Holds(Begun(w, op))
  {
    LookupIsKey(w.nft.desk, op);
    assert w.log[..|w.log|] == w.log;
    var p := Begun(w, op);
    if p.Idle? {
      RepliesNow(w, p.ending.ticket, p.ending.reply);
    }
  }

  lemma LockOk(w: World, p: Phase)
    requires w.nft == Nft.Run(w.log) && PhaseOk(w, p) && p.Looked?
    ensures var held := Nft.HeldBy(w.nft.desk.holdings, NftOf(p.ticket.op), OwnerOf(p.ticket.op));
      if held then PhaseOk(w, Locked(p.ticket)) else PhaseOk(w, Missed(p.ticket))
  {
    var d, op := w.nft.desk, p.ticket.op;
    if Lookup(d, op).None? && !Nft.HeldBy(d.holdings, NftOf(op), OwnerOf(op)) {
      RepliesNow(w, p.ticket, Nft.Denied(Nft.NftNotFound));
    }
  }

  lemma WriteOk(w: World, p: Phase)
    requires PhaseOk(w, p) && p.Locked?
    ensures PhaseOk(w, if Lookup(w.nft.desk, p.ticket.op).Some? then Conflicted(p.ticket) else Written(p.ticket))
  {
  }

  /** The second look answers as the atomic endpoint would have; after a key conflict it finds the row. */
  lemma LookedAgainOk(w: World, p: Phase)
    requires w.nft == Nft.Run(w.log) && PhaseOk(w, p) && (p.Missed? || p.Conflicted?)
    ensures EndingOk(w, LookedAgain(w, p))
  {
    var d, op := w.nft.desk, p.ticket.op;
    LookupIsKey(d, op);
    if Lookup(d, op).Some? {
      RepliesNow(w, p.ticket, Nft.AcceptedBefore(Lookup(d, op).value));
    }
  }

  lemma CommittedOk(w: World, u: World, p: Phase)
    requires w.nft == Nft.Run(w.log) && PhaseOk(w, p) && p.Written?
    requires u.nft == w.nft.(desk := Applied(w.nft.desk, p.ticket.op)) && u.log == w.log + [EventOf(p.ticket.op)]
    ensures u.nft == Nft.Run(u.log) && Grows(w.nft.desk, u.nft.desk)
    ensures EndingOk(u, Replied(p.ticket, Nft.Accepted(Rows(w.nft.desk, p.ticket.op)), |w.log|))
  {
    hide Grows, Nft.Next, Applied, Lookup, Refusal;
    var op := p.ticket.op;
    AppliedIsAtomic(w.nft, op);
    AppliedLeaves(w.nft.desk, op);
    RunLonger(w.log, EventOf(op));
    RepliesNow(w, p.ticket, Nft.Accepted(Rows(w.nft.desk, op)));
    RepliesLonger(w.log, EventOf(op), |w.log|);
  }

  lemma CommitKeeps(w: World, i: nat)
    requires Ok(w) && i < |w.sessions| && w.sessions[i].Written?
    ensures Ok(Next(w, Commit(i)))
  {
    hide Grows, Nft.Next, Applied, Lookup, Refusal, Nft.HeldBy, EndingOk;
    var p, u := w.sessions[i], Next(w, Commit(i));
    assert PhaseOk(w, p);
    CommittedOk(w, u, p);
    forall j | 0 <= j < |w.sessions| && j != i
      ensures PhaseOk(u, w.sessions[j])
    {
      var q := w.sessions[j];
      assert PhaseOk(w, q) && !Clash(p, q);
      if !q.Idle? {
        AppliedElsewhere(w.nft.desk, p.ticket.op, q.ticket.op);
      }
      PhaseStays(w, u, EventOf(p.ticket.op), q);
    }
  }

  lemma WorkerKeeps(w: World, e: Nft.Event)
    requires Ok(w) && ByWorker(e)
    ensures Ok(Next(w, Worker(e)))
  {
    hide Grows, Nft.Next, Lookup, Refusal, Nft.HeldBy, EndingOk, Nft.Ok;
    var u := Next(w, Worker(e));
    Nft.RunOk(w.log);
    WorkerLeaves(w.nft, e);
    RunLonger(w.log, e);
    forall j | 0 <= j < |w.sessions|
      ensures PhaseOk(u, w.sessions[j])
    {
      var q := w.sessions[j];
      assert PhaseOk(w, q);
      if !q.Idle? {
        WorkerAddsNoKey(w.nft.desk, u.nft.desk, q.ticket.op);
      }
      PhaseStays(w, u, e, q);
    }
  }

  lemma WorkerAddsNoKey(d: Nft.Desk, d': Nft.Desk, op: Op)
    requires Grows(d, d') && |d'.transfers| == |d.transfers| && |d'.requests| == |d.requests|
    ensures Lookup(d, op).None? ==> Lookup(d', op).None?
  {
    LookupIsKey(d, op);
    LookupIsKey(d', op);
  }

  lemma NextKeeps(w: World, e: Event)
    requires Ok(w)
    ensures Ok(Next(w, e))
  {
    hide Nft.Next, Nft.Run, Lookup, Refusal, Nft.HeldBy, EndingOk, OpenOk, Applied, SameKey, Begun, LookedAgain;
    if e.Worker? {
      if ByWorker(e.event) {
        WorkerKeeps(w, e.event);
      }
    } else if e.session < |w.sessions| {
      var i, p := e.session, w.sessions[e.session];
      assert PhaseOk(w, p);
      match e
      case Begin(_, op) =>
        if p.Idle? {
          BegunOk(w, op);
          MovedOk(w, i, Begun(w, op));
        }
      case Lock(_) =>
        if p.Looked? {
          LockOk(w, p);
          if Next(w, e) != w {
            MovedOk(w, i, Next(w, e).sessions[i]);
          }
        }
      case Write(_) =>
        if p.Locked? && KeyFree(w, p.ticket.op) {
          WriteOk(w, p);
          forall j | 0 <= j < |w.sessions| && j != i
            ensures !Clash(w.sessions[j], Written(p.ticket)) && !Clash(w.sessions[j], Conflicted(p.ticket))
          {
            assert !Clash(w.sessions[j], p);
          }
          MovedOk(w, i, Next(w, e).sessions[i]);
        }
      case LookAgain(_) =>
        if p.Missed? || p.Conflicted? {
          LookedAgainOk(w, p);
          MovedOk(w, i, Idle(LookedAgain(w, p)));
        }
      case Commit(_) =>
        if p.Written? {
          CommitKeeps(w, i);
        }
      case Rollback(_) =>
        RolledBackOk(w);
        MovedOk(w, i, Idle(RolledBack));
    }
  }

  lemma RolledBackOk(w: World)
    ensures EndingOk(w, NotStarted) && EndingOk(w, RolledBack)
  {
  }

  lemma {:induction false} RunOk(sessions: nat, events: seq<Event>)
    ensures Ok(Run(sessions, events)) && |Run(sessions, events).sessions| == sessions
    decreases |events|
  {
    if events == [] {
    } else {
      RunOk(sessions, events[..|events| - 1]);
      NextKeeps(Run(sessions, events[..|events| - 1]), events[|events| - 1]);
    }
  }

  // ---- the interleaved calls are atomic -----------------------------------------------------

  /**
   * What is committed is what the commits, taken as atomic endpoint calls and worker passes in commit
   * order, add up to; so exclusivity and provenance hold under every interleaving.
   */
  lemma CommitsAreAtomic(sessions: nat, events: seq<Event>)
    ensures Run(sessions, events).nft == Nft.Run(Run(sessions, events).log)
  {
    RunOk(sessions, events);
  }

  /** Every committed holding has its one in-flight or paid request exactly as its status says. */
  lemma HoldingExclusiveInterleaved(sessions: nat, events: seq<Event>, h: nat)
    requires h < |Run(sessions, events).nft.desk.holdings|
    ensures var w := Run(sessions, events).nft;
      && Nft.Exclusive(w.desk.holdings, w.desk.requests, h)
      && h < |w.origins| && Nft.Traced(w.desk.transfers, h, w.origins[h]) == Some(w.desk.holdings[h].user)
  {
    hide Run;
    CommitsAreAtomic(sessions, events);
    Nft.RunOk(Run(sessions, events).log);
  }

  /**
   * Every reply is the one the atomic endpoint would have given at some instant between the call's begin
   * and its end, and an accepted call is one of the commits; no call ends in a raised key conflict.
   */
  lemma RepliesAreAtomic(sessions: nat, events: seq<Event>, i: nat)
    requires i < |Run(sessions, events).sessions| && Run(sessions, events).sessions[i].Idle?
    ensures var w := Run(sessions, events);
      match w.sessions[i].ending
      case Replied(t, reply, at) => Atomically(w.log, t, reply, at)
      case Raised(_) => false
      case _ => true
  {
    hide Run, Atomically;
    RunOk(sessions, events);
    assert PhaseOk(Run(sessions, events), Run(sessions, events).sessions[i]);
  }

  // ---- one row per key ----------------------------------------------------------------------

  function OpOf(e: Nft.Event): Op
    requires !ByWorker(e)
  {
    match e
    case Move(sender, recipient, nft, client) => Give(sender, recipient, nft, client)
    case Ask(request) => Take(request)
  }

  /** An atomic call either is accepted on a free key and a held token, or changes nothing. */
  lemma AcceptedExactly(v: Nft.World, op: Op)
    ensures if ReplyAt(v.desk, op).Accepted?
      then Refusal(op).None? && Lookup(v.desk, op).None? && Nft.HeldBy(v.desk.holdings, NftOf(op), OwnerOf(op))
      else Nft.Next(v, EventOf(op)) == v
  {
  }

  /** The only new key is the call's own. */
  lemma AppliedKey(d: Nft.Desk, op: Op, q: Op, k: nat)
    requires Refusal(op).None? && NftOf(op) < |d.holdings|
    ensures KeyAt(Applied(d, op), q, k) <==> KeyAt(d, q, k) || (SameKey(op, q) && k == Rows(d, op))
  {
  }

  /** Commit `n` is an accepted call under the key of `op`. */
  predicate Creates(log: seq<Nft.Event>, n: nat, op: Op) {
    && n < |log| && !ByWorker(log[n]) && SameKey(OpOf(log[n]), op)
    && ReplyAt(DeskAt(log, n), OpOf(log[n])).Accepted?
  }

  /** Which row, if any, one more commit adds under a key. */
  lemma KeyStep(log: seq<Nft.Event>, e: Nft.Event, q: Op, k: nat)
    ensures var d, d' := Nft.Run(log).desk, Nft.Run(log + [e]).desk;
      KeyAt(d', q, k) <==> KeyAt(d, q, k) || (Creates(log + [e], |log|, q) && k == Rows(d, q))
  {
    hide Nft.Next, Nft.Run, Refusal, Nft.HeldBy, Applied, ReplyAt, Nft.Ok;
    var v := Nft.Run(log);
    RunLonger(log, e);
    assert (log + [e])[..|log|] == log;
    if ByWorker(e) {
      Nft.RunOk(log);
      WorkerLeaves(v, e);
    } else {
      var op := OpOf(e);
      assert EventOf(op) == e;
      AcceptedExactly(v, op);
      if ReplyAt(v.desk, op).Accepted? {
        assert Nft.HeldBy(v.desk.holdings, NftOf(op), OwnerOf(op));
        AppliedIsAtomic(v, op);
        HeldInRange(v.desk.holdings, NftOf(op), OwnerOf(op));
        AppliedKey(v.desk, op, q, k);
      }
    }
  }

  lemma HeldInRange(holdings: seq<Holding>, h: nat, user: nat)
    requires Nft.HeldBy(holdings, h, user)
    ensures h < |holdings|
  {
  }

  lemma {:induction false} KeyOnce(log: seq<Nft.Event>, q: Op, k: nat, l: nat)
    requires KeyAt(Nft.Run(log).desk, q, k) && KeyAt(Nft.Run(log).desk, q, l)
    ensures k == l
    decreases |log|
  {
    if log == [] {
      return;
    }
    hide Nft.Run, KeyAt, Refusal, Nft.HeldBy;
    var front, e := log[..|log| - 1], log[|log| - 1];
    assert log == front + [e];
    KeyStep(front, e, q, k);
    KeyStep(front, e, q, l);
    if KeyAt(Nft.Run(front).desk, q, k) && KeyAt(Nft.Run(front).desk, q, l) {
      KeyOnce(front, q, k, l);
    } else if Creates(log, |front|, q) {
      CreatesFree(front, e, q);
    }
  }

  lemma CreatesFree(log: seq<Nft.Event>, e: Nft.Event, q: Op)
    requires Creates(log + [e], |log|, q)
    ensures forall k: nat :: !KeyAt(Nft.Run(log).desk, q, k)
  {
    hide Nft.Run;
    assert (log + [e])[..|log|] == log;
    var op := OpOf(e);
    AcceptedExactly(Nft.Run(log), op);
    LookupIsKey(Nft.Run(log).desk, op);
    forall k: nat
      ensures !KeyAt(Nft.Run(log).desk, q, k)
    {
      assert !KeyAt(Nft.Run(log).desk, op, k);
    }
  }

  /** A call that was accepted, or answered with the row of an earlier one, names the one row of its key. */
  lemma OneRowPerKey(sessions: nat, events: seq<Event>, i: nat, k: nat)
    requires i < |Run(sessions, events).sessions| && Run(sessions, events).sessions[i].Idle?
    requires Run(sessions, events).sessions[i].ending.Replied?
    requires !Run(sessions, events).sessions[i].ending.reply.Denied?
    ensures var w := Run(sessions, events);
      var e := w.sessions[i].ending;
      KeyAt(w.nft.desk, e.ticket.op, k) <==> k == e.reply.id
  {
    hide Run, Atomically, KeyAt;
    RunOk(sessions, events);
    var w := Run(sessions, events);
    var e := w.sessions[i].ending;
    assert PhaseOk(w, w.sessions[i]);
    if KeyAt(w.nft.desk, e.ticket.op, k) {
      KeyOnce(w.log, e.ticket.op, k, e.reply.id);
    }
  }

  // ---- when the second look finds something -------------------------------------------------

  lemma {:induction false} KeyCreated(log: seq<Nft.Event>, since: nat, op: Op)
    requires since <= |log| && Lookup(DeskAt(log, since), op).None?
    ensures Lookup(Nft.Run(log).desk, op).Some? <==> exists n :: since <= n < |log| && Creates(log, n, op)
    decreases |log|
  {
    hide Nft.Run, KeyAt, Lookup, Creates;
    if since == |log| {
      assert log[..since] == log;
      return;
    }
    var front, e := log[..|log| - 1], log[|log| - 1];
    assert log == front + [e] && front[..since] == log[..since];
    KeyCreated(front, since, op);
    forall n: nat | n < |front|
      ensures Creates(log, n, op) <==> Creates(front, n, op)
    {
      CreatesLonger(front, e, n, op);
    }
    LookupStep(front, e, op);
  }

  lemma CreatesLonger(log: seq<Nft.Event>, e: Nft.Event, n: nat, op: Op)
    requires n < |log|
    ensures Creates(log + [e], n, op) <==> Creates(log, n, op)
  {
    RepliesLonger(log, e, n);
  }

  lemma LookupStep(log: seq<Nft.Event>, e: Nft.Event, op: Op)
    ensures Lookup(Nft.Run(log + [e]).desk, op).Some?
      <==> Lookup(Nft.Run(log).desk, op).Some? || Creates(log + [e], |log|, op)
  {
    hide Nft.Run, KeyAt, Lookup, Creates;
    var d, d' := Nft.Run(log).desk, Nft.Run(log + [e]).desk;
    LookupIsKey(d, op);
    LookupIsKey(d', op);
    if Lookup(d, op).Some? {
      KeyStep(log, e, op, Lookup(d, op).value);
    }
    if Lookup(d', op).Some? {
      KeyStep(log, e, op, Lookup(d', op).value);
    }
    KeyStep(log, e, op, Rows(d, op));
  }

  /** An accepted call under the session's key was committed since the session's key search. */
  ghost predicate CommittedSince(w: World, t: Ticket) {
    exists n :: t.since <= n < |w.log| && Creates(w.log, n, t.op)
  }

  ghost predicate LooksExactly(w: World, i: nat)
    requires i < |w.sessions|
  {
    var p := w.sessions[i];
    && (p.Missed? ==>
          (Next(w, LookAgain(i)).sessions[i].ending.reply.AcceptedBefore? <==> CommittedSince(w, p.ticket)))
    && (p.Locked? && KeyFree(w, p.ticket.op) ==>
          (Next(w, Write(i)).sessions[i].Conflicted? <==> CommittedSince(w, p.ticket)))
  }

  /**
   * The second look answers with a row, and the insert meets a committed key, exactly if a call under the
   * same key was committed since the first look.
   */
  lemma SecondLookExactly(sessions: nat, events: seq<Event>, i: nat)
    requires i < |Run(sessions, events).sessions|
    ensures LooksExactly(Run(sessions, events), i)
  {
    RunOk(sessions, events);
    SecondLook(Run(sessions, events), i);
  }

  lemma SecondLook(w: World, i: nat)
    requires Ok(w) && i < |w.sessions|
    ensures LooksExactly(w, i)
  {
    hide Lookup, Creates, Refusal, Nft.Run, Nft.HeldBy, Clash;
    var p := w.sessions[i];
    assert PhaseOk(w, p);
    if !p.Idle? {
      KeyCreated(w.log, p.ticket.since, p.ticket.op);
    }
  }

  // ---- undisturbed, the steps are the endpoint ----------------------------------------------

  /** One call run from start to end without interference. */
  function Alone(nft: Nft.World, op: Op): World {
    Next(Next(Next(Next(Next(World(nft, [], [Idle(NotStarted)]), Begin(0, op)), Lock(0)), Write(0)), LookAgain(0)),
      Commit(0))
  }

  lemma AloneIsEndpoint(nft: Nft.World, op: Op)
    ensures Alone(nft, op).nft == Nft.Next(nft, EventOf(op))
    ensures Alone(nft, op).sessions == [Idle(Replied(Ticket(op, 0), ReplyAt(nft.desk, op), 0))]
  {
    hide Applied, Nft.Next, ReplyAt, Lookup, Nft.HeldBy, Refusal;
    RefusedExactly(nft.desk, op);
    AcceptedExactly(nft, op);
    if Lookup(nft.desk, op).None? && Refusal(op).None? && Nft.HeldBy(nft.desk.holdings, NftOf(op), OwnerOf(op)) {
      AppliedIsAtomic(nft, op);
    }
  }

  /** The order in which the atomic endpoint checks. */
  lemma RefusedExactly(d: Nft.Desk, op: Op)
    ensures Lookup(d, op).Some? ==> ReplyAt(d, op) == Nft.AcceptedBefore(Lookup(d, op).value)
    ensures Lookup(d, op).None? && Refusal(op).Some? ==> ReplyAt(d, op) == Nft.Denied(Refusal(op).value)
    ensures Lookup(d, op).None? && Refusal(op).None? && !Nft.HeldBy(d.holdings, NftOf(op), OwnerOf(op)) ==>
      ReplyAt(d, op) == Nft.Denied(Nft.NftNotFound)
  {
  }

  // ---- a run through both branches ----------------------------------------------------------

  const FIRST := Give(0, Some(1), 0, "key")
  const OTHER := Give(0, Some(1), 1, "key")

  /** Two calls for one holding and a third for another, all under one client key. */
  const RACE := [Worker(Nft.Acquire(0, "c", "1")), Worker(Nft.Acquire(0, "c", "2")),
                 Begin(0, FIRST), Begin(1, FIRST), Begin(2, OTHER), Lock(0), Lock(2), Write(0), Commit(0),
                 Lock(1), LookAgain(1), Write(2), LookAgain(2)]

  function DeskOf(first: nat, transfers: seq<NftTransfer>): Nft.Desk {
    Nft.Desk([Holding(first, "c", "1", Held), Holding(0, "c", "2", Held)], transfers, [])
  }

  /** After `k` steps of the race. */
  ghost predicate RaceAt(k: nat, desk: Nft.Desk, commits: nat, sessions: seq<Phase>) {
    && k <= |RACE|
    && var w := Run(3, RACE[..k]); w.nft.desk == desk && |w.log| == commits && w.sessions == sessions
  }

  lemma RaceStep(k: nat)
    requires k < |RACE|
    ensures Run(3, RACE[..k + 1]) == Next(Run(3, RACE[..k]), RACE[k])
  {
    assert RACE[..k + 1][..k] == RACE[..k];
  }

  lemma RaceBegins()
    ensures RaceAt(5, DeskOf(0, []), 2, [Looked(Ticket(FIRST, 2)), Looked(Ticket(FIRST, 2)), Looked(Ticket(OTHER, 2))])
  {
    hide Run;
    assert RACE[..0] == [];
    assert Run(3, RACE[..0]) == Start(3) by { RaceStarts(); }
    RaceStep(0);
    RaceStep(1);
    RaceStep(2);
    RaceStep(3);
    RaceStep(4);
  }

  lemma RaceStarts()
    ensures Run(3, []) == Start(3)
  {
  }

  const MOVED := NftTransfer(0, 0, 1, "key")

  lemma RaceLocks()
    ensures RaceAt(7, DeskOf(0, []), 2, [Locked(Ticket(FIRST, 2)), Looked(Ticket(FIRST, 2)), Locked(Ticket(OTHER, 2))])
  {
    hide Run;
    RaceBegins();
    RaceStep(5);
    RaceStep(6);
  }

  lemma RaceCommits()
    ensures RaceAt(9, DeskOf(1, [MOVED]), 3,
      [Idle(Replied(Ticket(FIRST, 2), Nft.Accepted(0), 2)), Looked(Ticket(FIRST, 2)), Locked(Ticket(OTHER, 2))])
  {
    RaceLocks();
    hide Run;
    RaceStep(7);
    RaceStep(8);
  }

  ghost predicate StandsAt(events: seq<Event>, i: nat, p: Phase) {
    i < |Run(3, events).sessions| && Run(3, events).sessions[i] == p
  }

  lemma RaceAnswers()
    ensures StandsAt(RACE[..10], 1, Missed(Ticket(FIRST, 2))) && StandsAt(RACE[..12], 2, Conflicted(Ticket(OTHER, 2)))
    ensures RaceAt(13, DeskOf(1, [MOVED]), 3,
      [Idle(Replied(Ticket(FIRST, 2), Nft.Accepted(0), 2)), Idle(Replied(Ticket(FIRST, 2), Nft.AcceptedBefore(0), 3)),
       Idle(Replied(Ticket(OTHER, 2), Nft.AcceptedBefore(0), 3))])
  {
    hide Run;
    RaceCommits();
    RaceStep(9);
    RaceStep(10);
    RaceStep(11);
    RaceStep(12);
  }

  /**
   * After one call is accepted, a second one misses the holding and a third one, for another holding, meets
   * the key; both are answered with the first one's row, and the other holding does not move.
   */
  ghost predicate BothAnswered(events: seq<Event>, missed: nat, conflicted: nat) {
    && missed <= |events| && conflicted <= |events|
    && StandsAt(events[..missed], 1, Missed(Ticket(FIRST, 2)))
    && StandsAt(events[..conflicted], 2, Conflicted(Ticket(OTHER, 2)))
    && StandsAt(events, 1, Idle(Replied(Ticket(FIRST, 2), Nft.AcceptedBefore(0), 3)))
    && StandsAt(events, 2, Idle(Replied(Ticket(OTHER, 2), Nft.AcceptedBefore(0), 3)))
    && Run(3, events).nft.desk == DeskOf(1, [MOVED])
  }

  lemma SecondLooksHappen()
    ensures exists events, missed, conflicted :: BothAnswered(events, missed, conflicted)
  {
    hide Run;
    RaceAnswers();
    assert RACE[..13] == RACE;
    assert BothAnswered(RACE, 10, 12);
  }
}
